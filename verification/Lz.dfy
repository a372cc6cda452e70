/** Tokens of the LZ77 layer: literals, and matches that repeat earlier output. */
module Lz {
  import opened Bits

  const THRESHOLD: nat := 3
  const MAXMATCH: nat := 256
  const WINDOW: nat := 8192

  /** sym: a literal, or the match length plus 253; pos: the match distance less 1. */
  datatype Tok = Tok(sym: nat, pos: nat)

  /** The tokens of the compressor: a symbol of the C alphabet and a distance within the window. */
  predicate TokOk(t: Tok) {
    t.sym < 256 + MAXMATCH - THRESHOLD + 1 && t.pos < WINDOW
  }

  function MatchLen(t: Tok): nat
    requires t.sym >= 256
  {
    t.sym - (256 - THRESHOLD)
  }

  /** Appends len bytes, each the one dist positions before. */
  function Repeat(out: seq<Byte>, dist: nat, len: nat): (r: seq<Byte>)
    requires 1 <= dist <= |out|
    ensures |r| == |out| + len && out <= r
    decreases len
  {
    if len == 0 then out else Repeat(out + [out[|out| - dist]], dist, len - 1)
  }

  /** What follows the output so far when token t is expanded. */
  predicate Expandable(out: seq<Byte>, t: Tok) {
    t.sym >= 256 ==> t.pos < |out|
  }

  function ExpandTok(out: seq<Byte>, t: Tok): (r: seq<Byte>)
    requires Expandable(out, t)
    ensures |r| > |out|
  {
    if t.sym < 256 then out + [t.sym] else Repeat(out, t.pos + 1, MatchLen(t))
  }

  /** ts can be expanded after out and the result is r. */
  predicate Expands(out: seq<Byte>, ts: seq<Tok>, r: seq<Byte>)
    decreases ts
  {
    if ts == [] then r == out
    else Expandable(out, ts[0]) && Expands(ExpandTok(out, ts[0]), ts[1..], r)
  }

  lemma {:induction false} ExpandsConcat(out: seq<Byte>, ts: seq<Tok>, mid: seq<Byte>, us: seq<Tok>, r: seq<Byte>)
    requires Expands(out, ts, mid) && Expands(mid, us, r)
    ensures Expands(out, ts + us, r)
    decreases ts
  {
    hide ExpandTok, Expandable;
    if ts == [] {
      assert ts + us == us;
    } else {
      ExpandsConcat(ExpandTok(out, ts[0]), ts[1..], mid, us, r);
      assert (ts + us)[1..] == ts[1..] + us;
    }
  }

  lemma {:induction false} ExpandsGrows(out: seq<Byte>, ts: seq<Tok>, r: seq<Byte>)
    requires Expands(out, ts, r)
    ensures |r| >= |out| + |ts|
    decreases ts
  {
    if ts != [] {
      ExpandsGrows(ExpandTok(out, ts[0]), ts[1..], r);
    }
  }

  /** The len bytes at i also stand dist positions before. */
  predicate TrueMatch(s: seq<Byte>, i: nat, dist: nat, len: nat) {
    1 <= dist <= i && i + len <= |s| && s[i - dist..i - dist + len] == s[i..i + len]
  }

  /** Repeating a true match reproduces the input, even when the match overlaps itself. */
  lemma {:induction false} RepeatMatch(s: seq<Byte>, i: nat, dist: nat, len: nat)
    requires TrueMatch(s, i, dist, len)
    ensures Repeat(s[..i], dist, len) == s[..i + len]
    decreases len
  {
    if len > 0 {
      assert s[i - dist] == s[i - dist..i - dist + len][0] == s[i..i + len][0] == s[i];
      assert s[..i] + [s[i - dist]] == s[..i + 1];
      assert s[i - dist..i - dist + len][1..] == s[i + 1 - dist..i - dist + len];
      assert s[i..i + len][1..] == s[i + 1..i + len];
      RepeatMatch(s, i + 1, dist, len - 1);
    }
  }

  // ---- position classes ----

  /** 0 for 0, and n for 2^(n-1) <= p < 2^n. */
  function PosClass(p: nat): nat {
    if p == 0 then 0 else 1 + PosClass(p / 2)
  }

  lemma {:induction false} PosClassRange(p: nat)
    ensures p < Pow2(PosClass(p))
    ensures p == 0 ==> PosClass(p) == 0
    ensures p > 0 ==> PosClass(p) > 0 && Pow2(PosClass(p) - 1) <= p
    ensures PosClass(p) <= 1 ==> PosClass(p) == p
  {
    if p > 0 {
      PosClassRange(p / 2);
    }
  }

  lemma {:induction false} PosClassBound(p: nat, n: nat)
    requires p < Pow2(n)
    ensures PosClass(p) <= n
  {
    if p > 0 {
      PosClassBound(p / 2, n - 1);
    }
  }

  method ComputePosClass(p: nat) returns (c: nat)
    ensures c == PosClass(p)
  {
    c := 0;
    var q := p;
    while q > 0
      invariant c + PosClass(q) == PosClass(p)
    {
      c := c + 1;
      q := q / 2;
    }
  }
}
