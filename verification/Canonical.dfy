/** Canonical prefix codes (RFC 1951, section 3.2.2): codes of one length are consecutive in
    symbol order, and shorter codes come first. */
module Canonical {
  import opened Bits

  const MAXLEN: nat := 16

  /** The number of symbols below n whose code has length l. */
  function Count(lens: seq<nat>, l: nat, n: nat): (c: nat)
    requires n <= |lens|
    ensures c <= n
  {
    if n == 0 then 0 else Count(lens, l, n - 1) + (if lens[n - 1] == l then 1 else 0)
  }

  /** The number of codes of length l; length 0 means that the symbol has no code. */
  function Cnt(lens: seq<nat>, l: nat): nat {
    if l == 0 then 0 else Count(lens, l, |lens|)
  }

  /** The first code of length l. */
  function First(lens: seq<nat>, l: nat): nat
    decreases l, 0
  {
    if l == 0 then 0 else 2 * End(lens, l - 1)
  }

  /** One more than the last code of length l. */
  function End(lens: seq<nat>, l: nat): nat
    decreases l, 1
  {
    First(lens, l) + Cnt(lens, l)
  }

  function CodeVal(lens: seq<nat>, s: nat): nat
    requires s < |lens|
  {
    First(lens, lens[s]) + Count(lens, lens[s], s)
  }

  /** The bits sent for symbol s. */
  function CodeBits(lens: seq<nat>, s: nat): seq<bool>
    requires s < |lens|
  {
    BitsOf(CodeVal(lens, s), lens[s])
  }

  // ---- Kraft sum, in units of 2^-16 ----

  function Share(l: nat): nat {
    if 1 <= l <= MAXLEN then Pow2(MAXLEN - l) else 0
  }

  /** Total share of the symbols below n whose code has at most l bits. */
  function KraftUpTo(lens: seq<nat>, l: nat, n: nat): nat
    requires n <= |lens|
  {
    if n == 0 then 0
    else KraftUpTo(lens, l, n - 1) + (if lens[n - 1] <= l then Share(lens[n - 1]) else 0)
  }

  ghost predicate Bounded(lens: seq<nat>) {
    forall i :: 0 <= i < |lens| ==> lens[i] <= MAXLEN
  }

  /** Every bit string of 16 bits starts with exactly one code. */
  ghost predicate Complete(lens: seq<nat>) {
    Bounded(lens) && KraftUpTo(lens, MAXLEN, |lens|) == Pow2(MAXLEN)
  }

  lemma {:induction false} KraftStep(lens: seq<nat>, l: nat, n: nat)
    requires 1 <= l <= MAXLEN && n <= |lens|
    ensures KraftUpTo(lens, l, n) == KraftUpTo(lens, l - 1, n) + Count(lens, l, n) * Share(l)
  {
    if n > 0 {
      KraftStep(lens, l, n - 1);
      Distribute(Count(lens, l, n - 1), if lens[n - 1] == l then 1 else 0, Share(l));
    }
  }

  lemma {:induction false} KraftNone(lens: seq<nat>, n: nat)
    requires n <= |lens|
    ensures KraftUpTo(lens, 0, n) == 0
  {
    if n > 0 {
      KraftNone(lens, n - 1);
    }
  }

  lemma {:induction false} KraftGrows(lens: seq<nat>, l: nat, m: nat, n: nat)
    requires l <= m && n <= |lens|
    ensures KraftUpTo(lens, l, n) <= KraftUpTo(lens, m, n)
  {
    if n > 0 {
      KraftGrows(lens, l, m, n - 1);
    }
  }

  /** The codes of at most l bits are exactly those below First(l) + Cnt(l), read as l-bit prefixes. */
  lemma {:induction false} FirstIsKraft(lens: seq<nat>, l: nat)
    requires l <= MAXLEN
    ensures End(lens, l) * Pow2(MAXLEN - l) == KraftUpTo(lens, l, |lens|)
  {
    if l == 0 {
      KraftNone(lens, |lens|);
    } else {
      FirstIsKraft(lens, l - 1);
      KraftStep(lens, l, |lens|);
      var x, p := End(lens, l - 1), Pow2(MAXLEN - l);
      Mul2(x, p);
      assert Pow2(MAXLEN - (l - 1)) == 2 * p;
      Distribute(2 * x, Cnt(lens, l), p);
    }
  }

  lemma CodesFit(lens: seq<nat>, l: nat)
    requires Complete(lens) && l <= MAXLEN
    ensures End(lens, l) <= Pow2(l)
  {
    FirstIsKraft(lens, l);
    KraftGrows(lens, l, MAXLEN, |lens|);
    Pow2Add(l, MAXLEN - l);
    CancelLe(End(lens, l), Pow2(l), Pow2(MAXLEN - l));
  }

  lemma CancelLe(x: int, y: int, p: nat)
    requires p > 0 && x * p <= y * p
    ensures x <= y
  {
    if x > y {
      MulLe(y + 1, x, p);
    }
  }

  lemma CodesFull(lens: seq<nat>)
    requires Complete(lens)
    ensures End(lens, MAXLEN) == Pow2(MAXLEN)
  {
    FirstIsKraft(lens, MAXLEN);
  }

  lemma {:induction false} CountMono(lens: seq<nat>, l: nat, m: nat, n: nat)
    requires m <= n <= |lens|
    ensures Count(lens, l, m) <= Count(lens, l, n)
    ensures m < n && lens[m] == l ==> Count(lens, l, m) < Count(lens, l, n)
  {
    if m < n {
      CountMono(lens, l, m, n - 1);
    }
  }

  /** The code of s has a value below 2^16 that fits its length. */
  lemma CodeFits(lens: seq<nat>, s: nat)
    requires Complete(lens) && s < |lens| && lens[s] > 0
    ensures CodeVal(lens, s) < End(lens, lens[s])
    ensures CodeVal(lens, s) < Pow2(lens[s]) <= 0x1_0000
  {
    CountMono(lens, lens[s], s, |lens|);
    CodesFit(lens, lens[s]);
    Pow2Mono(lens[s], 16);
    Pow2Values();
  }

  // ---- decoding ----

  /** The code of s stands in b at pos, b being continued with zeros. */
  predicate Matches(lens: seq<nat>, s: nat, b: seq<bool>, pos: nat) {
    s < |lens| && lens[s] > 0 && Peek(b, pos, lens[s]) == CodeVal(lens, s)
  }

  lemma {:induction false} FirstGrows(lens: seq<nat>, l: nat, m: nat)
    requires l < m
    ensures First(lens, m) >= End(lens, l) * Pow2(m - l)
  {
    var x := End(lens, l);
    if l + 1 < m {
      FirstGrows(lens, l, m - 1);
      var p := Pow2(m - 1 - l);
      assert Pow2(m - l) == 2 * p;
      Mul2(x, p);
    } else {
      assert Pow2(1) == 2;
    }
  }

  /** A position below the codes of length l cannot start a longer code. */
  lemma ShortBeatsLong(lens: seq<nat>, b: seq<bool>, pos: nat, l: nat, m: nat)
    requires l < m && Peek(b, pos, l) < End(lens, l)
    ensures Peek(b, pos, m) < First(lens, m)
  {
    FirstGrows(lens, l, m);
    PeekSplit(b, pos, l, m - l);
    MulLe(Peek(b, pos, l) + 1, End(lens, l), Pow2(m - l));
  }

  lemma MatchUnique(lens: seq<nat>, s: nat, t: nat, b: seq<bool>, pos: nat)
    requires Matches(lens, s, b, pos) && Matches(lens, t, b, pos)
    ensures s == t
  {
    CountMono(lens, lens[s], s, |lens|);
    CountMono(lens, lens[t], t, |lens|);
    if lens[s] < lens[t] {
      ShortBeatsLong(lens, b, pos, lens[s], lens[t]);
    } else if lens[t] < lens[s] {
      ShortBeatsLong(lens, b, pos, lens[t], lens[s]);
    } else if s < t {
      CountMono(lens, lens[s], s, t);
    } else if t < s {
      CountMono(lens, lens[s], t, s);
    }
  }

  lemma MatchesAt(lens: seq<nat>, s: nat, b: seq<bool>, pos: nat)
    requires Complete(lens) && s < |lens| && lens[s] > 0
    requires At(b, pos, CodeBits(lens, s))
    ensures Matches(lens, s, b, pos)
  {
    CodeFits(lens, s);
    PeekBitsOf(b, pos, CodeVal(lens, s), lens[s]);
  }

  /** The codes of a complete table are prefix-free. */
  lemma PrefixFree(lens: seq<nat>, s: nat, t: nat)
    requires Complete(lens)
    requires s < |lens| && t < |lens| && lens[s] > 0 && lens[t] > 0
    requires CodeBits(lens, s) <= CodeBits(lens, t)
    ensures s == t
  {
    var b := CodeBits(lens, t);
    MatchesAt(lens, s, b, 0);
    MatchesAt(lens, t, b, 0);
    MatchUnique(lens, s, t, b, 0);
  }

  lemma {:induction false} SymbolOfRank(lens: seq<nat>, l: nat, r: nat, n: nat) returns (s: nat)
    requires n <= |lens| && r < Count(lens, l, n)
    ensures s < n && lens[s] == l && Count(lens, l, s) == r
  {
    if r < Count(lens, l, n - 1) {
      s := SymbolOfRank(lens, l, r, n - 1);
    } else {
      s := n - 1;
    }
  }

  /** With a complete table every bit stream continues with the code of some symbol. */
  lemma SomeMatch(lens: seq<nat>, b: seq<bool>, pos: nat)
    requires Complete(lens)
    ensures exists s :: Matches(lens, s, b, pos)
  {
    CodesFull(lens);
    PeekBound(b, pos, MAXLEN);
    var s := SomeMatchUpTo(lens, b, pos, MAXLEN);
  }

  lemma {:induction false} SomeMatchUpTo(lens: seq<nat>, b: seq<bool>, pos: nat, l: nat) returns (s: nat)
    requires Peek(b, pos, l) < End(lens, l)
    ensures Matches(lens, s, b, pos)
  {
    assert l > 0;
    if Peek(b, pos, l) >= First(lens, l) {
      s := SymbolOfRank(lens, l, Peek(b, pos, l) - First(lens, l), |lens|);
    } else {
      s := SomeMatchUpTo(lens, b, pos, l - 1);
    }
  }
}
