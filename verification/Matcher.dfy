/** The match search: hash chains over the positions already passed. */
module Matcher {
  import opened Bits
  import opened Lz

  const HASH_SIZE: nat := 8192
  const CHAIN: nat := 256

  /** The 13-bit hash of three bytes. */
  function Hash(a: Byte, b: Byte, c: Byte): (h: nat)
    ensures h < HASH_SIZE
  {
    var x := ((a as bv32 << 10) ^ (b as bv32 << 5) ^ (c as bv32)) & 0x1FFF;
    (x as bv13) as nat
  }

  function HashAt(s: seq<Byte>, j: nat): (h: nat)
    requires j + THRESHOLD <= |s|
    ensures h < HASH_SIZE
  {
    Hash(s[j], s[j + 1], s[j + 2])
  }

  /** Position j starts three bytes with hash h. */
  predicate HasHash(s: seq<Byte>, j: nat, h: nat) {
    j + THRESHOLD <= |s| && HashAt(s, j) == h
  }

  /** The last position before i with hash h, or -1. */
  function LastWith(s: seq<Byte>, i: nat, h: nat): (j: int)
    ensures -1 <= j < i && (j >= 0 ==> HasHash(s, j, h))
  {
    if i == 0 then -1 else if HasHash(s, i - 1, h) then i - 1 else LastWith(s, i - 1, h)
  }

  /** The positions before i with hash h, nearest first. */
  function ChainOf(s: seq<Byte>, i: nat, h: nat): (c: seq<nat>)
    ensures forall k :: 0 <= k < |c| ==> c[k] < i
  {
    if i == 0 then [] else if HasHash(s, i - 1, h) then [i - 1] + ChainOf(s, i - 1, h) else ChainOf(s, i - 1, h)
  }

  /** A chain holds exactly the earlier positions with its hash, in strictly decreasing order. */
  lemma {:induction false} ChainExact(s: seq<Byte>, i: nat, h: nat)
    ensures forall j: nat :: j in ChainOf(s, i, h) <==> j < i && HasHash(s, j, h)
    ensures forall k, m :: 0 <= k < m < |ChainOf(s, i, h)| ==> ChainOf(s, i, h)[k] > ChainOf(s, i, h)[m]
  {
    hide HasHash;
    if i > 0 {
      ChainExact(s, i - 1, h);
    }
  }

  /** Following the links walks the chain. */
  lemma {:induction false} ChainLink(s: seq<Byte>, i: nat, h: nat)
    ensures var j := LastWith(s, i, h);
      ChainOf(s, i, h) == if j < 0 then [] else [j as nat] + ChainOf(s, j, h)
  {
    if i > 0 && !HasHash(s, i - 1, h) {
      ChainLink(s, i - 1, h);
    }
  }

  /** head and prev hold the chains of all the positions before i. */
  ghost predicate Chained(s: seq<Byte>, i: nat, head: seq<int>, prev: seq<int>) {
    && |head| == HASH_SIZE && |prev| >= |s|
    && (forall h :: 0 <= h < HASH_SIZE ==> head[h] == LastWith(s, i, h))
    && (forall j :: 0 <= j < i && j + THRESHOLD <= |s| ==> prev[j] == LastWith(s, j, HashAt(s, j)))
  }

  /** The first entries of a chain that are within the window, at most limit of them. */
  function InWindow(c: seq<nat>, i: nat, limit: nat): (r: seq<nat>)
    requires forall k :: 0 <= k < |c| ==> c[k] < i
    ensures r <= c && |r| <= limit
    ensures forall k :: 0 <= k < |r| ==> i - r[k] <= WINDOW
  {
    if c == [] || i - c[0] > WINDOW || limit == 0 then [] else [c[0]] + InWindow(c[1..], i, limit - 1)
  }

  function Candidates(s: seq<Byte>, i: nat): seq<nat>
    requires i + THRESHOLD <= |s|
  {
    InWindow(ChainOf(s, i, HashAt(s, i)), i, CHAIN)
  }

  function MaxLen(s: seq<Byte>, i: nat): nat
    requires i <= |s|
  {
    if |s| - i < MAXMATCH then |s| - i else MAXMATCH
  }

  /** The length of the common part of s at j and at i, counted on from l. */
  function Common(s: seq<Byte>, i: nat, j: nat, l: nat): (r: nat)
    requires j < i <= |s| && l <= MaxLen(s, i)
    ensures l <= r <= MaxLen(s, i)
    decreases MaxLen(s, i) - l
  {
    if l < MaxLen(s, i) && s[j + l] == s[i + l] then Common(s, i, j, l + 1) else l
  }

  lemma {:induction false} CommonMatches(s: seq<Byte>, i: nat, j: nat, l: nat)
    requires j < i <= |s| && l <= MaxLen(s, i) && s[j..j + l] == s[i..i + l]
    ensures TrueMatch(s, i, i - j, Common(s, i, j, l))
    decreases MaxLen(s, i) - l
  {
    if l < MaxLen(s, i) && s[j + l] == s[i + l] {
      assert s[j..j + l + 1] == s[j..j + l] + [s[j + l]];
      assert s[i..i + l + 1] == s[i..i + l] + [s[i + l]];
      CommonMatches(s, i, j, l + 1);
    }
  }

  predicate AllBefore(cs: seq<nat>, i: nat) {
    forall k :: 0 <= k < |cs| ==> cs[k] < i
  }

  /** best is the greatest match length among the candidates cs, and pos is the distance less 1 of
      the first candidate that reaches it. */
  ghost predicate BestOf(s: seq<Byte>, i: nat, cs: seq<nat>, best: nat, pos: nat)
    requires i <= |s| && AllBefore(cs, i)
  {
    && (forall k :: 0 <= k < |cs| ==> Common(s, i, cs[k], 0) <= best)
    && (best == 0 ==> pos == 0)
    && (best > 0 ==> exists k :: 0 <= k < |cs| && FirstBest(s, i, cs, best, pos, k))
  }

  ghost predicate FirstBest(s: seq<Byte>, i: nat, cs: seq<nat>, best: nat, pos: nat, k: nat)
    requires i <= |s| && AllBefore(cs, i)
  {
    && k < |cs| && Common(s, i, cs[k], 0) == best && pos == i - cs[k] - 1
    && forall m :: 0 <= m < k ==> Common(s, i, cs[m], 0) < best
  }

  lemma BestNext(s: seq<Byte>, i: nat, cs: seq<nat>, j: nat, best: nat, pos: nat)
    requires i <= |s| && j < i && AllBefore(cs, i)
    requires BestOf(s, i, cs, best, pos)
    ensures Common(s, i, j, 0) > best ==> BestOf(s, i, cs + [j], Common(s, i, j, 0), i - j - 1)
    ensures Common(s, i, j, 0) <= best ==> BestOf(s, i, cs + [j], best, pos)
  {
    var l := Common(s, i, j, 0);
    if l > best {
      assert FirstBest(s, i, cs + [j], l, i - j - 1, |cs|);
    } else if best > 0 {
      var k :| 0 <= k < |cs| && FirstBest(s, i, cs, best, pos, k);
      assert FirstBest(s, i, cs + [j], best, pos, k);
    }
  }

  /** When a match cannot be longer, the rest of the candidates do not matter. */
  lemma BestMax(s: seq<Byte>, i: nat, cs: seq<nat>, more: seq<nat>, best: nat, pos: nat)
    requires i <= |s| && AllBefore(cs, i) && AllBefore(more, i)
    requires BestOf(s, i, cs, best, pos) && best == MaxLen(s, i) > 0
    ensures BestOf(s, i, cs + more, best, pos)
  {
    var k :| 0 <= k < |cs| && FirstBest(s, i, cs, best, pos, k);
    assert FirstBest(s, i, cs + more, best, pos, k);
  }

  /** best and pos describe the longest match at i, the nearest one on ties. */
  ghost predicate BestAt(s: seq<Byte>, i: nat, best: nat, pos: nat) {
    i + THRESHOLD <= |s| && BestOf(s, i, Candidates(s, i), best, pos)
  }

  /** No candidate reaches the minimum match length. */
  ghost predicate NoMatch(s: seq<Byte>, i: nat) {
    i + THRESHOLD <= |s| ==>
      forall k :: 0 <= k < |Candidates(s, i)| ==> Common(s, i, Candidates(s, i)[k], 0) < THRESHOLD
  }

  lemma BestTooShort(s: seq<Byte>, i: nat, best: nat, pos: nat)
    requires BestAt(s, i, best, pos) && best < THRESHOLD
    ensures NoMatch(s, i)
  {
  }

  /** A chosen match is a true match within the window. */
  lemma BestIsTrue(s: seq<Byte>, i: nat, best: nat, pos: nat)
    requires BestAt(s, i, best, pos) && best > 0
    ensures TrueMatch(s, i, pos + 1, best) && best <= MAXMATCH && pos < WINDOW
  {
    var cs := Candidates(s, i);
    var k :| 0 <= k < |cs| && FirstBest(s, i, cs, best, pos, k);
    CommonMatches(s, i, cs[k], 0);
  }

  method MatchAt(s: seq<Byte>, i: nat, j: nat) returns (l: nat)
    requires j < i <= |s|
    ensures l == Common(s, i, j, 0)
  {
    var max := MaxLen(s, i);
    l := 0;
    while l < max && s[j + l] == s[i + l]
      invariant l <= max && Common(s, i, j, l) == Common(s, i, j, 0)
    {
      l := l + 1;
    }
  }

  /** The part of the chain from entry j on. */
  function Rest(s: seq<Byte>, j: int, h: nat): (c: seq<nat>)
    requires j >= -1
    ensures forall k :: 0 <= k < |c| ==> c[k] <= j
  {
    if j < 0 then [] else [j as nat] + ChainOf(s, j, h)
  }

  lemma LinkOf(s: seq<Byte>, i: nat, head: seq<int>, prev: seq<int>, j: nat, h: nat)
    requires Chained(s, i, head, prev) && j < i && HasHash(s, j, h)
    ensures -1 <= prev[j] < j && (prev[j] >= 0 ==> HasHash(s, prev[j], h))
    ensures Rest(s, j, h) == [j] + Rest(s, prev[j], h)
  {
    ChainLink(s, j, h);
  }

  lemma HeadOf(s: seq<Byte>, i: nat, head: seq<int>, prev: seq<int>)
    requires i + THRESHOLD <= |s| && Chained(s, i, head, prev)
    ensures var h := HashAt(s, i);
      && -1 <= head[h] < i && (head[h] >= 0 ==> HasHash(s, head[h], h))
      && Candidates(s, i) == InWindow(Rest(s, head[h], h), i, CHAIN)
  {
    ChainLink(s, i, HashAt(s, i));
  }

  /** The longest match at i, the nearest one on ties. */
  method FindMatch(s: seq<Byte>, i: nat, head: array<int>, prev: array<int>) returns (best: nat, pos: nat)
    requires i + THRESHOLD <= |s| && Chained(s, i, head[..], prev[..])
    ensures BestAt(s, i, best, pos)
  {
    hide BestOf, Chained, HasHash, Candidates, HashAt, Rest, Common, InWindow;
    var h := HashAt(s, i);
    ghost var hs, ps := head[..], prev[..];
    HeadOf(s, i, hs, ps);
    NoneYet(s, i);
    Sizes(s, i, hs, ps);
    best, pos := 0, 0;
    var chain := CHAIN;
    var j := head[h];
    ghost var seen: seq<nat> := [];
    while j >= 0 && i - j <= WINDOW && chain > 0
      invariant -1 <= j < i && (j >= 0 ==> HasHash(s, j, h))
      invariant AllBefore(seen, i)
      invariant Candidates(s, i) == seen + InWindow(Rest(s, j, h), i, chain)
      invariant BestOf(s, i, seen, best, pos)
      decreases j
    {
      ghost var p: nat := j;
      chain := chain - 1;
      var l := MatchAt(s, i, j);
      BestNext(s, i, seen, p, best, pos);
      LinkOf(s, i, hs, ps, p, h);
      ghost var more := InWindow(Rest(s, prev[j], h), i, chain);
      FirstIn(p, Rest(s, prev[j], h), i, chain);
      Assoc(seen, [p], more);
      seen := seen + [p];
      if l > best {
        best := l;
        pos := i - j - 1;
        if l == MaxLen(s, i) {
          BestMax(s, i, seen, more, best, pos);
          return;
        }
      }
      j := prev[j];
    }
    NoMore(s, i, j, h, chain);
    assert seen + [] == seen;
  }

  lemma Sizes(s: seq<Byte>, i: nat, head: seq<int>, prev: seq<int>)
    requires Chained(s, i, head, prev)
    ensures |head| == HASH_SIZE && |prev| >= |s|
  {
  }

  lemma FirstIn(j: nat, c: seq<nat>, i: nat, chain: nat)
    requires j < i && i - j <= WINDOW && forall k :: 0 <= k < |c| ==> c[k] < i
    ensures InWindow([j] + c, i, chain + 1) == [j] + InWindow(c, i, chain)
  {
    assert ([j] + c)[1..] == c;
  }

  lemma NoMore(s: seq<Byte>, i: nat, j: int, h: nat, chain: nat)
    requires -1 <= j < i && (j < 0 || i - j > WINDOW || chain == 0)
    ensures InWindow(Rest(s, j, h), i, chain) == []
  {
  }

  lemma NoneYet(s: seq<Byte>, i: nat)
    requires i <= |s|
    ensures BestOf(s, i, [], 0, 0)
  {
  }

  /** Adds position i to its chain. */
  method Insert(s: seq<Byte>, i: nat, head: array<int>, prev: array<int>)
    requires i < |s| && head != prev && Chained(s, i, head[..], prev[..])
    modifies head, prev
    ensures Chained(s, i + 1, head[..], prev[..])
  {
    hide Chained, HashAt;
    ghost var hs, ps := head[..], prev[..];
    InsertStep(s, i, hs, ps);
    Sizes(s, i, hs, ps);
    if i + THRESHOLD <= |s| {
      var h := HashAt(s, i);
      prev[i] := head[h];
      head[h] := i;
      assert prev[..] == ps[i := hs[h]];
      assert head[..] == hs[h := i];
    }
  }

  lemma InsertStep(s: seq<Byte>, i: nat, head: seq<int>, prev: seq<int>)
    requires i < |s| && Chained(s, i, head, prev)
    ensures i + THRESHOLD <= |s| ==> Chained(s, i + 1, head[HashAt(s, i) := i], prev[i := head[HashAt(s, i)]])
    ensures i + THRESHOLD > |s| ==> Chained(s, i + 1, head, prev)
  {
    hide HashAt;
  }
}
