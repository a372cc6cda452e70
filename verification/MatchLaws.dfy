/** What the match search does not miss: among the 256 positions before i, whatever their hashes, none
    matches longer, and none as long is nearer. */
module MatchLaws {
  import opened Bits
  import opened Lz
  import opened Matcher

  /** l bytes at j are those at i. */
  predicate Same(s: seq<Byte>, i: nat, j: nat, l: nat) {
    j < i && i + l <= |s| && s[j..j + l] == s[i..i + l]
  }

  lemma SameAt(s: seq<Byte>, i: nat, j: nat, l: nat, k: nat)
    requires Same(s, i, j, l) && k < l
    ensures s[j + k] == s[i + k]
  {
    assert s[j..j + l][k] == s[i..i + l][k];
  }

  lemma SameLess(s: seq<Byte>, i: nat, j: nat, l: nat, k: nat)
    requires Same(s, i, j, l) && k <= l
    ensures Same(s, i, j, k)
  {
    assert s[j..j + k] == s[j..j + l][..k] && s[i..i + k] == s[i..i + l][..k];
  }

  lemma {:induction false} CommonAtLeast(s: seq<Byte>, i: nat, j: nat, l: nat, m: nat)
    requires Same(s, i, j, l) && m <= l <= 256
    ensures Common(s, i, j, m) >= l
    decreases l - m
  {
    if m < l {
      SameAt(s, i, j, l, m);
      CommonAtLeast(s, i, j, l, m + 1);
    }
  }

  lemma {:induction false} Inside(c: seq<nat>, i: nat, limit: nat, k: nat)
    requires (forall m :: 0 <= m < |c| ==> c[m] < i) && k < |c| && k < limit && forall m :: 0 <= m <= k ==> i - c[m] <= 8192
    ensures k < |InWindow(c, i, limit)| && InWindow(c, i, limit)[k] == c[k]
    decreases k
  {
    if k > 0 {
      Inside(c[1..], i, limit - 1, k - 1);
    }
  }

  /** A decreasing list below i. */
  lemma {:induction false} Descends(c: seq<nat>, i: nat, k: nat)
    requires k < |c| && (forall m :: 0 <= m < |c| ==> c[m] < i) && forall m, n :: 0 <= m < n < |c| ==> c[m] > c[n]
    ensures c[k] + k < i
    decreases k
  {
    if k > 0 {
      Descends(c, i, k - 1);
    }
  }

  lemma SameHash(s: seq<Byte>, i: nat, j: nat)
    requires Same(s, i, j, 3)
    ensures HasHash(s, j, HashAt(s, i))
  {
    SameAt(s, i, j, 3, 0);
    SameAt(s, i, j, 3, 1);
    SameAt(s, i, j, 3, 2);
    hide Hash;
  }

  /** A near position with the same three bytes is among the candidates, and the nearer ones are before it. */
  lemma IsCandidate(s: seq<Byte>, i: nat, j: nat) returns (k: nat)
    requires i - j <= 256 && Same(s, i, j, 3)
    ensures k < |Candidates(s, i)| && Candidates(s, i)[k] == j
    ensures forall m :: 0 <= m < k ==> Candidates(s, i)[m] > j
  {
    var h := HashAt(s, i);
    SameHash(s, i, j);
    hide HashAt, HasHash, ChainOf, InWindow;
    var c := ChainOf(s, i, h);
    ChainExact(s, i, h);
    k :| 0 <= k < |c| && c[k] == j;
    Descends(c, i, k);
    forall m | 0 <= m <= k ensures i - c[m] <= 8192 {
      assert c[m] >= c[k];
    }
    Inside(c, i, 256, k);
    assert InWindow(c, i, 256) <= c;
  }

  /** A match that was chosen is as long as any in the 256 positions before it, and the nearest of that length. */
  lemma NearestLongest(s: seq<Byte>, i: nat, best: nat, pos: nat, j: nat, l: nat)
    requires BestAt(s, i, best, pos) && i - j <= 256 && 3 <= l <= 256 && Same(s, i, j, l)
    ensures l <= best && (l == best ==> pos + 1 <= i - j)
  {
    SameLess(s, i, j, l, 3);
    var k := IsCandidate(s, i, j);
    CommonAtLeast(s, i, j, l, 0);
    hide Common, Candidates;
    if l == best {
      var cs := Candidates(s, i);
      var n :| 0 <= n < |cs| && FirstBest(s, i, cs, best, pos, n);
      assert n <= k;
    }
  }

  /** Where a literal was chosen, none of the 256 positions before has the same three bytes. */
  lemma NothingMissed(s: seq<Byte>, i: nat, j: nat)
    requires NoMatch(s, i) && j < i && i - j <= 256
    ensures !Same(s, i, j, 3)
  {
    if Same(s, i, j, 3) {
      var k := IsCandidate(s, i, j);
      CommonAtLeast(s, i, j, 3, 0);
    }
  }
}
