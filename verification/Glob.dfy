/** Wildcard matching: the loop that only ever goes back to the last star finds a match exactly when
    there is one. */
module Glob {
  import opened Ascii

  /** Whether a pattern character other than a star stands for c. */
  predicate StandsFor(p: char, c: char, icase: bool) {
    p == '?' || (if icase then Lower(p) == Lower(c) else p == c)
  }

  /** A star stands for any characters, a question mark for one, anything else for itself. */
  predicate Matches(pat: string, s: string, icase: bool)
    decreases |pat|, |s|
  {
    if pat == [] then s == []
    else if pat[0] == '*' then Matches(pat[1..], s, icase) || (s != [] && Matches(pat, s[1..], icase))
    else s != [] && StandsFor(pat[0], s[0], icase) && Matches(pat[1..], s[1..], icase)
  }

  /** pat matches what is left of s from some position from k on. */
  ghost predicate MatchesFrom(pat: string, s: string, k: nat, icase: bool)
  {
    exists j :: k <= j <= |s| && Matches(pat, s[j..], icase)
  }

  lemma {:induction false} StarMatches(pat: string, s: string, k: nat, icase: bool)
    requires pat != [] && pat[0] == '*' && k <= |s|
    ensures Matches(pat, s[k..], icase) <==> MatchesFrom(pat[1..], s, k, icase)
    decreases |s| - k
  {
    if k == |s| {
      if MatchesFrom(pat[1..], s, k, icase) {
        var j :| k <= j <= |s| && Matches(pat[1..], s[j..], icase);
        assert j == k;
      }
    } else {
      assert s[k..][1..] == s[k + 1..];
      StarMatches(pat, s, k + 1, icase);
      if MatchesFrom(pat[1..], s, k, icase) {
        var j :| k <= j <= |s| && Matches(pat[1..], s[j..], icase);
        assert j > k ==> MatchesFrom(pat[1..], s, k + 1, icase);
      }
    }
  }

  /** Without a star, the first n characters of the pattern take n characters of s. */
  lemma {:induction false} TakesAsMany(pat: string, n: nat, s: string, icase: bool)
    requires n <= |pat| && '*' !in pat[..n]
    ensures Matches(pat, s, icase) <==>
      n <= |s| && (forall i :: 0 <= i < n ==> StandsFor(pat[i], s[i], icase)) && Matches(pat[n..], s[n..], icase)
  {
    if n > 0 {
      assert pat[0] in pat[..n];
      var p := pat[1..];
      assert p[..n - 1] == pat[..n][1..] && p[n - 1..] == pat[n..];
      if s != [] {
        var t := s[1..];
        TakesAsMany(p, n - 1, t, icase);
        if n <= |s| {
          assert t[n - 1..] == s[n..];
          assert forall i :: 0 <= i < n - 1 ==> p[i] == pat[i + 1] && t[i] == s[i + 1];
          assert (forall i :: 0 <= i < n ==> StandsFor(pat[i], s[i], icase))
            <==> StandsFor(pat[0], s[0], icase) && (forall i :: 0 <= i < n - 1 ==> StandsFor(p[i], t[i], icase)) by {
            if StandsFor(pat[0], s[0], icase) && (forall i :: 0 <= i < n - 1 ==> StandsFor(p[i], t[i], icase)) {
              forall i | 0 <= i < n ensures StandsFor(pat[i], s[i], icase) {
                if i > 0 { assert StandsFor(p[i - 1], t[i - 1], icase); }
              }
            }
            if forall i :: 0 <= i < n ==> StandsFor(pat[i], s[i], icase) {
              forall i | 0 <= i < n - 1 ensures StandsFor(p[i], t[i], icase) {
                assert StandsFor(pat[i + 1], s[i + 1], icase);
              }
            }
          }
        }
      }
    } else {
      assert pat[0..] == pat && s[0..] == s;
    }
  }

  /** A second star makes the choices for the first one final. */
  lemma LastStarOnly(pat: string, n: nat, s: string, ss: nat, icase: bool)
    requires n < |pat| && '*' !in pat[..n] && pat[n] == '*' && ss + n <= |s|
    requires forall i :: 0 <= i < n ==> StandsFor(pat[i], s[ss + i], icase)
    ensures MatchesFrom(pat, s, ss, icase) <==> MatchesFrom(pat[n + 1..], s, ss + n, icase)
  {
    hide Matches, StandsFor;
    assert pat[n..][1..] == pat[n + 1..];
    if MatchesFrom(pat, s, ss, icase) {
      var j :| ss <= j <= |s| && Matches(pat, s[j..], icase);
      TakesAsMany(pat, n, s[j..], icase);
      assert s[j..][n..] == s[j + n..];
      StarMatches(pat[n..], s, j + n, icase);
    }
    if MatchesFrom(pat[n + 1..], s, ss + n, icase) {
      StarMatches(pat[n..], s, ss + n, icase);
      assert s[ss..][n..] == s[ss + n..];
      TakesAsMany(pat, n, s[ss..], icase);
    }
  }

  /** When the first attempt fails, only later positions are left. */
  lemma NextPosition(pat: string, s: string, ss: nat, icase: bool)
    requires ss < |s| && !Matches(pat, s[ss..], icase)
    ensures MatchesFrom(pat, s, ss, icase) <==> MatchesFrom(pat, s, ss + 1, icase)
  {
  }

  lemma {:induction false} OnlyStars(pat: string, icase: bool)
    ensures Matches(pat, "", icase) <==> forall i :: 0 <= i < |pat| ==> pat[i] == '*'
  {
    if pat != [] {
      OnlyStars(pat[1..], icase);
      assert forall i :: 0 <= i < |pat| - 1 ==> pat[1..][i] == pat[i + 1];
      if pat[0] == '*' && forall i :: 0 <= i < |pat| - 1 ==> pat[1..][i] == '*' {
        forall i | 0 <= i < |pat| ensures pat[i] == '*' {
          if i > 0 { assert pat[1..][i - 1] == '*'; }
        }
      }
    }
  }

  /** All characters are used up: a later position would leave too few. */
  lemma NothingLeft(pat: string, n: nat, s: string, ss: nat, icase: bool)
    requires n <= |pat| && '*' !in pat[..n] && ss + n == |s|
    requires forall i :: 0 <= i < n ==> StandsFor(pat[i], s[ss + i], icase)
    ensures MatchesFrom(pat, s, ss, icase) <==> Matches(pat[n..], "", icase)
  {
    TakesAsMany(pat, n, s[ss..], icase);
    assert s[ss..][n..] == "";
    if MatchesFrom(pat, s, ss, icase) {
      var j :| ss <= j <= |s| && Matches(pat, s[j..], icase);
      TakesAsMany(pat, n, s[j..], icase);
      assert j == ss;
    }
  }

  method GlobMatch(pat: string, s: string, icase: bool) returns (r: bool)
    ensures r == Matches(pat, s, icase)
  {
    hide Matches, MatchesFrom, StandsFor;
    var p, i := 0, 0; // the positions in pat and in s
    var star, ss := -1, 0; // the position after the last star, and where its attempt in s starts
    ghost var from := 0; // the position after the last star, or the start
    assert pat[0..] == pat && s[0..] == s && pat[0..0] == "";
    while i < |s|
      invariant from <= p <= |pat| && ss <= i <= |s| && i - ss == p - from
      invariant '*' !in pat[from..p]
      invariant forall k :: 0 <= k < p - from ==> StandsFor(pat[from..][k], s[ss + k], icase)
      invariant star == -1 ==> from == 0 && ss == 0
      invariant star >= 0 ==> star == from && (MatchesFrom(pat[from..], s, ss, icase) <==> Matches(pat, s, icase))
      decreases |pat| - star, |s| - ss, |s| - i
    {
      if p < |pat| && pat[p] == '*' {
        NewStar(pat, from, p, s, ss, icase, star == -1);
        p := p + 1;
        star, ss, from := p, i, p;
        assert pat[p..p] == "";
      } else if p < |pat| && StandsFor(pat[p], s[i], icase) {
        assert pat[from..p + 1] == pat[from..p] + [pat[p]];
        assert pat[from..][p - from] == pat[p];
        p, i := p + 1, i + 1;
      } else {
        Mismatch(pat, from, p, s, ss, icase);
        if star < 0 {
          assert pat[0..] == pat && s[0..] == s;
          return false;
        }
        p := star;
        ss := ss + 1;
        i := ss;
        assert pat[p..p] == "";
      }
    }
    AtEnd(pat, from, p, s, ss, icase, star == -1);
    ghost var at := p;
    while p < |pat| && pat[p] == '*'
      invariant at <= p <= |pat| && forall k :: at <= k < p ==> pat[k] == '*'
    {
      p := p + 1;
    }
    OnlyStars(pat[at..], icase);
    r := p == |pat|;
    assert p < |pat| ==> pat[at..][p - at] != '*';
  }

  lemma NewStar(pat: string, from: nat, p: nat, s: string, ss: nat, icase: bool, first: bool)
    requires from <= p < |pat| && '*' !in pat[from..p] && pat[p] == '*' && ss + (p - from) <= |s|
    requires forall k :: 0 <= k < p - from ==> StandsFor(pat[from..][k], s[ss + k], icase)
    requires if first then from == 0 && ss == 0 else (MatchesFrom(pat[from..], s, ss, icase) <==> Matches(pat, s, icase))
    ensures MatchesFrom(pat[p + 1..], s, ss + (p - from), icase) <==> Matches(pat, s, icase)
  {
    hide Matches, MatchesFrom, StandsFor;
    var q, n := pat[from..], p - from;
    assert q[..n] == pat[from..p] && q[n + 1..] == pat[p + 1..] && q[n] == '*';
    if first {
      assert q == pat;
      TakesAsMany(pat, n, s, icase);
      assert pat[n..][1..] == pat[p + 1..];
      StarMatches(pat[n..], s, n, icase);
    } else {
      LastStarOnly(q, n, s, ss, icase);
    }
  }

  lemma Mismatch(pat: string, from: nat, p: nat, s: string, ss: nat, icase: bool)
    requires from <= p <= |pat| && '*' !in pat[from..p] && ss + (p - from) < |s|
    requires p == |pat| || (pat[p] != '*' && !StandsFor(pat[p], s[ss + (p - from)], icase))
    ensures !Matches(pat[from..], s[ss..], icase)
    ensures MatchesFrom(pat[from..], s, ss, icase) <==> MatchesFrom(pat[from..], s, ss + 1, icase)
  {
    hide MatchesFrom;
    var q, n := pat[from..], p - from;
    assert q[..n] == pat[from..p];
    TakesAsMany(q, n, s[ss..], icase);
    assert s[ss..][n..] == s[ss + n..] && q[n..] == pat[p..];
    NextPosition(q, s, ss, icase);
  }

  lemma AtEnd(pat: string, from: nat, p: nat, s: string, ss: nat, icase: bool, first: bool)
    requires from <= p <= |pat| && '*' !in pat[from..p] && ss + (p - from) == |s|
    requires forall k :: 0 <= k < p - from ==> StandsFor(pat[from..][k], s[ss + k], icase)
    requires if first then from == 0 && ss == 0 else (MatchesFrom(pat[from..], s, ss, icase) <==> Matches(pat, s, icase))
    ensures Matches(pat, s, icase) <==> Matches(pat[p..], "", icase)
  {
    hide Matches, MatchesFrom, StandsFor;
    var q, n := pat[from..], p - from;
    assert q[..n] == pat[from..p] && q[n..] == pat[p..];
    if first {
      assert q == pat;
      TakesAsMany(pat, n, s, icase);
      assert s[n..] == "";
    } else {
      NothingLeft(q, n, s, ss, icase);
    }
  }
}
