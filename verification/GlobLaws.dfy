/** What a pattern stands for, without saying how a match is found. */
module GlobLaws {
  import opened Glob

  /** The letter c in lower case. */
  function Small(c: char): char {
    if 'A' <= c <= 'Z' then c + 32 as char else c
  }

  /** Character i of the pattern stands for the characters of s between the cuts i and i + 1: a star for
      any number of them, a question mark for one, anything else for one that is the same. */
  ghost predicate Divides(pat: string, s: string, icase: bool, cuts: seq<nat>) {
    && |cuts| == |pat| + 1 && cuts[0] == 0 && cuts[|pat|] == |s|
    && forall i :: 0 <= i < |pat| ==> Covers(pat[i], s, icase, cuts[i], cuts[i + 1])
  }

  predicate Covers(p: char, s: string, icase: bool, a: nat, b: nat) {
    a <= b <= |s| && if p == '*' then true
    else b == a + 1 && (p == '?' || p == s[a] || (icase && Small(p) == Small(s[a])))
  }

  lemma {:induction false} MatchDivides(pat: string, s: string, icase: bool) returns (cuts: seq<nat>)
    requires Matches(pat, s, icase)
    ensures Divides(pat, s, icase, cuts)
    decreases |pat|, |s|
  {
    if pat == [] {
      cuts := [0];
    } else if pat[0] == '*' && Matches(pat[1..], s, icase) {
      var rest := MatchDivides(pat[1..], s, icase);
      cuts := [0] + rest;
      Prepended(pat, s, icase, rest, 0);
    } else {
      var rest := MatchDivides(if pat[0] == '*' then pat else pat[1..], s[1..], icase);
      if pat[0] == '*' {
        Widened(pat, s, icase, rest);
        cuts := [0] + Moved(rest)[1..];
      } else {
        Prepended(pat, s, icase, Moved(rest), 1);
        cuts := [0] + Moved(rest);
      }
    }
  }

  /** Positions in s[1..] as positions in s. */
  function Moved(cuts: seq<nat>): (r: seq<nat>)
    ensures |r| == |cuts| && forall i :: 0 <= i < |r| ==> r[i] == cuts[i] + 1
  {
    seq(|cuts|, i requires 0 <= i < |cuts| => cuts[i] + 1)
  }

  /** A first character that stands for the n characters before the first cut. */
  lemma Prepended(pat: string, s: string, icase: bool, rest: seq<nat>, n: nat)
    requires pat != [] && |rest| == |pat| && rest[0] == n && rest[|pat| - 1] == |s| && Covers(pat[0], s, icase, 0, n)
    requires n == 0 ==> Divides(pat[1..], s, icase, rest)
    requires n == 1 ==> s != [] && exists c :: Divides(pat[1..], s[1..], icase, c) && rest == Moved(c)
    requires n <= 1
    ensures Divides(pat, s, icase, [0] + rest)
  {
    var cuts := [0] + rest;
    forall i | 0 <= i < |pat| ensures Covers(pat[i], s, icase, cuts[i], cuts[i + 1]) {
      if i > 0 {
        assert pat[1..][i - 1] == pat[i];
        if n == 0 {
          assert Covers(pat[1..][i - 1], s, icase, rest[i - 1], rest[i]);
        } else {
          var c :| Divides(pat[1..], s[1..], icase, c) && rest == Moved(c);
          assert Covers(pat[1..][i - 1], s[1..], icase, c[i - 1], c[i]);
        }
      }
    }
  }

  /** A star stands for one more character. */
  lemma Widened(pat: string, s: string, icase: bool, rest: seq<nat>)
    requires pat != [] && pat[0] == '*' && s != [] && Divides(pat, s[1..], icase, rest)
    ensures Divides(pat, s, icase, [0] + Moved(rest)[1..])
  {
    var cuts := [0] + Moved(rest)[1..];
    forall i | 0 <= i < |pat| ensures Covers(pat[i], s, icase, cuts[i], cuts[i + 1]) {
      assert Covers(pat[i], s[1..], icase, rest[i], rest[i + 1]);
      assert i > 0 ==> cuts[i] == rest[i] + 1;
      assert cuts[i + 1] == rest[i + 1] + 1;
    }
  }

  lemma {:induction false} DividedMatches(pat: string, s: string, icase: bool, cuts: seq<nat>, k: nat)
    requires Divides(pat, s, icase, cuts) && k <= |pat|
    ensures cuts[k] <= |s| && Matches(pat[k..], s[cuts[k]..], icase)
    decreases |pat| - k
  {
    if k < |pat| {
      DividedMatches(pat, s, icase, cuts, k + 1);
      assert Covers(pat[k], s, icase, cuts[k], cuts[k + 1]);
      assert pat[k..][0] == pat[k] && pat[k..][1..] == pat[k + 1..];
      if pat[k] == '*' {
        StarTakes(pat[k..], s, icase, cuts[k], cuts[k + 1]);
      } else {
        assert s[cuts[k]..][1..] == s[cuts[k] + 1..];
      }
    }
  }

  lemma {:induction false} StarTakes(pat: string, s: string, icase: bool, a: nat, b: nat)
    requires pat != [] && pat[0] == '*' && a <= b <= |s| && Matches(pat[1..], s[b..], icase)
    ensures Matches(pat, s[a..], icase)
    decreases b - a
  {
    if a < b {
      StarTakes(pat, s, icase, a + 1, b);
      assert s[a..][1..] == s[a + 1..];
    }
  }

  /** A text matches exactly when it can be divided so that each character of the pattern stands for its part. */
  lemma MatchesExactly(pat: string, s: string, icase: bool)
    ensures Matches(pat, s, icase) <==> exists cuts :: Divides(pat, s, icase, cuts)
  {
    if Matches(pat, s, icase) {
      var cuts := MatchDivides(pat, s, icase);
    }
    forall cuts | Divides(pat, s, icase, cuts) ensures Matches(pat, s, icase) {
      DividedMatches(pat, s, icase, cuts, 0);
      assert pat[0..] == pat && s[0..] == s;
    }
  }
}
