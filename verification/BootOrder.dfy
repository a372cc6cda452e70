/** Lists of entry numbers, as BootOrder and DriverOrder hold them, and the changes made to them in place. */
module BootOrder {

  ghost predicate Distinct(s: seq<nat>) {
    forall x :: multiset(s)[x] <= 1
  }

  function InsertAt(s: seq<nat>, p: nat, x: nat): seq<nat>
    requires p <= |s|
  {
    s[..p] + [x] + s[p..]
  }

  function RemoveAt(s: seq<nat>, p: nat): seq<nat>
    requires p < |s|
  {
    s[..p] + s[p + 1..]
  }

  /** Takes the element at p out and puts it back at q. */
  function MoveTo(s: seq<nat>, p: nat, q: nat): seq<nat>
    requires p < |s| && q < |s|
  {
    InsertAt(RemoveAt(s, p), q, s[p])
  }

  function Without(s: seq<nat>, x: nat): seq<nat> {
    if s == [] then [] else if s[0] == x then Without(s[1..], x) else [s[0]] + Without(s[1..], x)
  }

  /** The first position of x, or the length. */
  function IndexOf(s: seq<nat>, x: nat): (i: nat)
    ensures i <= |s| && (i < |s| ==> s[i] == x) && x !in s[..i]
  {
    if s == [] || s[0] == x then 0 else
      var i := IndexOf(s[1..], x);
      assert s[..i + 1] == [s[0]] + s[1..][..i];
      i + 1
  }

  // ---- what the changes keep ----

  lemma InsertKeeps(s: seq<nat>, p: nat, x: nat)
    requires p <= |s|
    ensures multiset(InsertAt(s, p, x)) == multiset(s) + multiset{x}
    ensures forall y :: y in InsertAt(s, p, x) <==> y in s || y == x
    ensures Distinct(InsertAt(s, p, x)) <==> Distinct(s) && x !in s
    ensures RemoveAt(InsertAt(s, p, x), p) == s
  {
    var r := InsertAt(s, p, x);
    assert s == s[..p] + s[p..];
    assert RemoveAt(r, p) == s;
    var m, n := multiset(s), multiset(r);
    assert n == m + multiset{x};
    forall y ensures y in r <==> y in s || y == x {
      assert y in r <==> y in n;
      assert y in s <==> y in m;
    }
    assert n[x] == m[x] + 1 && (x in s <==> x in m);
    assert forall y :: y != x ==> n[y] == m[y];
  }

  lemma RemoveKeeps(s: seq<nat>, p: nat)
    requires p < |s|
    ensures forall y :: y in RemoveAt(s, p) ==> y in s
    ensures Distinct(s) ==> Distinct(RemoveAt(s, p)) && s[p] !in RemoveAt(s, p)
    ensures InsertAt(RemoveAt(s, p), p, s[p]) == s
  {
    var r := RemoveAt(s, p);
    assert InsertAt(r, p, s[p]) == s;
    InsertKeeps(r, p, s[p]);
  }

  /** A move is a permutation that changes the place of one element only, and moving back undoes it. */
  lemma MoveIsPermutation(s: seq<nat>, p: nat, q: nat)
    requires p < |s| && q < |s|
    ensures var r := MoveTo(s, p, q);
      && |r| == |s| && r[q] == s[p]
      && multiset(r) == multiset(s)
      && RemoveAt(r, q) == RemoveAt(s, p)
      && MoveTo(r, q, p) == s
      && (Distinct(s) ==> Distinct(r)) && (forall y :: y in r <==> y in s)
  {
    var d := RemoveAt(s, p);
    var r := MoveTo(s, p, q);
    InsertKeeps(d, q, s[p]);
    RemoveKeeps(s, p);
    InsertKeeps(d, p, s[p]);
    forall y ensures y in r <==> y in s { }
  }

  /** Without removes every x and nothing else. */
  lemma {:induction false} WithoutKeeps(s: seq<nat>, x: nat)
    ensures multiset(Without(s, x)) == multiset(s)[x := 0]
    ensures forall y :: y in Without(s, x) <==> y in s && y != x
    ensures Distinct(s) ==> Distinct(Without(s, x))
    ensures x !in s ==> Without(s, x) == s
  {
    var r := Without(s, x);
    if s != [] {
      var t := s[1..];
      WithoutKeeps(t, x);
      assert s == [s[0]] + t;
      assert multiset(s) == multiset{s[0]} + multiset(t);
    }
    forall y ensures y in r <==> y in s && y != x {
      assert y in r <==> y in multiset(r);
      assert y in s <==> y in multiset(s);
    }
  }

  // ---- in place ----

  /** Copies n elements within the array; the regions may overlap. */
  method MemMove(a: array<nat>, dst: nat, src: nat, n: nat)
    requires dst + n <= a.Length && src + n <= a.Length
    modifies a
    ensures a[dst..dst + n] == old(a[src..src + n])
    ensures forall k :: 0 <= k < a.Length && !(dst <= k < dst + n) ==> a[k] == old(a[k])
  {
    if dst <= src {
      for i := 0 to n
        invariant a[dst..dst + i] == old(a[src..src + i])
        invariant forall k :: 0 <= k < a.Length && !(dst <= k < dst + i) ==> a[k] == old(a[k])
      {
        ghost var done := a[dst..dst + i];
        a[dst + i] := a[src + i];
        assert a[dst..dst + i + 1] == done + [a[dst + i]];
        assert old(a[src..src + i + 1]) == old(a[src..src + i]) + [old(a[src + i])];
      }
    } else {
      for i := n downto 0
        invariant a[dst + i..dst + n] == old(a[src + i..src + n])
        invariant forall k :: 0 <= k < a.Length && !(dst + i <= k < dst + n) ==> a[k] == old(a[k])
      {
        ghost var done := a[dst + i + 1..dst + n];
        a[dst + i] := a[src + i];
        assert a[dst + i..dst + n] == [a[dst + i]] + done;
        assert old(a[src + i..src + n]) == [old(a[src + i])] + old(a[src + i + 1..src + n]);
      }
    }
  }

  /** Inserts x at p into the n elements of an array that has room for one more. */
  method Insert(a: array<nat>, n: nat, p: nat, x: nat)
    requires p <= n < a.Length
    modifies a
    ensures a[..n + 1] == InsertAt(old(a[..n]), p, x)
  {
    MemMove(a, p + 1, p, n - p);
    a[p] := x;
    assert a[..n + 1] == a[..p] + [x] + a[p + 1..n + 1];
    assert old(a[..n])[p..] == old(a[p..n]);
    assert old(a[..n])[..p] == a[..p];
  }

  method Delete(a: array<nat>, n: nat, p: nat)
    requires p < n <= a.Length
    modifies a
    ensures a[..n - 1] == RemoveAt(old(a[..n]), p)
  {
    MemMove(a, p, p + 1, n - p - 1);
    assert a[..n - 1] == a[..p] + a[p..n - 1];
    assert old(a[..n])[p + 1..] == old(a[p + 1..n]);
    assert old(a[..n])[..p] == a[..p];
  }

  method Move(a: array<nat>, n: nat, p: nat, q: nat)
    requires p < n <= a.Length && q < n
    modifies a
    ensures a[..n] == MoveTo(old(a[..n]), p, q)
  {
    var x := a[p];
    Delete(a, n, p);
    ghost var d := a[..n - 1];
    MemMove(a, q + 1, q, n - 1 - q);
    a[q] := x;
    assert a[..n] == a[..q] + [x] + a[q + 1..n];
    assert a[..q] == d[..q] && a[q + 1..n] == d[q..];
  }

  method Find(a: array<nat>, n: nat, x: nat) returns (i: nat)
    requires n <= a.Length
    ensures i == IndexOf(a[..n], x)
  {
    i := 0;
    while i < n && a[i] != x
      invariant i <= n && IndexOf(a[i..n], x) + i == IndexOf(a[..n], x)
    {
      assert a[i..n][1..] == a[i + 1..n];
      i := i + 1;
    }
  }
}
