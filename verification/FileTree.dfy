/** File systems as values: which paths exist and what they hold. A path is its volume followed by
    the names below the root; names are compared without case, so they are kept case-folded. */
module FileTree {

  type Path = seq<string>

  datatype Node = Dir | File(data: string)

  type Tree = map<Path, Node>

  /** Roots are directories, and everything else lies in an existing directory. */
  ghost predicate Wf(f: Tree) {
    forall p :: p in f ==>
      && p != []
      && (|p| == 1 ==> f[p].Dir?)
      && (|p| > 1 ==> InDir(f, p))
  }

  predicate InDir(f: Tree, p: Path)
    requires p != []
  {
    p[..|p| - 1] in f && f[p[..|p| - 1]].Dir?
  }

  /** Both file systems agree on the path. */
  ghost predicate SameAt(f: Tree, p: Path, g: Tree, q: Path) {
    (p in f <==> q in g) && (p in f ==> f[p] == g[q])
  }

  /** What lies at and below p in f is what lies at and below q in g. */
  ghost predicate SameTree(f: Tree, p: Path, g: Tree, q: Path) {
    forall r: Path :: SameAt(f, p + r, g, q + r)
  }

  /** The file systems differ at or below p only. */
  ghost predicate SameOutside(f: Tree, g: Tree, p: Path) {
    forall x :: !(p <= x) ==> SameAt(f, x, g, x)
  }

  /** Nothing exists at or below p. */
  ghost predicate Fresh(f: Tree, p: Path) {
    forall x :: p <= x ==> x !in f
  }

  /** Neither path lies at or below the other. */
  predicate Apart(p: Path, q: Path) {
    !(p <= q) && !(q <= p)
  }

  /** Every path at or below p has at most n components. */
  ghost predicate Bounded(f: Tree, p: Path, n: nat) {
    forall x :: x in f && p <= x ==> |x| <= n
  }

  function Children(f: Tree, p: Path): (s: set<string>)
    ensures forall n :: n in s <==> p + [n] in f
  {
    var s := set x | x in f && |x| == |p| + 1 && p <= x :: x[|p|];
    assert forall x :: x in f && |x| == |p| + 1 && p <= x ==> x == p + [x[|p|]];
    assert forall n :: p + [n] in f ==> (p + [n])[|p|] == n;
    s
  }

  /** The file system after a rename: what was at and below a is now at and below b. */
  function Relocated(f: Tree, a: Path, b: Path): (g: Tree) {
    var keys := (set x | x in f && !(a <= x)) + (set x | x in f && a <= x :: b + x[|a|..]);
    assert forall z: Path :: a <= z ==> a + (b + z[|a|..])[|b|..] == z;
    map x | x in keys :: if b <= x && a + x[|b|..] in f then f[a + x[|b|..]] else f[x]
  }

  // ---- how the relations compose ----

  lemma OutsideTrans(f: Tree, g: Tree, h: Tree, p: Path)
    requires SameOutside(f, g, p) && SameOutside(g, h, p)
    ensures SameOutside(f, h, p)
  {
    forall x | !(p <= x) ensures SameAt(f, x, h, x) {
      assert SameAt(f, x, g, x) && SameAt(g, x, h, x);
    }
  }

  lemma OutsideWiden(f: Tree, g: Tree, p: Path, q: Path)
    requires SameOutside(f, g, q) && p <= q
    ensures SameOutside(f, g, p)
  {
  }

  lemma Comparable(p: Path, q: Path, x: Path)
    requires p <= x && q <= x
    ensures p <= q || q <= p
  {
    if |p| <= |q| {
      assert p == x[..|p|] == q[..|p|];
    } else {
      assert q == x[..|q|] == p[..|q|];
    }
  }

  lemma ApartBelow(p: Path, q: Path, x: Path)
    requires Apart(p, q) && p <= x
    ensures !(q <= x)
  {
    if q <= x { Comparable(p, q, x); }
  }

  /** A change below q leaves what lies below p alone when the two are apart. */
  lemma ApartKeeps(f: Tree, g: Tree, p: Path, q: Path)
    requires SameOutside(f, g, q) && Apart(p, q)
    ensures SameTree(f, p, g, p)
  {
    forall r: Path ensures SameAt(f, p + r, g, p + r) {
      ApartBelow(p, q, p + r);
    }
  }

  lemma SameTreeTrans(f: Tree, p: Path, g: Tree, q: Path, h: Tree, s: Path)
    requires SameTree(f, p, g, q) && SameTree(g, q, h, s)
    ensures SameTree(f, p, h, s)
  {
    forall r: Path ensures SameAt(f, p + r, h, s + r) {
      assert SameAt(f, p + r, g, q + r) && SameAt(g, q + r, h, s + r);
    }
  }

  lemma SameTreeSym(f: Tree, p: Path, g: Tree, q: Path)
    requires SameTree(f, p, g, q)
    ensures SameTree(g, q, f, p)
  {
    forall r: Path ensures SameAt(g, q + r, f, p + r) {
      assert SameAt(f, p + r, g, q + r);
    }
  }

  lemma SameTreeBelow(f: Tree, p: Path, g: Tree, q: Path, r: Path)
    requires SameTree(f, p, g, q)
    ensures SameTree(f, p + r, g, q + r)
    ensures SameAt(f, p, g, q)
  {
    assert p + [] == p && q + [] == q;
    assert SameAt(f, p + [], g, q + []);
    forall t: Path ensures SameAt(f, p + r + t, g, q + r + t) {
      assert p + r + t == p + (r + t) && q + r + t == q + (r + t);
      assert SameAt(f, p + (r + t), g, q + (r + t));
    }
  }

  lemma Agree(f: Tree, g: Tree)
    requires forall x :: SameAt(f, x, g, x)
    ensures f == g
  {
    forall x ensures x in f.Keys <==> x in g.Keys { assert SameAt(f, x, g, x); }
    assert f.Keys == g.Keys;
    forall x | x in f ensures f[x] == g[x] { assert SameAt(f, x, g, x); }
  }

  /** Equal trees outside p and below p are equal. */
  lemma SameEverywhere(f: Tree, g: Tree, p: Path)
    requires SameOutside(f, g, p) && SameTree(f, p, g, p)
    ensures f == g
  {
    forall x ensures SameAt(f, x, g, x) {
      if p <= x {
        assert x == p + x[|p|..];
        assert SameAt(f, p + x[|p|..], g, p + x[|p|..]);
      }
    }
    Agree(f, g);
  }

  /** Every ancestor of an existing path exists, and is a directory. */
  lemma {:induction false} Ancestors(f: Tree, p: Path, x: Path)
    requires Wf(f) && p <= x && p != [] && x in f
    ensures p in f && (p != x ==> f[p].Dir?)
    decreases |x|
  {
    if p != x {
      assert InDir(f, x);
      var up := x[..|x| - 1];
      assert p <= up;
      Ancestors(f, p, up);
    }
  }

  lemma AbsentIsFresh(f: Tree, p: Path)
    requires Wf(f) && p != [] && p !in f
    ensures Fresh(f, p)
  {
    forall x | p <= x ensures x !in f {
      if x in f { Ancestors(f, p, x); }
    }
  }

  lemma FileIsLeaf(f: Tree, p: Path, x: Path)
    requires Wf(f) && p != [] && p in f && f[p].File? && p <= x && p != x
    ensures x !in f
  {
    if x in f { Ancestors(f, p, x); }
  }

  /** Which paths exist after a rename to a fresh place, and what they hold. */
  lemma RelocatedAt(f: Tree, a: Path, b: Path, x: Path)
    requires Fresh(f, b) || a == b
    ensures b <= x ==> SameAt(f, a + x[|b|..], Relocated(f, a, b), x)
    ensures !(b <= x) && !(a <= x) ==> SameAt(f, x, Relocated(f, a, b), x)
    ensures !(b <= x) && a <= x ==> x !in Relocated(f, a, b)
  {
    var g := Relocated(f, a, b);
    if b <= x {
      var y := a + x[|b|..];
      assert y[|a|..] == x[|b|..] && b + y[|a|..] == x;
      forall z: Path | a <= z && x == b + z[|a|..] ensures z == y {
        assert z == a + z[|a|..] && x[|b|..] == z[|a|..];
      }
    } else {
      forall z | z in f && a <= z ensures x != b + z[|a|..] {
        assert b <= b + z[|a|..];
      }
    }
  }

  /** A renamed tree is all at the new place. */
  lemma RelocatedTree(f: Tree, a: Path, b: Path)
    requires Fresh(f, b) && Apart(a, b)
    ensures SameTree(f, a, Relocated(f, a, b), b)
    ensures Fresh(Relocated(f, a, b), a)
  {
    hide Relocated;
    var g := Relocated(f, a, b);
    forall r: Path ensures SameAt(f, a + r, g, b + r) {
      assert (b + r)[|b|..] == r;
      RelocatedAt(f, a, b, b + r);
    }
    forall x | a <= x ensures x !in g {
      ApartBelow(a, b, x);
      RelocatedAt(f, a, b, x);
    }
  }

  /** What characterises the result of a rename. */
  lemma RelocatedUnique(f: Tree, a: Path, b: Path, g: Tree)
    requires Fresh(f, b) && Apart(a, b)
    requires SameTree(f, a, g, b) && Fresh(g, a)
    requires forall x :: !(a <= x) && !(b <= x) ==> SameAt(f, x, g, x)
    ensures g == Relocated(f, a, b)
  {
    hide Relocated;
    var h := Relocated(f, a, b);
    forall x ensures SameAt(g, x, h, x) {
      RelocatedAt(f, a, b, x);
      if b <= x {
        var r := x[|b|..];
        assert x == b + r;
        assert SameAt(f, a + r, g, b + r);
      } else if !(a <= x) {
        assert SameAt(f, x, g, x);
      }
    }
    Agree(g, h);
  }

  /** The new place is in an existing directory, and the rest of the moved tree keeps its shape. */
  lemma RelocatedInDir(f: Tree, a: Path, b: Path, x: Path)
    requires Wf(f) && Fresh(f, b) && Apart(a, b) && |a| > 1 && |b| > 1 && InDir(f, b)
    requires b <= x && x in Relocated(f, a, b)
    ensures InDir(Relocated(f, a, b), x)
  {
    hide Relocated;
    var up := x[..|x| - 1];
    RelocatedAt(f, a, b, x);
    if x == b {
      ParentApart(f, a, b);
      RelocatedAt(f, a, b, up);
    } else {
      var y := a + x[|b|..];
      assert y[..|y| - 1] == a + up[|b|..];
      assert InDir(f, y);
      RelocatedAt(f, a, b, up);
    }
  }

  lemma RelocatedWf(f: Tree, a: Path, b: Path)
    requires Wf(f) && Fresh(f, b) && Apart(a, b) && |a| > 1 && |b| > 1 && InDir(f, b)
    ensures Wf(Relocated(f, a, b))
  {
    hide Relocated;
    var g := Relocated(f, a, b);
    forall x | x in g
      ensures x != [] && (|x| == 1 ==> g[x].Dir?) && (|x| > 1 ==> InDir(g, x))
    {
      RelocatedAt(f, a, b, x);
      if b <= x {
        RelocatedInDir(f, a, b, x);
      } else if |x| > 1 {
        assert InDir(f, x);
        var up := x[..|x| - 1];
        assert a <= up ==> a <= x;
        assert b <= up ==> b <= x;
        RelocatedAt(f, a, b, up);
      }
    }
  }

  lemma ParentApart(f: Tree, a: Path, b: Path)
    requires Apart(a, b) && |a| > 1 && |b| > 1
    ensures !(a <= b[..|b| - 1]) && !(b <= b[..|b| - 1])
  {
    var up := b[..|b| - 1];
    assert a <= up ==> a <= b;
  }

  // ---- how long paths are ----

  ghost function Longest(keys: set<Path>): (n: nat)
    ensures forall x :: x in keys ==> |x| <= n
  {
    if keys == {} then 0 else
      var x :| x in keys;
      var m := Longest(keys - {x});
      if |x| > m then |x| else m
  }

  lemma LongestBounds(f: Tree, p: Path)
    ensures Bounded(f, p, Longest(f.Keys))
  {
  }
}
