/** The forest of the Huffman construction, as the working arrays describe it. */
module Forests {
  import opened Bits
  import opened HuffmanTrees

  /** Parent links agree with the trees; exactly the roots are alive. */
  ghost predicate Linked(trees: seq<HTree>, parent: seq<int>, alive: seq<bool>) {
    && |parent| == |alive| == |trees|
    && forall x :: 0 <= x < |trees| ==>
      && (parent[x] < 0 <==> alive[x])
      && (parent[x] >= 0 ==> x < parent[x] < |trees| && Child(trees[parent[x]], trees[x]))
  }

  predicate Child(p: HTree, c: HTree) {
    p.Node? && (p.left == c || p.right == c)
  }

  ghost predicate Sound(trees: seq<HTree>, w: seq<nat>, f: seq<nat>) {
    && |w| == |trees|
    && forall x :: 0 <= x < |trees| ==>
      Proper(trees[x]) && SymsIn(trees[x], f) && w[x] == Weight(trees[x], f) && Heavy(trees[x], f)
  }

  ghost predicate Separate(trees: seq<HTree>, alive: seq<bool>) {
    && |alive| == |trees|
    && forall x, y :: 0 <= x < y < |trees| && alive[x] && alive[y] ==> Syms(trees[x]) !! Syms(trees[y])
  }

  /** The root over symbol s, if any, is the live node x. */
  predicate RootOf(trees: seq<HTree>, alive: seq<bool>, s: nat, x: nat)
    requires |alive| == |trees|
  {
    x < |trees| && alive[x] && s in Syms(trees[x])
  }

  ghost predicate Covers(trees: seq<HTree>, alive: seq<bool>, f: seq<nat>) {
    && |alive| == |trees|
    && forall s :: 0 <= s < |f| && f[s] > 0 ==> exists x :: RootOf(trees, alive, s, x)
  }

  /** A live node weighs at least as much as the parts of any other live node. */
  ghost predicate Ordered(trees: seq<HTree>, alive: seq<bool>, w: seq<nat>, f: seq<nat>)
    requires Sound(trees, w, f)
  {
    && |alive| == |trees|
    && forall x, y :: 0 <= x < |trees| && 0 <= y < |trees| && x != y && alive[x] && alive[y] ==>
      ChildrenBelow(trees[x], f, w[y])
  }

  function CountTrue(a: seq<bool>): nat {
    if a == [] then 0 else CountTrue(a[..|a| - 1]) + (if a[|a| - 1] then 1 else 0)
  }

  lemma {:induction false} CountTrueClear(a: seq<bool>, x: nat)
    requires x < |a| && a[x]
    ensures CountTrue(a[x := false]) == CountTrue(a) - 1
  {
    var n := |a| - 1;
    if x < n {
      CountTrueClear(a[..n], x);
      assert a[x := false][..n] == a[..n][x := false];
    } else {
      assert a[x := false][..n] == a[..n];
    }
  }

  lemma OnlyOne(a: seq<bool>, x: nat, y: nat)
    requires x < |a| && y < |a| && a[x] && a[y] && CountTrue(a) == 1
    ensures x == y
  {
    CountTrueClear(a, x);
    if x != y {
      CountTrueClear(a[x := false], y);
    }
  }

  /** Everything that holds between two merges. */
  ghost predicate Forest(trees: seq<HTree>, w: seq<nat>, parent: seq<int>, alive: seq<bool>, f: seq<nat>) {
    && Linked(trees, parent, alive)
    && Sound(trees, w, f)
    && Separate(trees, alive)
    && Covers(trees, alive, f)
    && Ordered(trees, alive, w, f)
  }

  /** a and b are the two lightest live nodes. */
  ghost predicate Lightest(alive: seq<bool>, w: seq<nat>, a: nat, b: nat) {
    && |w| == |alive| && a < |alive| && b < |alive| && a != b && alive[a] && alive[b]
    && w[a] <= w[b]
    && forall y :: 0 <= y < |alive| && alive[y] && y != a && y != b ==> w[b] <= w[y]
  }

  function Merged<T>(s: seq<T>, a: nat, b: nat, x: T, last: T): seq<T>
    requires a < |s| && b < |s|
  {
    s[a := x][b := x] + [last]
  }

  lemma MergeForest(trees: seq<HTree>, w: seq<nat>, parent: seq<int>, alive: seq<bool>, f: seq<nat>, a: nat, b: nat)
    returns (t: HTree)
    requires Forest(trees, w, parent, alive, f) && Lightest(alive, w, a, b)
    ensures t == Node(trees[a], trees[b])
    ensures Forest(trees + [t], w + [w[a] + w[b]], Merged(parent, a, b, |trees|, -1), Merged(alive, a, b, false, true), f)
    ensures CountTrue(Merged(alive, a, b, false, true)) == CountTrue(alive) - 1
  {
    t := Node(trees[a], trees[b]);
    MergeLinked(trees, parent, alive, a, b);
    MergeSound(trees, w, alive, f, a, b);
    MergeSeparate(trees, alive, a, b);
    MergeCovers(trees, alive, f, a, b, t);
    MergeOrdered(trees, w, alive, f, a, b);
    MergeCount(alive, a, b);
  }

  lemma MergeCount(alive: seq<bool>, a: nat, b: nat)
    requires a < |alive| && b < |alive| && a != b && alive[a] && alive[b]
    ensures CountTrue(Merged(alive, a, b, false, true)) == CountTrue(alive) - 1
  {
    CountTrueClear(alive, a);
    CountTrueClear(alive[a := false], b);
    assert Merged(alive, a, b, false, true)[..|alive|] == alive[a := false][b := false];
  }

  lemma MergeLinked(trees: seq<HTree>, parent: seq<int>, alive: seq<bool>, a: nat, b: nat)
    requires Linked(trees, parent, alive) && a < |trees| && b < |trees|
    ensures Linked(trees + [Node(trees[a], trees[b])], Merged(parent, a, b, |trees|, -1), Merged(alive, a, b, false, true))
  {
  }

  lemma MergeSound(trees: seq<HTree>, w: seq<nat>, alive: seq<bool>, f: seq<nat>, a: nat, b: nat)
    requires Sound(trees, w, f) && Separate(trees, alive) && Ordered(trees, alive, w, f) && Lightest(alive, w, a, b)
    ensures Sound(trees + [Node(trees[a], trees[b])], w + [w[a] + w[b]], f)
  {
    HeavyMerge(trees[a], trees[b], f) by {
      assert ChildrenBelow(trees[a], f, w[b]);
      assert ChildrenBelow(trees[b], f, w[a]);
    }
    assert Syms(trees[a]) !! Syms(trees[b]);
  }

  lemma MergeSeparate(trees: seq<HTree>, alive: seq<bool>, a: nat, b: nat)
    requires Separate(trees, alive) && a < |trees| && b < |trees| && a != b && alive[a] && alive[b]
    ensures Separate(trees + [Node(trees[a], trees[b])], Merged(alive, a, b, false, true))
  {
    var trees', alive' := trees + [Node(trees[a], trees[b])], Merged(alive, a, b, false, true);
    forall x, y | 0 <= x < y < |trees'| && alive'[x] && alive'[y]
      ensures Syms(trees'[x]) !! Syms(trees'[y])
    {
      if y == |trees| {
        assert Syms(trees[x]) !! Syms(trees[a]);
        assert Syms(trees[x]) !! Syms(trees[b]);
      }
    }
  }

  lemma MergeCovers(trees: seq<HTree>, alive: seq<bool>, f: seq<nat>, a: nat, b: nat, t: HTree)
    requires Covers(trees, alive, f) && a < |trees| && b < |trees| && t == Node(trees[a], trees[b])
    ensures Covers(trees + [t], Merged(alive, a, b, false, true), f)
  {
    var live := Merged(alive, a, b, false, true);
    forall s | 0 <= s < |f| && f[s] > 0
      ensures exists x :: RootOf(trees + [t], live, s, x)
    {
      var x :| RootOf(trees, alive, s, x);
      assert RootOf(trees + [t], live, s, if x == a || x == b then |trees| else x);
    }
  }

  lemma MergeOrdered(trees: seq<HTree>, w: seq<nat>, alive: seq<bool>, f: seq<nat>, a: nat, b: nat)
    requires Sound(trees, w, f) && Ordered(trees, alive, w, f) && Lightest(alive, w, a, b)
    requires Sound(trees + [Node(trees[a], trees[b])], w + [w[a] + w[b]], f)
    ensures Ordered(trees + [Node(trees[a], trees[b])], Merged(alive, a, b, false, true), w + [w[a] + w[b]], f)
  {
    var trees', alive', w' := trees + [Node(trees[a], trees[b])], Merged(alive, a, b, false, true), w + [w[a] + w[b]];
    forall x, y | 0 <= x < |trees'| && 0 <= y < |trees'| && x != y && alive'[x] && alive'[y]
      ensures ChildrenBelow(trees'[x], f, w'[y])
    {
      if y == |trees| {
        assert ChildrenBelow(trees[x], f, w[a]);
      }
    }
  }

  lemma {:induction false} WeightSum(t: HTree, f: seq<nat>)
    requires SymsIn(t, f) && Proper(t) && forall i :: 0 <= i < |f| && f[i] > 0 ==> i in Syms(t)
    ensures Weight(t, f) == Sum(f)
  {
    WeightIsTotal(t, f);
    TotalIsSum(t, f, |f|);
    assert f[..|f|] == f;
  }
}
