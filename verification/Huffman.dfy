/** Huffman code lengths, limited to 16 bits: the construction is repeated on a flattened
    distribution until no code is too long. */
module Huffman {
  import opened Bits
  import opened Canonical
  import opened Trees
  import opened HuffmanTrees
  import opened Forests
  import opened HuffmanOptimal

  function UsedCount(f: seq<nat>, n: nat): (c: nat)
    requires n <= |f|
    ensures c <= n
  {
    if n == 0 then 0 else UsedCount(f, n - 1) + (if f[n - 1] > 0 then 1 else 0)
  }

  function Used(f: seq<nat>): nat {
    UsedCount(f, |f|)
  }

  /** What the construction promises: a complete code of at most 16 bits for exactly the used
      symbols, or no lengths at all when there are fewer than two of them. */
  ghost predicate CodeLengths(f: seq<nat>, lens: seq<nat>) {
    && |lens| == |f|
    && (Used(f) < 2 ==> Unused(lens))
    && (Used(f) >= 2 ==> Complete(lens) && forall i :: 0 <= i < |f| ==> (lens[i] > 0 <==> f[i] > 0))
  }

  /** The leaves made for the symbols below n. */
  ghost predicate Leaves(f: seq<nat>, n: nat, trees: seq<HTree>, w: seq<nat>, parent: seq<int>, alive: seq<bool>,
                         leafOf: seq<int>) {
    && n <= |f| && n == |leafOf| && |trees| == |w| == |parent| == |alive|
    && (forall x :: 0 <= x < |trees| ==> LeafAt(f, n, trees[x], w[x]) && parent[x] == -1 && alive[x])
    && (forall x, y :: 0 <= x < y < |trees| ==> trees[x] != trees[y])
    && (forall k :: 0 <= k < n ==> (leafOf[k] >= 0 <==> f[k] > 0))
    && (forall k :: 0 <= k < n && f[k] > 0 ==> leafOf[k] < |trees| && trees[leafOf[k]] == Leaf(k))
  }

  predicate LeafAt(f: seq<nat>, n: nat, t: HTree, w: nat) {
    t.Leaf? && t.sym < n && n <= |f| && f[t.sym] > 0 && w == f[t.sym]
  }

  lemma NoLeaves(f: seq<nat>)
    ensures Grown(f, 0, [], [], [], [], [])
  {
  }

  lemma LeavesStep(f: seq<nat>, n: nat, trees: seq<HTree>, w: seq<nat>, parent: seq<int>, alive: seq<bool>,
                   leafOf: seq<int>)
    requires n < |f| && Leaves(f, n, trees, w, parent, alive, leafOf)
    ensures f[n] == 0 ==> Leaves(f, n + 1, trees, w, parent, alive, leafOf + [-1])
    ensures f[n] > 0 ==>
      Leaves(f, n + 1, trees + [Leaf(n)], w + [f[n]], parent + [-1], alive + [true], leafOf + [|trees|])
  {
  }

  /** In the order of the symbols. */
  ghost predicate Grown(f: seq<nat>, n: nat, trees: seq<HTree>, w: seq<nat>, parent: seq<int>, alive: seq<bool>,
                        leafOf: seq<int>) {
    Leaves(f, n, trees, w, parent, alive, leafOf) && trees == LeafTrees(f, n)
  }

  lemma GrownStep(f: seq<nat>, n: nat, trees: seq<HTree>, w: seq<nat>, parent: seq<int>, alive: seq<bool>,
                  leafOf: seq<int>)
    requires n < |f| && Grown(f, n, trees, w, parent, alive, leafOf)
    ensures f[n] == 0 ==> Grown(f, n + 1, trees, w, parent, alive, leafOf + [-1])
    ensures f[n] > 0 ==>
      Grown(f, n + 1, trees + [Leaf(n)], w + [f[n]], parent + [-1], alive + [true], leafOf + [|trees|])
  {
    LeavesStep(f, n, trees, w, parent, alive, leafOf);
    hide Leaves;
    assert trees + [] == trees;
  }

  lemma LeavesForest(f: seq<nat>, trees: seq<HTree>, w: seq<nat>, parent: seq<int>, alive: seq<bool>, leafOf: seq<int>)
    requires Leaves(f, |f|, trees, w, parent, alive, leafOf)
    ensures Forest(trees, w, parent, alive, f) && CountTrue(alive) == |trees|
    ensures forall k :: 0 <= k < |f| ==> (leafOf[k] >= 0 <==> f[k] > 0)
    ensures forall k :: 0 <= k < |f| && f[k] > 0 ==> leafOf[k] < |trees| && trees[leafOf[k]] == Leaf(k)
  {
    forall s | 0 <= s < |f| && f[s] > 0
      ensures exists x :: RootOf(trees, alive, s, x)
    {
      assert RootOf(trees, alive, s, leafOf[s]);
    }
    assert Fib(2) == 1;
    assert Sound(trees, w, f);
    forall x, y | 0 <= x < y < |trees|
      ensures Syms(trees[x]) !! Syms(trees[y])
    {
      assert LeafAt(f, |f|, trees[x], w[x]) && LeafAt(f, |f|, trees[y], w[y]);
    }
    Work.AllTrue(alive);
  }

  /** A forest in which the construction has lost nothing to any rival. */
  ghost predicate BestForest(trees: seq<HTree>, w: seq<nat>, parent: seq<int>, alive: seq<bool>, f: seq<nat>) {
    Forest(trees, w, parent, alive, f) && Beats(trees, w, alive, f)
  }

  lemma LeavesBest(f: seq<nat>, trees: seq<HTree>, w: seq<nat>, parent: seq<int>, alive: seq<bool>, leafOf: seq<int>)
    requires Grown(f, |f|, trees, w, parent, alive, leafOf) && Forest(trees, w, parent, alive, f)
    ensures BestForest(trees, w, parent, alive, f)
  {
    hide Beats;
    StartBeats(f, trees, w, alive);
  }

  lemma MergeBest(trees: seq<HTree>, w: seq<nat>, parent: seq<int>, alive: seq<bool>, f: seq<nat>, a: nat, b: nat)
    requires BestForest(trees, w, parent, alive, f) && Lightest(alive, w, a, b)
    requires Forest(trees + [Node(trees[a], trees[b])], w + [w[a] + w[b]], Merged(parent, a, b, |trees|, -1),
                    Merged(alive, a, b, false, true), f)
    ensures BestForest(trees + [Node(trees[a], trees[b])], w + [w[a] + w[b]], Merged(parent, a, b, |trees|, -1),
                       Merged(alive, a, b, false, true), f)
  {
    hide Beats;
    MergeBeats(trees, w, alive, f, a, b);
  }

  lemma RootBest(trees: seq<HTree>, w: seq<nat>, parent: seq<int>, alive: seq<bool>, f: seq<nat>, lens: seq<nat>, r: nat)
    requires BestForest(trees, w, parent, alive, f) && r < |trees| && alive[r] && |lens| == |f|
    ensures LensOf(trees[r], lens) ==> Optimal(f, lens)
  {
    hide Beats, Optimal;
    if LensOf(trees[r], lens) {
      EndOptimal(f, lens, trees, w, alive, r);
    }
  }

  /** The depths of the used symbols below n are in lens (as bytes), and maxl bounds them. */
  ghost predicate DepthsUpTo(root: HTree, f: seq<nat>, lens: seq<nat>, n: nat, maxl: nat) {
    && |lens| == |f|
    && forall k :: 0 <= k < |f| ==>
      if k < n && f[k] > 0 then k in Syms(root) && Depth(root, k) <= maxl && lens[k] == Depth(root, k) % 256
      else lens[k] == 0
  }

  lemma DepthsStep(root: HTree, f: seq<nat>, lens: seq<nat>, n: nat, maxl: nat)
    requires n < |f| && DepthsUpTo(root, f, lens, n, maxl)
    ensures f[n] == 0 ==> DepthsUpTo(root, f, lens, n + 1, maxl)
    ensures f[n] > 0 && n in Syms(root) ==>
      DepthsUpTo(root, f, lens[n := (Depth(root, n) % 256) as nat], n + 1, Max(maxl, Depth(root, n)))
  {
  }

  lemma DepthsDone(root: HTree, f: seq<nat>, lens: seq<nat>, maxl: nat)
    requires DepthsUpTo(root, f, lens, |f|, maxl) && Proper(root) && SymsIn(root, f)
    ensures maxl <= MAXLEN ==> LensOf(root, lens) && Height(root) <= MAXLEN
  {
    hide Height, Depth, Proper;
    var s := DeepestSymbol(root);
    SymsInRange(root, f);
  }

  /** The working arrays of the construction. */
  class Work {
    const w: array<nat>
    const parent: array<int>
    const alive: array<bool>
    const leafOf: array<int>
    var nodes: nat
    ghost var trees: seq<HTree>

    constructor ()
      ensures Sized() && nodes == 0 && trees == []
      ensures fresh(w) && fresh(parent) && fresh(alive) && fresh(leafOf)
    {
      w := new nat[2 * NC](_ => 0);
      parent := new int[2 * NC](_ => 0);
      alive := new bool[2 * NC](_ => false);
      leafOf := new int[NC](_ => 0);
      nodes, trees := 0, [];
    }

    ghost predicate Sized()
      reads this
    {
      && w.Length == parent.Length == alive.Length == 2 * NC && leafOf.Length == NC
      && parent != leafOf && nodes == |trees| <= 2 * NC
    }

    ghost predicate Inv(f: seq<nat>)
      reads this, w, parent, alive, leafOf
    {
      && Sized() && |f| <= NC
      && Forest(trees, w[..nodes], parent[..nodes], alive[..nodes], f)
      && (forall i :: 0 <= i < |f| ==> (leafOf[i] >= 0 <==> f[i] > 0))
      && (forall i :: 0 <= i < |f| && f[i] > 0 ==> leafOf[i] < nodes && trees[leafOf[i]] == Leaf(i))
    }

    /** And no table of code lengths is better than the one the merges lead to. */
    ghost predicate Best(f: seq<nat>)
      reads this, w, parent, alive, leafOf
    {
      Inv(f) && BestForest(trees, w[..nodes], parent[..nodes], alive[..nodes], f)
    }

    /** One leaf for each used symbol. */
    method CollectLeaves(f: array<nat>, len: array<nat>)
      requires Sized() && nodes == 0 && trees == []
      requires f.Length == len.Length <= NC
      requires f != len && f != w && len != w
      modifies this, w, parent, alive, leafOf, len
      ensures f[..] == old(f[..])
      ensures Best(f[..]) && nodes == Used(f[..]) == CountTrue(alive[..nodes])
      ensures Unused(len[..])
    {
      hide Forest, Beats, Leaves, LeafTrees;
      ghost var fs := f[..];
      FillLeaves(f, len, fs);
      LeavesForest(fs, trees, w[..nodes], parent[..nodes], alive[..nodes], leafOf[..|fs|]);
      LeavesBest(fs, trees, w[..nodes], parent[..nodes], alive[..nodes], leafOf[..|fs|]);
    }

    method FillLeaves(f: array<nat>, len: array<nat>, ghost fs: seq<nat>)
      requires Sized() && nodes == 0 && trees == []
      requires f.Length == len.Length <= NC && fs == f[..]
      requires f != len && f != w && len != w
      modifies this`nodes, this`trees, w, parent, alive, leafOf, len
      ensures Sized() && fs == f[..] && nodes == Used(fs)
      ensures Grown(fs, |fs|, trees, w[..nodes], parent[..nodes], alive[..nodes], leafOf[..|fs|])
      ensures forall k :: 0 <= k < len.Length ==> len[k] == 0
    {
      NoLeaves(fs);
      hide Grown;
      for i := 0 to f.Length
        invariant Sized() && nodes == UsedCount(fs, i) && fs == f[..]
        invariant forall k :: 0 <= k < i ==> len[k] == 0
        invariant Grown(fs, i, trees, w[..nodes], parent[..nodes], alive[..nodes], leafOf[..i])
      {
        LeafFor(i, f[i], fs);
        len[i] := 0;
      }
    }

    /** The leaf of symbol i, if it is used. */
    method LeafFor(i: nat, x: nat, ghost f: seq<nat>)
      requires Sized() && nodes <= i < |f| <= NC && x == f[i]
      requires Grown(f, i, trees, w[..nodes], parent[..nodes], alive[..nodes], leafOf[..i])
      modifies this`nodes, this`trees, w, parent, alive, leafOf
      ensures Sized() && nodes == old(nodes) + (if x > 0 then 1 else 0)
      ensures Grown(f, i + 1, trees, w[..nodes], parent[..nodes], alive[..nodes], leafOf[..i + 1])
    {
      hide Grown;
      GrownStep(f, i, trees, w[..nodes], parent[..nodes], alive[..nodes], leafOf[..i]);
      if x > 0 {
        AddLeaf(i, x);
      } else {
        leafOf[i] := -1;
        assert leafOf[..i + 1] == old(leafOf[..i]) + [-1];
      }
    }

    method AddLeaf(i: nat, x: nat)
      requires Sized() && i < NC && nodes <= i
      modifies this`nodes, this`trees, w, parent, alive, leafOf
      ensures Sized() && nodes == old(nodes) + 1 && trees == old(trees) + [Leaf(i)]
      ensures w[..nodes] == old(w[..nodes]) + [x]
      ensures parent[..nodes] == old(parent[..nodes]) + [-1]
      ensures alive[..nodes] == old(alive[..nodes]) + [true]
      ensures leafOf[..i + 1] == old(leafOf[..i]) + [old(nodes)]
    {
      w[nodes], parent[nodes], alive[nodes] := x, -1, true;
      leafOf[i] := nodes;
      trees := trees + [Leaf(i)];
      nodes := nodes + 1;
    }

    static lemma {:induction false} AllTrue(a: seq<bool>)
      requires forall x :: 0 <= x < |a| ==> a[x]
      ensures CountTrue(a) == |a|
    {
      if a != [] {
        AllTrue(a[..|a| - 1]);
      }
    }

    /** The two lightest live nodes. */
    method SelectTwo() returns (a: nat, b: nat)
      requires Sized() && CountTrue(alive[..nodes]) >= 2
      ensures Lightest(alive[..nodes], w[..nodes], a, b)
    {
      var p, q := -1, -1;
      for i := 0 to nodes
        invariant -1 <= p < i && -1 <= q < i
        invariant p < 0 ==> CountTrue(alive[..i]) == 0 && q < 0
        invariant p >= 0 && q < 0 ==> CountTrue(alive[..i]) == 1
        invariant p >= 0 ==> alive[p]
        invariant q >= 0 ==> alive[q] && q != p && w[p] <= w[q]
        invariant forall y :: 0 <= y < i && alive[y] && p >= 0 ==> w[p] <= w[y]
        invariant forall y :: 0 <= y < i && alive[y] ==> p >= 0 && (y == p || (q >= 0 && w[q] <= w[y]))
      {
        assert alive[..i + 1][..i] == alive[..i];
        if alive[i] {
          if p < 0 || w[i] < w[p] {
            q := p;
            p := i;
          } else if q < 0 || w[i] < w[q] {
            q := i;
          }
        }
      }
      a, b := p, q;
    }

    /** Replaces the two lightest nodes by their sum. */
    method Merge(ghost f: seq<nat>)
      requires Best(f) && CountTrue(alive[..nodes]) >= 2 && nodes < 2 * NC
      modifies this, w, parent, alive
      ensures Best(f) && nodes == old(nodes) + 1
      ensures CountTrue(alive[..nodes]) == old(CountTrue(alive[..nodes])) - 1
      ensures alive[nodes - 1] && trees[nodes - 1].Node?
    {
      hide Forest, BestForest;
      var a, b := SelectTwo();
      ghost var t := MergeForest(trees, w[..nodes], parent[..nodes], alive[..nodes], f, a, b);
      MergeBest(trees, w[..nodes], parent[..nodes], alive[..nodes], f, a, b);
      Join(a, b);
      trees := trees + [t];
    }

    method Join(a: nat, b: nat)
      requires Sized() && a < nodes && b < nodes < 2 * NC
      modifies this`nodes, w, parent, alive
      ensures nodes == old(nodes) + 1
      ensures w[..nodes] == old(w[..nodes]) + [old(w[a]) + old(w[b])]
      ensures parent[..nodes] == Merged(old(parent[..nodes]), a, b, nodes - 1, -1)
      ensures alive[..nodes] == Merged(old(alive[..nodes]), a, b, false, true)
    {
      alive[a], alive[b] := false, false;
      w[nodes] := w[a] + w[b];
      parent[nodes] := -1;
      parent[a] := nodes;
      parent[b] := nodes;
      alive[nodes] := true;
      nodes := nodes + 1;
    }

    /** The depth of every used symbol below the only root, found by following the parents. */
    method ReadDepths(f: array<nat>, len: array<nat>) returns (maxl: nat)
      requires Inv(f[..]) && f.Length == len.Length && f != len && len != w && CountTrue(alive[..nodes]) == 1
      requires nodes > 0 && alive[nodes - 1] && Unused(len[..])
      modifies len
      ensures f[..] == old(f[..])
      ensures maxl <= Height(trees[nodes - 1])
      ensures maxl <= MAXLEN ==> LensOf(trees[nodes - 1], len[..]) && Height(trees[nodes - 1]) <= MAXLEN
    {
      hide Forest;
      ghost var root, fs := trees[nodes - 1], f[..];
      RootHasAll(fs);
      maxl := 0;
      assert DepthsUpTo(root, fs, len[..], 0, 0);
      hide DepthsUpTo, Depth, Height, LensOf, Unused, SymsIn, Heavy;
      for i := 0 to f.Length
        invariant fs == f[..] && Inv(fs)
        invariant maxl <= Height(root)
        invariant DepthsUpTo(root, fs, len[..], i, maxl)
      {
        DepthsStep(root, fs, len[..], i, maxl);
        if leafOf[i] >= 0 {
          var d := DepthOf(i, fs);
          ghost var before := len[..];
          len[i] := d % 256;
          assert len[..] == before[i := (Depth(root, i) % 256) as nat];
          if d > maxl {
            maxl := d;
          }
        }
      }
      DepthsDone(root, fs, len[..], maxl);
    }

    method DepthOf(i: nat, ghost f: seq<nat>) returns (d: nat)
      requires Inv(f) && i < |f| && f[i] > 0
      requires nodes > 0 && alive[nodes - 1] && CountTrue(alive[..nodes]) == 1
      ensures i in Syms(trees[nodes - 1]) && d == Depth(trees[nodes - 1], i) <= Height(trees[nodes - 1])
    {
      var x := leafOf[i];
      ghost var links, live := parent[..nodes], alive[..nodes];
      d := 0;
      while parent[x] >= 0
        invariant 0 <= x < nodes && i in Syms(trees[x])
        invariant Depth(trees[x], i) == d
        decreases nodes - x
      {
        assert links[x] == parent[x];
        ChildDepth(trees[parent[x]], trees[x], i);
        d := d + 1;
        x := parent[x];
      }
      assert links[x] == parent[x] && live[x];
      OnlyOne(live, x, nodes - 1);
      DepthInHeight(trees[x], i);
    }

    static lemma ChildDepth(p: HTree, c: HTree, s: nat)
      requires Child(p, c) && Proper(p) && s in Syms(c)
      ensures s in Syms(p) && Depth(p, s) == Depth(c, s) + 1
    {
    }

    lemma RootHasAll(f: seq<nat>)
      requires Inv(f) && nodes > 0 && alive[nodes - 1] && CountTrue(alive[..nodes]) == 1
      ensures Proper(trees[nodes - 1]) && SymsIn(trees[nodes - 1], f) && Heavy(trees[nodes - 1], f)
      ensures forall s :: 0 <= s < |f| && f[s] > 0 ==> s in Syms(trees[nodes - 1])
    {
      forall s | 0 <= s < |f| && f[s] > 0
        ensures s in Syms(trees[nodes - 1])
      {
        var x :| RootOf(trees, alive[..nodes], s, x);
        OnlyOne(alive[..nodes], x, nodes - 1);
      }
    }
  }

  // ---- flattening ----

  function Flat(f: seq<nat>): (g: seq<nat>)
    ensures |g| == |f|
  {
    seq(|f|, i requires 0 <= i < |f| => (f[i] + 1) / 2)
  }

  /** Every weight is halved, rounded up: one that is used stays used. */
  lemma FlatLaw(f: seq<nat>, i: nat)
    requires i < |f|
    ensures 0 <= 2 * Flat(f)[i] - f[i] <= 1
  {
  }

  /** Flattening makes the total smaller unless every weight is at most 1. */
  lemma {:induction false} FlatShrinks(f: seq<nat>)
    ensures Sum(Flat(f)) <= Sum(f)
    ensures Sum(f) > |f| ==> Sum(Flat(f)) < Sum(f)
  {
    if f != [] {
      FlatShrinks(f[..|f| - 1]);
      assert Flat(f)[..|f| - 1] == Flat(f[..|f| - 1]);
    }
  }

  ghost predicate SameSupport(f: seq<nat>, g: seq<nat>) {
    |f| == |g| && forall i :: 0 <= i < |f| ==> (f[i] > 0 <==> g[i] > 0)
  }

  lemma {:induction false} SameUsed(f: seq<nat>, g: seq<nat>, n: nat)
    requires SameSupport(f, g) && n <= |f|
    ensures UsedCount(f, n) == UsedCount(g, n)
  {
    if n > 0 {
      SameUsed(f, g, n - 1);
    }
  }

  /** A tree that is too deep needs a Fibonacci-sized total weight. */
  lemma TooDeepIsHeavy(root: HTree, f: seq<nat>)
    requires Proper(root) && SymsIn(root, f) && Heavy(root, f) && Height(root) > MAXLEN
    requires forall s :: 0 <= s < |f| && f[s] > 0 ==> s in Syms(root)
    ensures Sum(f) >= 4181
  {
    WeightSum(root, f);
    FibOfTooDeep(Height(root));
  }

  lemma LengthsOf(root: HTree, f: seq<nat>, lens: seq<nat>)
    requires root.Node? && Proper(root) && SymsIn(root, f) && Heavy(root, f) && |lens| == |f| && Used(f) >= 2
    requires forall s :: 0 <= s < |f| && f[s] > 0 ==> s in Syms(root)
    ensures LensOf(root, lens) && Height(root) <= MAXLEN ==> CodeLengths(f, lens)
    ensures Height(root) > MAXLEN ==> Sum(f) >= 4181
  {
    SymsInRange(root, f);
    if Height(root) > MAXLEN {
      TooDeepIsHeavy(root, f);
    } else if LensOf(root, lens) {
      DepthsComplete(root, f, lens);
    }
  }

  method Flatten(f: array<nat>)
    modifies f
    ensures f[..] == Flat(old(f[..]))
  {
    for i := 0 to f.Length
      invariant forall k :: 0 <= k < f.Length ==> f[k] == if k < i then (old(f[k]) + 1) / 2 else old(f[k])
    {
      if f[i] > 0 {
        f[i] := (f[i] + 1) / 2;
      }
    }
  }

  /** f after k rounds of flattening. */
  function Flattened(f: seq<nat>, k: nat): (g: seq<nat>)
    ensures |g| == |f|
  {
    if k == 0 then f else Flat(Flattened(f, k - 1))
  }

  /** Code lengths for the frequencies freq; the 32-bit weights must not overflow. They are the best ones
      for the flattened frequencies, and for freq itself when no code of the Huffman tree is too long. */
  method HuffLengths(freq: seq<nat>, len: array<nat>)
    requires |freq| == len.Length <= NC && Sum(freq) < 0x1_0000_0000
    modifies len
    ensures CodeLengths(freq, len[..])
    ensures Used(freq) >= 2 ==> exists k: nat :: Optimal(Flattened(freq, k), len[..])
    ensures Used(freq) >= 2 && Sum(freq) < 4181 ==> Optimal(freq, len[..])
  {
    hide Optimal;
    var f := new nat[|freq|](i requires 0 <= i < |freq| => freq[i]);
    ghost var k: nat := 0;
    assert f[..] == freq;
    while true
      invariant fresh(f) && f.Length == |freq| && SameSupport(freq, f[..])
      invariant f[..] == Flattened(freq, k) && (Sum(freq) < 4181 ==> k == 0)
      decreases Sum(f[..])
    {
      var maxl := TryLengths(f, len);
      if maxl <= MAXLEN {
        SameUsed(freq, f[..], |freq|);
        return;
      }
      FlatShrinks(f[..]);
      Flatten(f);
      k := k + 1;
    }
  }

  /** One construction; it is final unless a code is longer than 16 bits. */
  method TryLengths(f: array<nat>, len: array<nat>) returns (maxl: nat)
    requires f.Length == len.Length <= NC && f != len
    modifies len
    ensures f[..] == old(f[..])
    ensures maxl <= MAXLEN ==> CodeLengths(f[..], len[..]) && (Used(f[..]) >= 2 ==> Optimal(f[..], len[..]))
    ensures maxl > MAXLEN ==> Sum(f[..]) >= 4181
  {
    hide Forest, BestForest, Optimal, LensOf;
    ghost var fs := f[..];
    var k := new Work();
    k.CollectLeaves(f, len);
    var leaves := k.nodes;
    if leaves < 2 {
      return 0;
    }
    for step := 0 to leaves - 1
      invariant fs == f[..] && k.Best(fs) && k.nodes == leaves + step && Unused(len[..])
      invariant CountTrue(k.alive[..k.nodes]) == leaves - step
      invariant step > 0 ==> k.alive[k.nodes - 1] && k.trees[k.nodes - 1].Node?
    {
      k.Merge(fs);
    }
    k.RootHasAll(fs);
    maxl := k.ReadDepths(f, len);
    LengthsOf(k.trees[k.nodes - 1], fs, len[..]);
    RootBest(k.trees, k.w[..k.nodes], k.parent[..k.nodes], k.alive[..k.nodes], fs, len[..], k.nodes - 1);
  }
}
