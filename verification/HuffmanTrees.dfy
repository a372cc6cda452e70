/** The trees that the Huffman construction builds: their weights, depths and Kraft sums. */
module HuffmanTrees {
  import opened Bits
  import opened Canonical

  datatype HTree = Leaf(sym: nat) | Node(left: HTree, right: HTree)

  function Syms(t: HTree): set<nat> {
    match t
    case Leaf(s) => {s}
    case Node(l, r) => Syms(l) + Syms(r)
  }

  /** The symbols of t are used symbols of the table f. */
  predicate SymsIn(t: HTree, f: seq<nat>) {
    match t
    case Leaf(s) => s < |f| && f[s] > 0
    case Node(l, r) => SymsIn(l, f) && SymsIn(r, f)
  }

  lemma {:induction false} SymsInRange(t: HTree, f: seq<nat>)
    requires SymsIn(t, f)
    ensures forall s :: s in Syms(t) ==> s < |f| && f[s] > 0
  {
    if t.Node? {
      SymsInRange(t.left, f);
      SymsInRange(t.right, f);
    }
  }

  /** No symbol occurs twice. */
  predicate Proper(t: HTree) {
    match t
    case Leaf(_) => true
    case Node(l, r) => Proper(l) && Proper(r) && Syms(l) !! Syms(r)
  }

  function Max(a: nat, b: nat): nat {
    if a < b then b else a
  }

  function Height(t: HTree): nat {
    match t
    case Leaf(_) => 0
    case Node(l, r) => 1 + Max(Height(l), Height(r))
  }

  function Depth(t: HTree, s: nat): nat
    requires s in Syms(t)
  {
    match t
    case Leaf(_) => 0
    case Node(l, r) => 1 + if s in Syms(l) then Depth(l, s) else Depth(r, s)
  }

  lemma {:induction false} DepthInHeight(t: HTree, s: nat)
    requires s in Syms(t)
    ensures Depth(t, s) <= Height(t)
  {
    if t.Node? {
      DepthInHeight(if s in Syms(t.left) then t.left else t.right, s);
    }
  }

  /** Some symbol is as deep as the tree is high. */
  lemma {:induction false} DeepestSymbol(t: HTree) returns (s: nat)
    requires Proper(t)
    ensures s in Syms(t) && Depth(t, s) == Height(t)
  {
    match t
    case Leaf(x) =>
      s := x;
    case Node(l, r) =>
      s := DeepestSymbol(if Height(l) < Height(r) then r else l);
  }

  // ---- sums over symbols ----

  /** The sum of the values of the keys below n. */
  function Total(v: map<nat, nat>, n: nat): nat {
    if n == 0 then 0 else Total(v, n - 1) + (if n - 1 in v then v[n - 1] else 0)
  }

  lemma {:induction false} TotalUnion(u: map<nat, nat>, v: map<nat, nat>, n: nat)
    requires u.Keys !! v.Keys
    ensures Total(u + v, n) == Total(u, n) + Total(v, n)
  {
    if n > 0 {
      TotalUnion(u, v, n - 1);
    }
  }

  lemma {:induction false} TotalOne(s: nat, x: nat, n: nat)
    ensures Total(map[s := x], n) == if s < n then x else 0
  {
    if n > 0 {
      TotalOne(s, x, n - 1);
    }
  }

  // ---- Kraft sum ----

  /** The share of every symbol of a tree whose root is d levels deep. */
  function Shares(t: HTree, d: nat): (v: map<nat, nat>)
    requires d + Height(t) <= MAXLEN
    ensures v.Keys == Syms(t)
  {
    match t
    case Leaf(s) => map[s := Pow2(MAXLEN - d)]
    case Node(l, r) => Shares(l, d + 1) + Shares(r, d + 1)
  }

  lemma {:induction false} SharesTotal(t: HTree, d: nat, f: seq<nat>)
    requires d + Height(t) <= MAXLEN && Proper(t) && SymsIn(t, f)
    ensures Total(Shares(t, d), |f|) == Pow2(MAXLEN - d)
  {
    match t
    case Leaf(s) =>
      TotalOne(s, Pow2(MAXLEN - d), |f|);
    case Node(l, r) =>
      SharesTotal(l, d + 1, f);
      SharesTotal(r, d + 1, f);
      TotalUnion(Shares(l, d + 1), Shares(r, d + 1), |f|);
  }

  lemma {:induction false} ShareOfDepth(t: HTree, d: nat, s: nat)
    requires d + Height(t) <= MAXLEN && Proper(t) && s in Syms(t)
    ensures Depth(t, s) <= Height(t)
    ensures Shares(t, d)[s] == Pow2(MAXLEN - d - Depth(t, s))
  {
    DepthInHeight(t, s);
    if t.Node? {
      ShareOfDepth(if s in Syms(t.left) then t.left else t.right, d + 1, s);
    }
  }

  /** lens holds the depth of every symbol of t, and 0 elsewhere. */
  ghost predicate LensOf(t: HTree, lens: seq<nat>) {
    forall i :: 0 <= i < |lens| ==> lens[i] == if i in Syms(t) then Depth(t, i) else 0
  }

  lemma {:induction false} KraftIsTotal(t: HTree, lens: seq<nat>, n: nat)
    requires t.Node? && Height(t) <= MAXLEN && Proper(t) && LensOf(t, lens) && n <= |lens|
    ensures KraftUpTo(lens, MAXLEN, n) == Total(Shares(t, 0), n)
  {
    if n > 0 {
      KraftIsTotal(t, lens, n - 1);
      if n - 1 in Syms(t) {
        ShareOfDepth(t, 0, n - 1);
      }
    }
  }

  /** The depths of a tree with two or more leaves form a complete code. */
  lemma DepthsComplete(t: HTree, f: seq<nat>, lens: seq<nat>)
    requires t.Node? && Height(t) <= MAXLEN && Proper(t) && SymsIn(t, f)
    requires |lens| == |f| && LensOf(t, lens)
    ensures Complete(lens)
  {
    SharesTotal(t, 0, f);
    KraftIsTotal(t, lens, |lens|);
    forall i | 0 <= i < |lens|
      ensures lens[i] <= MAXLEN
    {
      if i in Syms(t) {
        DepthInHeight(t, i);
      }
    }
  }

  // ---- weights ----

  function Weight(t: HTree, f: seq<nat>): nat
    requires SymsIn(t, f)
  {
    match t
    case Leaf(s) => f[s]
    case Node(l, r) => Weight(l, f) + Weight(r, f)
  }

  function Sum(f: seq<nat>): nat {
    if f == [] then 0 else Sum(f[..|f| - 1]) + f[|f| - 1]
  }

  function Weights(t: HTree, f: seq<nat>): (v: map<nat, nat>)
    requires SymsIn(t, f)
    ensures v.Keys == Syms(t)
    ensures forall s :: s in v ==> s < |f| && v[s] == f[s]
  {
    match t
    case Leaf(s) => map[s := f[s]]
    case Node(l, r) => Weights(l, f) + Weights(r, f)
  }

  lemma {:induction false} WeightIsTotal(t: HTree, f: seq<nat>)
    requires SymsIn(t, f) && Proper(t)
    ensures Weight(t, f) == Total(Weights(t, f), |f|)
  {
    match t
    case Leaf(s) =>
      TotalOne(s, f[s], |f|);
    case Node(l, r) =>
      WeightIsTotal(l, f);
      WeightIsTotal(r, f);
      TotalUnion(Weights(l, f), Weights(r, f), |f|);
  }

  lemma {:induction false} TotalIsSum(t: HTree, f: seq<nat>, n: nat)
    requires SymsIn(t, f) && n <= |f| && forall i :: 0 <= i < |f| && f[i] > 0 ==> i in Syms(t)
    ensures Total(Weights(t, f), n) == Sum(f[..n])
  {
    if n > 0 {
      TotalIsSum(t, f, n - 1);
      assert f[..n][..n - 1] == f[..n - 1];
    }
  }

  // ---- the Fibonacci bound ----

  function Fib(n: nat): nat {
    if n < 2 then n else Fib(n - 1) + Fib(n - 2)
  }

  lemma {:induction false} FibMono(m: nat, n: nat)
    requires m <= n
    ensures Fib(m) <= Fib(n)
  {
    if m < n {
      FibMono(m, n - 1);
    }
  }

  /** Every subtree weighs at least the Fibonacci number of its height plus 2. */
  predicate Heavy(t: HTree, f: seq<nat>)
    requires SymsIn(t, f)
  {
    Weight(t, f) >= Fib(Height(t) + 2) && (t.Node? ==> Heavy(t.left, f) && Heavy(t.right, f))
  }

  /** The subtrees of t weigh no more than w. */
  predicate ChildrenBelow(t: HTree, f: seq<nat>, w: nat)
    requires SymsIn(t, f)
  {
    t.Node? ==> Weight(t.left, f) <= w && Weight(t.right, f) <= w
  }

  lemma HeavySide(a: HTree, f: seq<nat>, w: nat)
    requires SymsIn(a, f) && Heavy(a, f) && ChildrenBelow(a, f, w) && w > 0
    ensures Weight(a, f) + w >= Fib(Height(a) + 3)
  {
    assert Fib(Height(a) + 3) == Fib(Height(a) + 2) + Fib(Height(a) + 1);
    if a.Node? {
      var c := if Height(a.left) < Height(a.right) then a.right else a.left;
      assert w >= Weight(c, f) >= Fib(Height(c) + 2);
    }
  }

  lemma {:induction false} Weighty(t: HTree, f: seq<nat>)
    requires SymsIn(t, f)
    ensures Weight(t, f) > 0
  {
    if t.Node? {
      Weighty(t.left, f);
    }
  }

  /** Merging the two lightest of a forest keeps the bound. */
  lemma HeavyMerge(a: HTree, b: HTree, f: seq<nat>)
    requires SymsIn(a, f) && SymsIn(b, f) && Heavy(a, f) && Heavy(b, f)
    requires ChildrenBelow(a, f, Weight(b, f)) && ChildrenBelow(b, f, Weight(a, f))
    ensures Heavy(Node(a, b), f)
  {
    Weighty(a, f);
    Weighty(b, f);
    if Height(b) <= Height(a) {
      HeavySide(a, f, Weight(b, f));
    } else {
      HeavySide(b, f, Weight(a, f));
    }
  }

  lemma FibOfTooDeep(h: nat)
    requires h > MAXLEN
    ensures Fib(h + 2) >= 4181
  {
    assert Fib(5) == 5 && Fib(6) == 8;
    assert Fib(9) == 34 && Fib(10) == 55;
    assert Fib(13) == 233 && Fib(14) == 377;
    assert Fib(17) == 1597 && Fib(18) == 2584;
    FibMono(19, h + 2);
  }
}
