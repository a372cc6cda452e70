/** Why merging the two lightest trees is best: no table of code lengths gives a shorter text. */
module HuffmanOptimal {
  import opened Bits
  import opened Canonical
  import opened HuffmanTrees
  import opened Forests

  // ---- the best table ----

  /** The size of a text with frequencies f, as far as the symbols below n go. */
  function Cost(f: seq<nat>, lens: seq<nat>, n: nat): nat
    requires n <= |f| == |lens|
  {
    if n == 0 then 0 else Cost(f, lens, n - 1) + f[n - 1] * lens[n - 1]
  }

  /** Any table with a code of at most 16 bits for every used symbol, prefix-free by Kraft's inequality. */
  ghost predicate Rival(f: seq<nat>, m: seq<nat>) {
    && |m| == |f| && Bounded(m) && KraftUpTo(m, MAXLEN, |m|) <= Pow2(MAXLEN)
    && forall i :: 0 <= i < |f| && f[i] > 0 ==> m[i] > 0
  }

  /** No rival gives a shorter text. */
  ghost predicate Optimal(f: seq<nat>, lens: seq<nat>) {
    |lens| == |f| && forall m :: Rival(f, m) ==> Cost(f, lens, |f|) <= Cost(f, m, |f|)
  }

  // ---- sums ----

  lemma {:induction false} TotalUpdate(v: map<nat, nat>, k: nat, x: nat, n: nat)
    ensures Total(v[k := x], n) + (if k < n && k in v then v[k] else 0) == Total(v, n) + (if k < n then x else 0)
  {
    if n > 0 {
      TotalUpdate(v, k, x, n - 1);
    }
  }

  lemma {:induction false} TotalRemove(v: map<nat, nat>, k: nat, n: nat)
    requires k in v
    ensures Total(v - {k}, n) + (if k < n then v[k] else 0) == Total(v, n)
  {
    if n > 0 {
      TotalRemove(v, k, n - 1);
    }
  }

  lemma TotalTwo(v: map<nat, nat>, x: nat, y: nat, n: nat)
    requires x in v && y in v && x != y && x < n && y < n
    ensures Total(v, n) >= v[x] + v[y]
  {
    TotalRemove(v, x, n);
    TotalRemove(v - {x}, y, n);
  }

  // ---- depths for the live trees ----

  function UnitOf(d: nat): nat {
    if d <= MAXLEN then Pow2(MAXLEN - d) else 0
  }

  /** The share of every tree that is put at the depth l gives it. */
  function Units(l: map<nat, nat>): (u: map<nat, nat>)
    ensures u.Keys == l.Keys
  {
    map x | x in l :: UnitOf(l[x])
  }

  /** The live trees can be put at the depths l below one root. */
  ghost predicate Placed(l: map<nat, nat>, alive: seq<bool>) {
    && (forall x: nat :: x in l <==> x < |alive| && alive[x])
    && (forall x :: x in l ==> l[x] <= MAXLEN)
    && Total(Units(l), |alive|) <= Pow2(MAXLEN)
  }

  function Times(x: nat, y: nat): nat {
    x * y
  }

  /** What the symbols of every tree cost at these depths. */
  function Costs(l: map<nat, nat>, w: seq<nat>, inner: seq<nat>): (c: map<nat, nat>)
    requires |w| == |inner| && forall x :: x in l ==> x < |w|
    ensures c.Keys == l.Keys
  {
    map x | x in l :: Times(w[x], l[x]) + inner[x]
  }

  function PlacedCost(l: map<nat, nat>, w: seq<nat>, inner: seq<nat>): nat
    requires |w| == |inner| && forall x :: x in l ==> x < |w|
  {
    Total(Costs(l, w, inner), |w|)
  }

  /** One tree gets another depth. */
  lemma ReplaceUnits(l: map<nat, nat>, x: nat, d: nat, n: nat)
    requires x in l && x < n
    ensures Total(Units(l[x := d]), n) + UnitOf(l[x]) == Total(Units(l), n) + UnitOf(d)
  {
    hide UnitOf, Total;
    assert Units(l[x := d]) == Units(l)[x := UnitOf(d)];
    TotalUpdate(Units(l), x, UnitOf(d), n);
  }

  lemma ReplaceCost(l: map<nat, nat>, x: nat, d: nat, w: seq<nat>, inner: seq<nat>)
    requires |w| == |inner| && (forall y :: y in l ==> y < |w|) && x in l
    ensures PlacedCost(l[x := d], w, inner) + Times(w[x], l[x]) == PlacedCost(l, w, inner) + Times(w[x], d)
  {
    hide Total, Times;
    var c := Times(w[x], d) + inner[x];
    assert Costs(l[x := d], w, inner) == Costs(l, w, inner)[x := c];
    TotalUpdate(Costs(l, w, inner), x, c, |w|);
  }

  // ---- the deepest trees come in pairs ----

  lemma {:induction false} DeepestKey(l: map<nat, nat>) returns (x: nat)
    requires l.Keys != {}
    ensures x in l && forall y :: y in l ==> l[y] <= l[x]
    decreases |l|
  {
    x :| x in l;
    var k := l - {x};
    if k.Keys != {} {
      assert l.Keys == k.Keys + {x};
      var z := DeepestKey(k);
      if l[z] > l[x] {
        x := z;
      }
    }
  }

  lemma UnitSteps(e: nat, d: nat)
    requires e < d <= MAXLEN
    ensures UnitOf(e) == (2 * Pow2(d - 1 - e)) * Pow2(MAXLEN - d)
  {
    Pow2Add(d - e, MAXLEN - d);
    assert Pow2(d - e) == 2 * Pow2(d - 1 - e);
  }

  /** A lone deepest tree makes the sum an odd multiple of its share. */
  lemma {:induction false} OddSum(l: map<nat, nat>, x: nat, n: nat) returns (q: nat)
    requires x in l && 0 < l[x] <= MAXLEN && forall y :: y in l && y != x ==> l[y] < l[x]
    ensures Total(Units(l), n) == (2 * q + if x < n then 1 else 0) * Pow2(MAXLEN - l[x])
  {
    hide Pow2;
    q := 0;
    if n > 0 {
      var u, y := Pow2(MAXLEN - l[x]), n - 1;
      q := OddSum(l, x, n - 1);
      var was := 2 * q + if x < n - 1 then 1 else 0;
      if y in l && y != x {
        var h := Pow2(l[x] - 1 - l[y]);
        UnitSteps(l[y], l[x]);
        hide UnitOf;
        Distribute(was, 2 * h, u);
        q := q + h;
      } else if y == x {
        Distribute(was, 1, u);
      }
    }
  }

  lemma OddBelow(q: nat, h: nat, u: nat)
    requires u > 0 && (2 * q + 1) * u <= (2 * h) * u
    ensures (2 * q + 1) * u + u <= (2 * h) * u
  {
    CancelLe(2 * q + 1, 2 * h, u);
    MulLe(2 * q + 2, 2 * h, u);
    Distribute(2 * q + 1, 1, u);
  }

  /** So it can be lifted by one. */
  lemma Slack(l: map<nat, nat>, x: nat, n: nat)
    requires x in l && x < n && 0 < l[x] <= MAXLEN && (forall y :: y in l && y != x ==> l[y] < l[x])
    requires Total(Units(l), n) <= Pow2(MAXLEN)
    ensures Total(Units(l), n) + UnitOf(l[x]) <= Pow2(MAXLEN)
  {
    hide Total, Units, Pow2;
    var q := OddSum(l, x, n);
    UnitSteps(0, l[x]);
    OddBelow(q, Pow2(l[x] - 1), Pow2(MAXLEN - l[x]));
  }

  lemma UnitUp(d: nat)
    requires 0 < d <= MAXLEN
    ensures UnitOf(d - 1) == 2 * UnitOf(d)
  {
  }

  // ---- putting the two lightest trees deepest ----

  /** The depths l cost no more than m, and place the same trees. */
  ghost predicate NoWorse(l: map<nat, nat>, m: map<nat, nat>, alive: seq<bool>, w: seq<nat>, inner: seq<nat>)
    requires |w| == |inner| == |alive|
    requires forall x :: x in m ==> x < |w|
  {
    Placed(l, alive) && PlacedCost(l, w, inner) <= PlacedCost(m, w, inner)
  }

  /** Two different trees are at least as deep as all others. */
  ghost predicate DeepestTwo(l: map<nat, nat>, x: nat, y: nat) {
    x in l && y in l && x != y && l[x] == l[y] > 0 && forall z :: z in l ==> l[z] <= l[x]
  }

  lemma Lifted(l: map<nat, nat>, x: nat, alive: seq<bool>, w: seq<nat>, inner: seq<nat>)
    requires |w| == |inner| == |alive| && Placed(l, alive)
    requires x in l && l[x] > 0 && forall y :: y in l && y != x ==> l[y] < l[x]
    ensures NoWorse(l[x := (l[x] - 1) as nat], l, alive, w, inner)
  {
    hide Times, Total, Units, UnitOf, PlacedCost;
    var d: nat := l[x] - 1;
    Slack(l, x, |w|);
    UnitUp(l[x]);
    ReplaceUnits(l, x, d, |w|);
    ReplaceCost(l, x, d, w, inner);
    TimesLe(w[x], d, l[x]);
  }

  lemma TimesLe(p: nat, c: nat, d: nat)
    requires c <= d
    ensures Times(p, c) <= Times(p, d)
  {
    MulLe(c, d, p);
  }

  lemma {:induction false} TwoDeepest(l: map<nat, nat>, a: nat, b: nat, alive: seq<bool>, w: seq<nat>, inner: seq<nat>)
    returns (m: map<nat, nat>, x: nat, y: nat)
    requires |w| == |inner| == |alive| && Placed(l, alive) && a in l && b in l && a != b
    ensures NoWorse(m, l, alive, w, inner) && DeepestTwo(m, x, y)
    decreases Total(l, |w|)
  {
    hide Sound, PlacedCost, Units;
    x := DeepestKey(l);
    if y' :| y' in l && y' != x && l[y'] == l[x] {
      m, y := l, y';
      NotBothRoots(l, x, y, |alive|);
    } else {
      var z := if x == a then b else a;
      Lifted(l, x, alive, w, inner);
      var k := l[x := (l[x] - 1) as nat];
      TotalUpdate(l, x, l[x] - 1, |w|);
      m, x, y := TwoDeepest(k, a, b, alive, w, inner);
    }
  }

  lemma NotBothRoots(l: map<nat, nat>, x: nat, y: nat, n: nat)
    requires x in l && y in l && x != y && x < n && y < n && l[x] == l[y] && Total(Units(l), n) <= Pow2(MAXLEN)
    ensures l[x] > 0
  {
    TotalTwo(Units(l), x, y, n);
  }

  /** Exchanging the depths of two trees. */
  lemma Exchange(l: map<nat, nat>, a: nat, x: nat, alive: seq<bool>, w: seq<nat>, inner: seq<nat>)
    requires |w| == |inner| == |alive| && Placed(l, alive)
    requires a in l && x in l && a != x && w[a] <= w[x] && l[a] <= l[x]
    ensures NoWorse(l[a := l[x]][x := l[a]], l, alive, w, inner)
  {
    hide Times, Total, Units, UnitOf, PlacedCost;
    var k := l[a := l[x]];
    ReplaceUnits(l, a, l[x], |w|);
    ReplaceUnits(k, x, l[a], |w|);
    ReplaceCost(l, a, l[x], w, inner);
    ReplaceCost(k, x, l[a], w, inner);
    Crosswise(w[a], w[x], l[a], l[x]);
  }

  lemma Crosswise(p: nat, q: nat, c: nat, d: nat)
    requires p <= q && c <= d
    ensures Times(p, d) + Times(q, c) <= Times(p, c) + Times(q, d)
  {
    Distribute(p, q - p, d - c);
    var s := d - c;
    assert q * s == p * s + (q - p) * s;
    assert p * d == p * c + p * s && q * d == q * c + q * s;
  }

  lemma NoWorseTrans(l: map<nat, nat>, m: map<nat, nat>, k: map<nat, nat>, alive: seq<bool>, w: seq<nat>, inner: seq<nat>)
    requires |w| == |inner| == |alive| && Placed(k, alive)
    requires NoWorse(m, k, alive, w, inner) && NoWorse(l, m, alive, w, inner)
    ensures NoWorse(l, k, alive, w, inner)
  {
  }

  /** The two lightest trees can be made the deepest ones without loss. */
  lemma LightestDeepest(l: map<nat, nat>, a: nat, b: nat, alive: seq<bool>, w: seq<nat>, inner: seq<nat>)
    returns (m: map<nat, nat>)
    requires |w| == |inner| == |alive| && Placed(l, alive) && Lightest(alive, w, a, b)
    ensures NoWorse(m, l, alive, w, inner) && a in m && b in m && m[a] == m[b] > 0
  {
    hide Total, Units, PlacedCost;
    var x, y;
    m, x, y := TwoDeepest(l, a, b, alive, w, inner);
    var z := if x == a then y else x;
    if m[a] < m[x] {
      var p := if x == b then y else x;
      z := if x == b then x else y;
      Exchange(m, a, p, alive, w, inner);
      var k := m[a := m[p]][p := m[a]];
      NoWorseTrans(k, m, l, alive, w, inner);
      m := k;
    }
    if m[b] < m[a] {
      Exchange(m, b, z, alive, w, inner);
      var k := m[b := m[z]][z := m[b]];
      NoWorseTrans(k, m, l, alive, w, inner);
      m := k;
    }
  }

  // ---- merging ----

  function JoinDepths(m: map<nat, nat>, a: nat, b: nat, n: nat): map<nat, nat>
    requires a in m && m[a] > 0
  {
    (m - {a} - {b})[n := (m[a] - 1) as nat]
  }

  lemma JoinTotal(v: map<nat, nat>, a: nat, b: nat, n: nat, x: nat)
    requires a in v && b in v && a != b && a < n && b < n && n !in v
    ensures Total((v - {a} - {b})[n := x], n + 1) + v[a] + v[b] == Total(v, n) + x
  {
    TotalRemove(v, a, n);
    TotalRemove(v - {a}, b, n);
    TotalUpdate(v - {a} - {b}, n, x, n);
  }

  lemma JoinPlaced(m: map<nat, nat>, a: nat, b: nat, alive: seq<bool>)
    requires Placed(m, alive) && a in m && b in m && a != b && m[a] == m[b] > 0
    ensures Placed(JoinDepths(m, a, b, |alive|), Merged(alive, a, b, false, true))
  {
    hide Total, UnitOf;
    var n := |alive|;
    var k := JoinDepths(m, a, b, n);
    UnitUp(m[a]);
    JoinTotal(Units(m), a, b, n, UnitOf(m[a] - 1));
    assert Units(k) == (Units(m) - {a} - {b})[n := UnitOf(m[a] - 1)];
  }

  lemma JoinCost(m: map<nat, nat>, a: nat, b: nat, w: seq<nat>, inner: seq<nat>)
    requires |w| == |inner| && (forall x :: x in m ==> x < |w|)
    requires a in m && b in m && a != b && m[a] == m[b] > 0
    ensures var y := w[a] + w[b];
      PlacedCost(JoinDepths(m, a, b, |w|), w + [y], inner + [inner[a] + inner[b] + y]) == PlacedCost(m, w, inner)
  {
    hide Total, Times;
    var y, n, d: nat := w[a] + w[b], |w|, m[a] - 1;
    var i := inner[a] + inner[b] + y;
    TimesUp(w[a], w[b], d);
    JoinTotal(Costs(m, w, inner), a, b, n, Times(y, d) + i);
    assert Costs(JoinDepths(m, a, b, n), w + [y], inner + [i]) == (Costs(m, w, inner) - {a} - {b})[n := Times(y, d) + i];
  }

  lemma TimesUp(p: nat, q: nat, d: nat)
    ensures Times(p + q, d) + (p + q) == Times(p, d + 1) + Times(q, d + 1)
  {
  }

  // ---- no rival is better ----

  /** The live trees can be placed at a cost of at most c. */
  ghost predicate Within(alive: seq<bool>, w: seq<nat>, inner: seq<nat>, c: nat)
    requires |w| == |inner| == |alive|
  {
    exists l :: Placed(l, alive) && PlacedCost(l, w, inner) <= c
  }

  lemma MergeWithin(alive: seq<bool>, w: seq<nat>, inner: seq<nat>, a: nat, b: nat, c: nat)
    requires |w| == |inner| == |alive| && Lightest(alive, w, a, b) && Within(alive, w, inner, c)
    ensures Within(Merged(alive, a, b, false, true), w + [w[a] + w[b]], inner + [inner[a] + inner[b] + (w[a] + w[b])], c)
  {
    hide Total, Units, Costs;
    var l :| Placed(l, alive) && PlacedCost(l, w, inner) <= c;
    var m := LightestDeepest(l, a, b, alive, w, inner);
    JoinPlaced(m, a, b, alive);
    JoinCost(m, a, b, w, inner);
    assert Placed(JoinDepths(m, a, b, |w|), Merged(alive, a, b, false, true));
  }

  /** The weights of the inner nodes of t, which is what the depths inside t cost. */
  function Inner(t: HTree, f: seq<nat>): nat
    requires SymsIn(t, f)
  {
    match t
    case Leaf(_) => 0
    case Node(l, r) => Inner(l, f) + Inner(r, f) + (Weight(l, f) + Weight(r, f))
  }

  function Inners(trees: seq<HTree>, w: seq<nat>, f: seq<nat>): (s: seq<nat>)
    requires Sound(trees, w, f)
    ensures |s| == |trees| && forall x :: 0 <= x < |trees| ==> s[x] == Inner(trees[x], f)
  {
    seq(|trees|, x requires 0 <= x < |trees| && Sound(trees, w, f) => Inner(trees[x], f))
  }

  /** For every rival, the live trees can be placed at no greater cost. */
  ghost predicate Beats(trees: seq<HTree>, w: seq<nat>, alive: seq<bool>, f: seq<nat>)
    requires Sound(trees, w, f) && |alive| == |trees|
  {
    forall m :: Rival(f, m) ==> Within(alive, w, Inners(trees, w, f), Cost(f, m, |f|))
  }

  lemma MergeBeats(trees: seq<HTree>, w: seq<nat>, alive: seq<bool>, f: seq<nat>, a: nat, b: nat)
    requires Sound(trees, w, f) && |alive| == |trees| && Lightest(alive, w, a, b) && Beats(trees, w, alive, f)
    requires Sound(trees + [Node(trees[a], trees[b])], w + [w[a] + w[b]], f)
    ensures Beats(trees + [Node(trees[a], trees[b])], w + [w[a] + w[b]], Merged(alive, a, b, false, true), f)
  {
    var us, v := trees + [Node(trees[a], trees[b])], w + [w[a] + w[b]];
    var inner := Inners(trees, w, f);
    assert us[|trees|] == Node(trees[a], trees[b]);
    assert Inners(us, v, f) == inner + [inner[a] + inner[b] + (w[a] + w[b])];
    hide Sound, Within, Cost, Bounded, KraftUpTo, Inner, Inners;
    forall m | Rival(f, m) ensures Within(Merged(alive, a, b, false, true), v, Inners(us, v, f), Cost(f, m, |f|)) {
      MergeWithin(alive, w, inner, a, b, Cost(f, m, |f|));
    }
  }

  // ---- at the start ----

  function LeafTrees(f: seq<nat>, n: nat): (ts: seq<HTree>)
    requires n <= |f|
    ensures forall x :: 0 <= x < |ts| ==> ts[x].Leaf? && ts[x].sym < n && f[ts[x].sym] > 0
  {
    if n == 0 then [] else LeafTrees(f, n - 1) + (if f[n - 1] > 0 then [Leaf(n - 1)] else [])
  }

  lemma {:induction false} LeafPrefix(f: seq<nat>, n: nat, m: nat)
    requires n <= m <= |f|
    ensures LeafTrees(f, n) <= LeafTrees(f, m)
  {
    if n < m {
      LeafPrefix(f, n, m - 1);
    }
  }

  /** The leaves placed as deep as the rival's codes are long. */
  function LeafDepths(ts: seq<HTree>, m: seq<nat>): map<nat, nat>
    requires forall x :: 0 <= x < |ts| ==> ts[x].Leaf? && ts[x].sym < |m|
  {
    map x: nat | x < |ts| :: m[ts[x].sym]
  }

  /** One more symbol: its leaf is the next one, if it is used. */
  lemma LeafNext(f: seq<nat>, s: nat)
    requires s < |f|
    ensures var ts, k := LeafTrees(f, |f|), |LeafTrees(f, s)|;
      && |LeafTrees(f, s + 1)| == (if f[s] > 0 then k + 1 else k) <= |ts|
      && (f[s] > 0 ==> ts[k] == Leaf(s))
  {
    LeafPrefix(f, s + 1, |f|);
    assert f[s] > 0 ==> LeafTrees(f, s + 1)[|LeafTrees(f, s)|] == Leaf(s);
  }

  lemma UnitIsShare(m: seq<nat>, s: nat)
    requires s < |m| && 0 < m[s] <= MAXLEN
    ensures KraftUpTo(m, MAXLEN, s + 1) == KraftUpTo(m, MAXLEN, s) + UnitOf(m[s])
  {
  }

  lemma KraftMono(m: seq<nat>, s: nat)
    requires s < |m|
    ensures KraftUpTo(m, MAXLEN, s) <= KraftUpTo(m, MAXLEN, s + 1)
  {
  }

  lemma {:induction false} LeafUnits(f: seq<nat>, m: seq<nat>, n: nat)
    requires Rival(f, m) && n <= |f|
    ensures Total(Units(LeafDepths(LeafTrees(f, |f|), m)), |LeafTrees(f, n)|) <= KraftUpTo(m, MAXLEN, n)
  {
    if n > 0 {
      var s := n - 1;
      LeafUnits(f, m, s);
      LeafNext(f, s);
      KraftMono(m, s);
      if f[s] > 0 {
        UnitIsShare(m, s);
      }
      hide LeafTrees, UnitOf, KraftUpTo;
    } else {
      assert LeafTrees(f, 0) == [];
    }
  }

  lemma LeafCost(f: seq<nat>, m: seq<nat>, trees: seq<HTree>, w: seq<nat>, x: nat)
    requires |m| == |f| && trees == LeafTrees(f, |f|) && Sound(trees, w, f) && x < |trees|
    ensures var c, s := Costs(LeafDepths(trees, m), w, Inners(trees, w, f)), trees[x].sym;
      x in c && c[x] == f[s] * m[s]
  {
    var s := trees[x].sym;
    assert w[x] == f[s] && Inner(trees[x], f) == 0;
    hide Sound, LeafTrees, Inner;
  }

  lemma {:induction false} LeafCosts(f: seq<nat>, m: seq<nat>, trees: seq<HTree>, w: seq<nat>, n: nat)
    requires |m| == |f| && trees == LeafTrees(f, |f|) && Sound(trees, w, f) && n <= |f|
    ensures Total(Costs(LeafDepths(trees, m), w, Inners(trees, w, f)), |LeafTrees(f, n)|) == Cost(f, m, n)
  {
    hide Sound, LeafTrees, Inner, Inners, Costs, LeafDepths;
    if n > 0 {
      var s, k := n - 1, |LeafTrees(f, n - 1)|;
      LeafCosts(f, m, trees, w, s);
      LeafNext(f, s);
      if f[s] > 0 {
        LeafCost(f, m, trees, w, k);
      }
    } else {
      NoLeafTrees(f);
    }
  }

  lemma NoLeafTrees(f: seq<nat>)
    ensures LeafTrees(f, 0) == []
  {
  }

  lemma StartBeats(f: seq<nat>, trees: seq<HTree>, w: seq<nat>, alive: seq<bool>)
    requires trees == LeafTrees(f, |f|) && Sound(trees, w, f) && |alive| == |trees|
    requires forall x :: 0 <= x < |alive| ==> alive[x]
    ensures Beats(trees, w, alive, f)
  {
    forall m | Rival(f, m) ensures Within(alive, w, Inners(trees, w, f), Cost(f, m, |f|)) {
      LeafUnits(f, m, |f|);
      LeafCosts(f, m, trees, w, |f|);
      assert Placed(LeafDepths(trees, m), alive);
    }
  }

  // ---- at the end ----

  /** What every symbol costs in a tree whose root is d levels deep. */
  function DepthCosts(t: HTree, f: seq<nat>, d: nat): (v: map<nat, nat>)
    requires SymsIn(t, f)
    ensures v.Keys == Syms(t)
  {
    match t
    case Leaf(s) => map[s := Times(f[s], d)]
    case Node(l, r) => DepthCosts(l, f, d + 1) + DepthCosts(r, f, d + 1)
  }

  lemma {:induction false} DepthCostsTotal(t: HTree, f: seq<nat>, d: nat)
    requires SymsIn(t, f) && Proper(t)
    ensures Total(DepthCosts(t, f, d), |f|) == Times(Weight(t, f), d) + Inner(t, f)
  {
    hide Total, Times;
    match t
    case Leaf(s) =>
      TotalOne(s, Times(f[s], d), |f|);
    case Node(l, r) =>
      DepthCostsTotal(l, f, d + 1);
      DepthCostsTotal(r, f, d + 1);
      TotalUnion(DepthCosts(l, f, d + 1), DepthCosts(r, f, d + 1), |f|);
      TimesUp(Weight(l, f), Weight(r, f), d);
  }

  lemma {:induction false} DepthCostAt(t: HTree, f: seq<nat>, d: nat, s: nat)
    requires SymsIn(t, f) && Proper(t) && s in Syms(t)
    ensures s < |f| && DepthCosts(t, f, d)[s] == Times(f[s], d + Depth(t, s))
  {
    hide Times;
    if t.Node? {
      DepthCostAt(if s in Syms(t.left) then t.left else t.right, f, d + 1, s);
    }
  }

  lemma {:induction false} CostIsTotal(t: HTree, f: seq<nat>, lens: seq<nat>, n: nat)
    requires SymsIn(t, f) && Proper(t) && |lens| == |f| && LensOf(t, lens) && n <= |f|
    ensures Cost(f, lens, n) == Total(DepthCosts(t, f, 0), n)
  {
    if n > 0 {
      CostIsTotal(t, f, lens, n - 1);
      if n - 1 in Syms(t) {
        DepthCostAt(t, f, 0, n - 1);
      }
    }
  }

  lemma {:induction false} TotalAt(v: map<nat, nat>, x: nat, n: nat)
    requires x in v && x < n
    ensures Total(v, n) >= v[x]
  {
    TotalRemove(v, x, n);
  }

  /** The depths of the last tree are the best code lengths. */
  lemma EndOptimal(f: seq<nat>, lens: seq<nat>, trees: seq<HTree>, w: seq<nat>, alive: seq<bool>, r: nat)
    requires Sound(trees, w, f) && |alive| == |trees| && Beats(trees, w, alive, f)
    requires r < |trees| && alive[r] && |lens| == |f| && LensOf(trees[r], lens)
    ensures Optimal(f, lens)
  {
    var t := trees[r];
    DepthCostsTotal(t, f, 0);
    CostIsTotal(t, f, lens, |f|);
    assert Times(Weight(t, f), 0) == 0;
    var inner := Inners(trees, w, f);
    hide Sound, Bounded, KraftUpTo, Cost, Total, Times, Inner, Inners, DepthCosts;
    forall m | Rival(f, m) ensures Cost(f, lens, |f|) <= Cost(f, m, |f|) {
      var l :| Placed(l, alive) && PlacedCost(l, w, inner) <= Cost(f, m, |f|);
      TotalAt(Costs(l, w, inner), r, |trees|);
    }
  }
}
