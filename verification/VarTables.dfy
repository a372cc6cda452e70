/** The hash tables that hold the variables of a frame, or the globals: a table is a map from names to
    variables, also while it grows. */
module VarTables {
  import opened BasicValues
  import opened Optional
  import opened Semantics

  datatype Entry = Entry(name: string, cell: Cell)

  function Hash(s: string, h: bv32): bv32
    decreases |s|
  {
    if s == "" then h else Hash(s[1..], (h ^ ((s[0] as int % 256) as bv32)) * 16777619)
  }

  /** The chain a name belongs to when there are n chains. */
  function Slot(name: string, n: nat): (i: nat)
    requires n > 0
    ensures i < n
  {
    Hash(name, 2166136261) as nat % n
  }

  predicate HasName(chain: seq<Entry>, name: string) {
    exists k :: 0 <= k < |chain| && chain[k].name == name
  }

  /** The chains hold the variables of m: each once, in the chain of its name. */
  ghost predicate Holds(b: seq<seq<Entry>>, m: Table) {
    && (forall i, k :: 0 <= i < |b| && 0 <= k < |b[i]| ==> EntryOk(b[i][k], i, |b|, m))
    && (forall i, k, l :: 0 <= i < |b| && 0 <= k < l < |b[i]| ==> b[i][k].name != b[i][l].name)
    && (forall n :: n in m ==> |b| > 0 && HasName(b[Slot(n, |b|)], n))
  }

  ghost predicate EntryOk(e: Entry, i: nat, n: nat, m: Table) {
    n > 0 && Slot(e.name, n) == i && e.name in m && m[e.name] == e.cell
  }

  lemma HoldsNothing(n: nat)
    ensures Holds(seq(n, i => []), map[])
  {
  }

  /** A new name goes to the front of its chain. */
  lemma HoldsOneMore(b: seq<seq<Entry>>, m: Table, e: Entry)
    requires Holds(b, m) && |b| > 0 && e.name !in m
    ensures Holds(b[Slot(e.name, |b|) := [e] + b[Slot(e.name, |b|)]], m[e.name := e.cell])
  {
    hide Slot;
    var h := Slot(e.name, |b|);
    var c, w := b[h := [e] + b[h]], m[e.name := e.cell];
    forall i, k | 0 <= i < |c| && 0 <= k < |c[i]| ensures EntryOk(c[i][k], i, |c|, w) {
      if i != h {
        assert EntryOk(b[i][k], i, |b|, m);
      } else if k > 0 {
        assert c[i][k] == b[i][k - 1] && EntryOk(b[i][k - 1], i, |b|, m);
      }
    }
    forall i, k, l | 0 <= i < |c| && 0 <= k < l < |c[i]| ensures c[i][k].name != c[i][l].name {
      if i == h {
        assert c[i][l] == b[i][l - 1] && EntryOk(b[i][l - 1], i, |b|, m);
        if k > 0 {
          assert c[i][k] == b[i][k - 1];
        }
      }
    }
    forall n | n in w ensures HasName(c[Slot(n, |c|)], n) {
      if n == e.name {
        assert c[h][0].name == n;
      } else {
        assert HasName(b[Slot(n, |b|)], n);
        var k :| 0 <= k < |b[Slot(n, |b|)]| && b[Slot(n, |b|)][k].name == n;
        assert Slot(n, |b|) == h ==> c[h][k + 1] == b[h][k];
      }
    }
  }

  /** A variable gets another value. */
  lemma HoldsChanged(b: seq<seq<Entry>>, m: Table, i: nat, k: nat, c: Cell)
    requires Holds(b, m) && i < |b| && k < |b[i]|
    ensures var e := Entry(b[i][k].name, c);
      Holds(b[i := b[i][k := e]], m[e.name := c])
  {
    hide Slot;
    var e := Entry(b[i][k].name, c);
    assert EntryOk(b[i][k], i, |b|, m);
    var d, w := b[i := b[i][k := e]], m[e.name := c];
    forall p, q | 0 <= p < |d| && 0 <= q < |d[p]| ensures EntryOk(d[p][q], p, |d|, w) {
      assert EntryOk(b[p][q], p, |b|, m);
      assert p == i && q != k ==> b[p][q].name != e.name;
    }
    forall p, q, r | 0 <= p < |d| && 0 <= q < r < |d[p]| ensures d[p][q].name != d[p][r].name {
      assert b[p][q].name != b[p][r].name;
    }
    forall n | n in w ensures HasName(d[Slot(n, |d|)], n) {
      assert HasName(b[Slot(n, |b|)], n);
      var q :| 0 <= q < |b[Slot(n, |b|)]| && b[Slot(n, |b|)][q].name == n;
      assert d[Slot(n, |d|)][q].name == n;
    }
  }

  class VarTable {
    var b: array<seq<Entry>>
    var count: nat
    ghost var contents: Table

    ghost predicate Valid()
      reads this, b
    {
      Holds(b[..], contents)
    }

    constructor ()
      ensures Valid() && contents == map[] && fresh(b)
    {
      b := new seq<Entry>[0];
      count := 0;
      contents := map[];
    }

    /** The chain and the place in it of a name. */
    method Locate(name: string) returns (found: bool, i: nat, k: nat)
      requires Valid()
      ensures found <==> name in contents
      ensures found ==> i < b.Length && k < |b[i]| && b[i][k].name == name && b[i][k].cell == contents[name]
    {
      hide Slot;
      found, i, k := false, 0, 0;
      if b.Length == 0 {
        assert forall n :: n in contents ==> |b[..]| > 0;
        return;
      }
      i := Slot(name, b.Length);
      while k < |b[i]|
        invariant k <= |b[i]| && forall q :: 0 <= q < k ==> b[i][q].name != name
      {
        if b[i][k].name == name {
          assert EntryOk(b[..][i][k], i, b.Length, contents);
          return true, i, k;
        }
        k := k + 1;
      }
      assert !HasName(b[i], name) && b[..][i] == b[i];
    }

    /** vt_find. */
    method Find(name: string) returns (c: Option<Cell>)
      requires Valid()
      ensures c == if name in contents then Some(contents[name]) else None
    {
      var found, i, k := Locate(name);
      c := if found then Some(b[i][k].cell) else None;
    }

    /** Stores through what vt_find returned. */
    method Set(name: string, c: Cell)
      requires Valid() && name in contents
      modifies this, b
      ensures Valid() && contents == old(contents)[name := c] && b == old(b)
    {
      var found, i, k := Locate(name);
      HoldsChanged(b[..], contents, i, k, c);
      ghost var want := b[..][i := b[i][k := Entry(name, c)]];
      b[i] := b[i][k := Entry(name, c)];
      contents := contents[name := c];
      assert b[..] == want;
    }

    /** vt_add: a new name, with the zero of its type. */
    method Add(name: string)
      requires Valid() && name !in contents
      modifies this, b
      ensures Valid() && contents == old(contents)[name := Cell(false, Zero(name), [])] && (b == old(b) || fresh(b))
    {
      if count >= b.Length * 2 {
        Grow(if b.Length > 0 then b.Length * 4 else 16);
      }
      Push(name);
    }

    /** Stores a variable, new or not. */
    method Put(name: string, c: Cell)
      requires Valid()
      modifies this, b
      ensures Valid() && contents == old(contents)[name := c] && (b == old(b) || fresh(b))
    {
      hide Holds, Slot;
      var found := Find(name);
      if found == None {
        Add(name);
      }
      Set(name, c);
    }

    method Push(name: string)
      requires Valid() && name !in contents && b.Length > 0
      modifies this`contents, this`count, b
      ensures Valid() && contents == old(contents)[name := Cell(false, Zero(name), [])]
    {
      hide Slot;
      var e := Entry(name, Cell(false, Zero(name), []));
      var h := Slot(name, b.Length);
      HoldsOneMore(b[..], contents, e);
      ghost var want := b[..][h := [e] + b[h]];
      b[h] := [e] + b[h];
      contents := contents[name := e.cell];
      count := count + 1;
      assert b[..] == want;
    }

    /** Moves every variable to its chain among nb chains. */
    method Grow(nb: nat)
      requires Valid() && nb > 0
      modifies this`b
      ensures Valid() && fresh(b) && b.Length == nb
    {
      hide Slot, Holds;
      var c := new seq<Entry>[nb](_ => []);
      ghost var moved: Table := map[];
      HoldsNothing(nb);
      assert c[..] == seq(nb, i => []);
      for i := 0 to b.Length
        invariant Holds(c[..], moved) && Moved(b[..], contents, moved, i, 0)
        invariant b == old(b) && b != c && b[..] == old(b[..])
      {
        for k := 0 to |b[i]|
          invariant Holds(c[..], moved) && Moved(b[..], contents, moved, i, k)
          invariant b == old(b) && b != c && b[..] == old(b[..])
        {
          var e := b[i][k];
          var h := Slot(e.name, nb);
          MoveOne(b[..], contents, moved, i, k);
          HoldsOneMore(c[..], moved, e);
          ghost var want := c[..][h := [e] + c[h]];
          c[h] := [e] + c[h];
          moved := moved[e.name := e.cell];
          assert c[..] == want;
        }
        ChainDone(b[..], contents, moved, i);
      }
      AllMoved(b[..], contents, moved);
      b := c;
    }
  }

  /** moved holds the variables of the chains before the i-th and the first k of the i-th. */
  ghost predicate Moved(b: seq<seq<Entry>>, m: Table, moved: Table, i: nat, k: nat) {
    && i <= |b| && (if i < |b| then k <= |b[i]| else k == 0)
    && (forall p, q :: 0 <= p < |b| && 0 <= q < |b[p]| ==>
      (Before(p, q, i, k) <==> b[p][q].name in moved))
    && (forall n :: n in moved ==> n in m && moved[n] == m[n])
  }

  predicate Before(p: nat, q: nat, i: nat, k: nat) {
    p < i || (p == i && q < k)
  }

  lemma MoveOne(b: seq<seq<Entry>>, m: Table, moved: Table, i: nat, k: nat)
    requires Holds(b, m) && Moved(b, m, moved, i, k) && i < |b| && k < |b[i]|
    ensures b[i][k].name !in moved
    ensures Moved(b, m, moved[b[i][k].name := b[i][k].cell], i, k + 1)
  {
    hide Slot;
    var e := b[i][k];
    assert EntryOk(e, i, |b|, m);
    var w := moved[e.name := e.cell];
    forall p, q | 0 <= p < |b| && 0 <= q < |b[p]| ensures Before(p, q, i, k + 1) <==> b[p][q].name in w {
      assert EntryOk(b[p][q], p, |b|, m);
      assert Before(p, q, i, k) <==> b[p][q].name in moved;
      if p == i && q < k {
        assert b[p][q].name != b[i][k].name;
      } else if p == i && q > k {
        assert b[i][k].name != b[p][q].name;
      }
    }
  }

  lemma ChainDone(b: seq<seq<Entry>>, m: Table, moved: Table, i: nat)
    requires i < |b| && Moved(b, m, moved, i, |b[i]|)
    ensures Moved(b, m, moved, i + 1, 0)
  {
    forall p, q | 0 <= p < |b| && 0 <= q < |b[p]| ensures Before(p, q, i + 1, 0) <==> b[p][q].name in moved {
      assert Before(p, q, i, |b[i]|) <==> b[p][q].name in moved;
    }
  }

  lemma AllMoved(b: seq<seq<Entry>>, m: Table, moved: Table)
    requires Holds(b, m) && Moved(b, m, moved, |b|, 0)
    ensures moved == m
  {
    hide Slot;
    forall n | n in m ensures n in moved {
      var p := Slot(n, |b|);
      assert HasName(b[p], n);
      var q :| 0 <= q < |b[p]| && b[p][q].name == n;
      assert Before(p, q, |b|, 0);
    }
    assert moved.Keys == m.Keys;
  }
}
