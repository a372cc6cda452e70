/** The commands bootmgr and bcfg as they run: order lists edited in place, plans applied to the boot
    variables write by write. Each does to the variables what its plan says. */
module BootManager {
  import opened Bits
  import opened Optional
  import opened Utf8
  import opened LoadOptions
  import opened BootOrder
  import opened BootPlans
  import opened BootEffects
  import LoadOptionLayout

  lemma {:induction false} UnitAt(b: seq<Byte>, n: nat, i: nat)
    requires |b| == 2 * n && i < n && |b| % 2 == 0
    ensures UnitsIn(b)[i] == U16(b[2 * i..2 * i + 2])
  {
    hide U16;
    if i > 0 {
      var c := b[2..];
      UnitAt(c, n - 1, i - 1);
      var at := 2 * (i - 1);
      assert c[at..at + 2] == b[at + 2..at + 4];
    }
  }

  lemma {:induction false} OrderBytesSnoc(v: seq<nat>, x: nat)
    ensures OrderBytes(v + [x]) == OrderBytes(v) + Le16(x)
  {
    if v == [] {
      assert v + [x] == [x] && [x][1..] == [];
    } else {
      assert (v + [x])[1..] == v[1..] + [x];
      OrderBytesSnoc(v[1..], x);
    }
  }

  lemma {:induction false} WithoutSnoc(v: seq<nat>, y: nat, x: nat)
    ensures Without(v + [y], x) == Without(v, x) + (if y == x then [] else [y])
  {
    if v == [] {
      assert v + [y] == [y] && [y][1..] == [];
    } else {
      assert (v + [y])[1..] == v[1..] + [y];
      WithoutSnoc(v[1..], y, x);
    }
  }

  lemma {:induction false} DoneNext(nv: Nvram, p: Plan, i: nat, failAt: nat)
    requires i < |p| && i < failAt && CanWrite(ApplyAll(nv, p[..i]), p[i])
    requires Done(nv, p, failAt) >= i
    ensures Done(nv, p, failAt) >= i + 1
    ensures ApplyAll(nv, p[..i + 1]) == Apply(ApplyAll(nv, p[..i]), p[i])
    decreases i
  {
    if i == 0 {
      assert p[..1] == [p[0]] && [p[0]][1..] == [] && p[..0] == [];
    } else {
      assert p[..i + 1][1..] == p[1..][..i] && p[..i][1..] == p[1..][..i - 1];
      DoneNext(Apply(nv, p[0]), p[1..], i - 1, failAt - 1);
    }
  }

  lemma {:induction false} DoneStops(nv: Nvram, p: Plan, i: nat, failAt: nat)
    requires i <= |p| && Done(nv, p, failAt) >= i
    requires i == |p| || i >= failAt || !CanWrite(ApplyAll(nv, p[..i]), p[i])
    ensures Done(nv, p, failAt) == i
    decreases i
  {
    if i == 0 {
      assert p[..0] == [];
    } else {
      assert p[..i][1..] == p[1..][..i - 1];
      DoneStops(Apply(nv, p[0]), p[1..], i - 1, failAt - 1);
    }
  }

  class Manager {
    var nv: Nvram

    constructor (initial: Nvram)
      ensures nv == initial
    {
      nv := initial;
    }

    /** Applies a plan unless it is empty, a dry run, cancelled or without its backup. */
    method PlanApply(p: Plan, o: Options) returns (ok: bool)
      modifies this
      ensures nv == Outcome(old(nv), p, o)
      ensures ok <==> p == [] || o.dry || Applied(old(nv), p, o) == |p|
      ensures ok && !o.dry ==> nv == ApplyAll(old(nv), p)
      ensures !Proceeds(o) ==> nv == old(nv)
      ensures Proceeds(o) && o.failAt >= |p| && Possible(old(nv), p) ==> ok
    {
      assert p[..0] == [];
      if p == [] {
        return true;
      }
      if o.dry {
        return true;
      }
      if !o.yes && !o.answer {
        return false;
      }
      if !o.noBackup && !o.backedUp && !o.quiet {
        return false;
      }
      if o.failAt >= |p| && Possible(nv, p) {
        DoneAll(nv, p, o.failAt);
      }
      for i := 0 to |p|
        invariant nv == ApplyAll(old(nv), p[..i]) && Done(old(nv), p, o.failAt) >= i
      {
        if i >= o.failAt || !CanWrite(nv, p[i]) {
          DoneStops(old(nv), p, i, o.failAt);
          return false;
        }
        DoneNext(old(nv), p, i, o.failAt);
        nv := Apply(nv, p[i]);
      }
      DoneStops(old(nv), p, |p|, o.failAt);
      assert p[..|p|] == p;
      return true;
    }

    /** The order variable as a list with room for one more number. */
    method ReadOrder(k: Kind) returns (a: array<nat>, n: nat)
      ensures fresh(a) && a.Length == n + 1 && a[..n] == GetOrder(nv, k)
    {
      hide U16, UnitsIn;
      var d: seq<Byte> := [];
      if Order(k) in nv {
        d := nv[Order(k)];
      }
      n := |d| / 2;
      a := new nat[n + 1](_ => 0);
      ghost var b := d[..2 * n];
      for i := 0 to n
        invariant forall j :: 0 <= j < i ==> a[j] == UnitsIn(b)[j]
      {
        a[i] := U16(d[2 * i..2 * i + 2]);
        UnitAt(b, n, i);
        assert b[2 * i..2 * i + 2] == d[2 * i..2 * i + 2];
      }
      assert a[..n] == UnitsIn(b);
      assert b == [] ==> a[..n] == [];
    }

    /** The write that stores the first n numbers of a list. */
    method OrderWrite(k: Kind, a: array<nat>, n: nat) returns (w: Write)
      requires n <= a.Length
      ensures w == WriteOrder(k, a[..n])
    {
      var d: seq<Byte> := [];
      for i := 0 to n
        invariant d == OrderBytes(a[..i])
      {
        d := d + Le16(a[i]);
        OrderBytesSnoc(a[..i], a[i]);
        assert a[..i + 1] == a[..i] + [a[i]];
      }
      w := Write(Order(k), Some(d));
    }

    method FreeId(k: Kind) returns (id: nat)
      ensures id == FreeFrom(nv, k, 0)
    {
      id := 0;
      while id <= MAX_ID && Entry(k, id) in nv
        invariant id <= MAX_ID + 1 && FreeFrom(nv, k, id) == FreeFrom(nv, k, 0)
      {
        id := id + 1;
      }
    }

    /** bootmgr add: args become the optional data, as UCS-2 with its NUL. */
    method Add(k: Kind, desc: seq<Byte>, dp: seq<Byte>, args: Option<seq<Byte>>, top: bool, o: Options) returns (ok: bool)
      modifies this
      ensures nv == Step(old(nv), Command.Add(k, LoadOpt(ACTIVE, desc, dp, ArgBytes(args)), top), o)
      ensures ok && !o.dry ==>
        AddedSome(old(nv), nv, k, LoadOpt(1, desc, dp, ArgBytes(args)), if top then 0 else |GetOrder(old(nv), k)|)
      ensures Willing(o) ==> (ok <==> SomeFree(old(nv), k))
      ensures Stopped(o) ==> nv == old(nv)
    {
      hide InsertAt, Build, OrderBytes, Outcome, GetOrder, AddedSome, SomeFree, Possible, ApplyAll, Done;
      AddEffect(nv, k, LoadOpt(ACTIVE, desc, dp, ArgBytes(args)), top);
      var id := FreeId(k);
      if id > MAX_ID {
        return false;
      }
      var data := LoBuild(ACTIVE, desc, dp, ArgBytes(args));
      var order, n := ReadOrder(k);
      if top {
        Insert(order, n, 0, id);
      } else {
        assert InsertAt(order[..n], n, id) == order[..n] + [id] by { InsertLast(order[..n], id); }
        order[n] := id;
        assert order[..n + 1] == order[..n] + [id];
      }
      var w := OrderWrite(k, order, n + 1);
      ok := PlanApply([Write(Entry(k, id), Some(data[..])), w], o.(quiet := false));
    }

    /** The writes of a deletion. */
    method DelPlan(k: Kind, id: nat) returns (p: Plan)
      ensures p == PlanDel(nv, k, id)
    {
      hide RemoveAt, OrderBytes, GetOrder;
      p := [Write(Entry(k, id), None)];
      var order, n := ReadOrder(k);
      var i := Find(order, n, id);
      if i < n {
        Delete(order, n, i);
        var w := OrderWrite(k, order, n - 1);
        p := p + [w];
      }
      if k == Boot && NextIs(nv, id) {
        p := p + [Write(BootNext, None)];
      }
    }

    method Del(k: Kind, id: nat, o: Options) returns (ok: bool)
      modifies this
      ensures nv == Step(old(nv), Command.Del(k, id), o)
      ensures ok && !o.dry ==> Deleted(old(nv), nv, k, id)
      ensures Willing(o) ==> (ok <==> Entry(k, id) in old(nv))
      ensures Stopped(o) ==> nv == old(nv)
    {
      hide PlanDel, Outcome, Deleted, Possible, ApplyAll, Done;
      DelPossible(nv, k, id);
      if Entry(k, id) !in nv {
        return false;
      }
      DelEffect(nv, k, id);
      var p := DelPlan(k, id);
      DelNotEmpty(nv, k, id);
      ok := PlanApply(p, o.(quiet := false));
    }

    /** bootmgr enable, disable and edit. */
    method Rewrite(k: Kind, id: nat, change: Change, o: Options) returns (ok: bool)
      modifies this
      ensures nv == Step(old(nv), Command.Rewrite(k, id, change), o)
      ensures ok && !o.dry ==> Rewrote(old(nv), nv, k, id, change)
      ensures Willing(o) ==> (ok <==> Rewritable(old(nv), k, id, change))
      ensures Stopped(o) ==> nv == old(nv)
    {
      hide Build, Parse, Outcome, Rewrote, Possible, ApplyAll, Done;
      RewriteEffect(nv, k, id, change);
      if Entry(k, id) !in nv {
        return false;
      }
      var r := LoParse(nv[Entry(k, id)]);
      if r.None? || change == Fields(None, None, None) {
        return false;
      }
      var c := Changed(r.value, change);
      var data := LoBuild(c.attr, c.desc, c.dp, c.opt);
      ok := PlanApply([Write(Entry(k, id), Some(data[..]))], o.(quiet := false));
    }

    /** Reads a list of numbers, all of entries that exist, each once. */
    method ReadList(k: Kind, ids: seq<Option<nat>>) returns (nw: array<nat>, n: nat, ok: bool)
      ensures n <= nw.Length && ok == Listed(nv, k, ids, []).Some? && (ok ==> Listed(nv, k, ids, []) == Some(nw[..n]))
    {
      nw := new nat[|ids|](_ => 0);
      n := 0;
      ok := true;
      assert ids[0..] == ids && nw[..0] == [];
      for i := 0 to |ids|
        invariant n <= i && (ok ==> Listed(nv, k, ids[i..], nw[..n]) == Listed(nv, k, ids, []))
        invariant !ok ==> Listed(nv, k, ids, []) == None
      {
        assert ids[i..][1..] == ids[i + 1..];
        if ids[i].None? || Entry(k, ids[i].value) !in nv {
          ok := false;
        } else {
          var id := ids[i].value;
          var at := Find(nw, n, id);
          assert nw[..n][..at] == nw[..at];
          if at < n {
            assert id in nw[..n];
            ok := false;
          } else {
            assert id !in nw[..n];
          }
          nw[n] := id;
          assert nw[..n + 1] == nw[..n] + [id];
          n := n + 1;
        }
      }
    }

    /** bootmgr order with a list: every number must name an entry, and only once. */
    method SetOrder(k: Kind, ids: seq<Option<nat>>, o: Options) returns (ok: bool)
      modifies this
      ensures nv == Step(old(nv), Command.SetOrder(k, ids), o)
      ensures InRange(ids) && ok && !o.dry ==> Proper(old(nv), k, ids) && Ordered(old(nv), nv, k, Numbers(ids))
      ensures InRange(ids) && Willing(o) ==> (ok <==> Proper(old(nv), k, ids) && (ids == [] ==> Order(k) in old(nv)))
      ensures Stopped(o) ==> nv == old(nv)
    {
      hide OrderBytes, Outcome, Ordered, Proper, Possible, ApplyAll, Listed, InRange;
      if InRange(ids) {
        SetOrderEffect(nv, k, ids);
      }
      var nw, n;
      nw, n, ok := ReadList(k, ids);
      if !ok {
        return;
      }
      var w := OrderWrite(k, nw, n);
      ok := PlanApply([w], o.(quiet := false));
    }

    /** The order with the number in front. */
    method TopOrder(k: Kind, id: nat) returns (w: Write)
      ensures w == WriteOrder(k, [id] + Without(GetOrder(nv, k), id))
    {
      hide OrderBytes, GetOrder;
      var order, n := ReadOrder(k);
      var nw := new nat[n + 1](_ => 0);
      nw[0] := id;
      var nn := 1;
      assert order[..0] == [] && nw[..1] == [id] + [];
      for i := 0 to n
        invariant 1 <= nn <= i + 1 && nw[..nn] == [id] + Without(order[..i], id)
        invariant order[..n] == GetOrder(nv, k) && nv == old(nv)
      {
        WithoutSnoc(order[..i], order[i], id);
        assert order[..i + 1] == order[..i] + [order[i]];
        if order[i] != id {
          nw[nn] := order[i];
          assert nw[..nn + 1] == nw[..nn] + [order[i]];
          nn := nn + 1;
        }
      }
      w := OrderWrite(k, nw, nn);
    }

    method Top(k: Kind, id: nat, o: Options) returns (ok: bool)
      modifies this
      ensures nv == Step(old(nv), Command.Top(k, id), o)
      ensures id <= 0xFFFF && ok && !o.dry ==> Topped(old(nv), nv, k, id)
      ensures Willing(o) ==> (ok <==> Entry(k, id) in old(nv))
      ensures Stopped(o) ==> nv == old(nv)
    {
      hide OrderBytes, Outcome, GetOrder, Topped, Possible, ApplyAll, Done;
      if Entry(k, id) !in nv {
        return false;
      }
      TopPossible(nv, k, id);
      if id <= 0xFFFF {
        TopEffect(nv, k, id);
      }
      var w := TopOrder(k, id);
      ok := PlanApply([w], o.(quiet := false));
    }

    /** bootmgr next: no target deletes BootNext. */
    method Next(target: Option<nat>, o: Options) returns (ok: bool)
      modifies this
      ensures nv == Step(old(nv), if target.Some? then Command.SetNext(target.value) else Command.ClearNext, o)
      ensures (target.Some? ==> target.value <= 0xFFFF) && ok && !o.dry ==> NextSet(old(nv), nv, target)
      ensures Willing(o) ==> (ok <==> target.Some? ==> Entry(Boot, target.value) in old(nv))
      ensures o.dry || (!o.noBackup && !o.backedUp) ==> nv == old(nv)
    {
      hide NextSet, Possible, ApplyAll, Outcome, Done;
      NextPossible(nv, target);
      if target.Some? ==> target.value <= 0xFFFF {
        NextEffect(nv, target);
      }
      var q := o.(yes := true, quiet := false);
      if target.None? {
        ok := PlanApply([Write(BootNext, None)], q);
        return;
      }
      if Entry(Boot, target.value) !in nv {
        return false;
      }
      var d := Le16(target.value);
      assert [target.value][1..] == [] && OrderBytes([target.value]) == d;
      ok := PlanApply([Write(BootNext, Some(d))], q);
    }

    method BcfgAdd(k: Kind, pos: nat, desc: seq<Byte>, dp: seq<Byte>, o: Options) returns (ok: bool)
      modifies this
      ensures nv == Step(old(nv), Command.BcfgAdd(k, pos, LoadOpt(ACTIVE, desc, dp, [])), o)
      ensures ok ==>
        var at := if pos < |GetOrder(old(nv), k)| then pos else |GetOrder(old(nv), k)|;
        if SomeFree(old(nv), k) then AddedSome(old(nv), nv, k, LoadOpt(1, desc, dp, []), at) else AddedTooMany(old(nv), nv, k, at)
      ensures o.failAt >= 3 ==> ok
    {
      hide InsertAt, Build, OrderBytes, Outcome, GetOrder, AddedSome, AddedTooMany, SomeFree, Possible, ApplyAll, Done;
      BcfgAddEffect(nv, k, pos, LoadOpt(ACTIVE, desc, dp, []));
      var id := FreeId(k);
      var data := LoBuild(ACTIVE, desc, dp, []);
      var order, n := ReadOrder(k);
      var at := if pos > n then n else pos;
      Insert(order, n, at, id);
      var w := OrderWrite(k, order, n + 1);
      ok := PlanApply([Write(Entry(k, id), Some(data[..])), w], Bcfg(o));
    }

    method BcfgRm(k: Kind, pos: nat, o: Options) returns (ok: bool)
      modifies this
      ensures nv == Step(old(nv), Command.BcfgRm(k, pos), o)
      ensures ok ==> Dropped(old(nv), nv, k, pos)
      ensures o.failAt >= 3 ==> (ok <==> pos < |GetOrder(old(nv), k)|)
    {
      hide RemoveAt, OrderBytes, Outcome, GetOrder, Dropped, Possible, ApplyAll, Done;
      if pos < |GetOrder(nv, k)| {
        RmEffect(nv, k, pos);
      }
      var order, n := ReadOrder(k);
      if pos >= n {
        return false;
      }
      var id := order[pos];
      assert id == GetOrder(nv, k)[pos];
      Delete(order, n, pos);
      var w := OrderWrite(k, order, n - 1);
      ok := PlanApply([Write(Entry(k, id), None), w], Bcfg(o));
    }

    method BcfgMv(k: Kind, pos: nat, to: nat, o: Options) returns (ok: bool)
      modifies this
      ensures nv == Step(old(nv), Command.BcfgMv(k, pos, to), o)
      ensures ok ==> Moved(old(nv), nv, k, pos, to)
      ensures o.failAt >= 3 ==> (ok <==> pos < |GetOrder(old(nv), k)| && to < |GetOrder(old(nv), k)|)
    {
      hide MoveTo, OrderBytes, Outcome, GetOrder, Moved, Possible, ApplyAll, Done;
      if pos < |GetOrder(nv, k)| && to < |GetOrder(nv, k)| {
        MvEffect(nv, k, pos, to);
      }
      var order, n := ReadOrder(k);
      if pos >= n || to >= n {
        return false;
      }
      Move(order, n, pos, to);
      var w := OrderWrite(k, order, n);
      ok := PlanApply([w], Bcfg(o));
    }
  }

  function Bcfg(o: Options): Options {
    o.(dry := false, yes := true, noBackup := false, quiet := true)
  }

  /** Arguments as optional data. */
  function ArgBytes(args: Option<seq<Byte>>): seq<Byte> {
    if args.None? then [] else UnitBytes(Units(args.value)) + [0, 0]
  }

  /** They are stored as units of two bytes, low byte first, with a NUL at the end. */
  lemma ArgLaw(args: seq<Byte>)
    ensures ArgBytes(None) == [] && |ArgBytes(Some(args))| == 2 * |Units(args)| + 2
    ensures var d, u := ArgBytes(Some(args)), Units(args);
      (forall i :: 0 <= i < |u| ==> d[2 * i] == u[i] % 256 && d[2 * i + 1] == u[i] / 256) && d[|d| - 2] == 0 && d[|d| - 1] == 0
  {
    forall i | 0 <= i < |Units(args)|
      ensures var d, u := ArgBytes(Some(args)), Units(args); d[2 * i] == u[i] % 256 && d[2 * i + 1] == u[i] / 256
    {
      LoadOptionLayout.UnitBytesAt(Units(args), i);
    }
  }

  lemma InsertLast(s: seq<nat>, x: nat)
    ensures InsertAt(s, |s|, x) == s + [x]
  {
  }
}
