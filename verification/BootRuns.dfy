/** Whole runs of boot manager commands: what every sequence of them keeps. */
module BootRuns {
  import opened Bits
  import opened Optional
  import opened LoadOptions
  import opened BootOrder
  import opened BootPlans

  datatype Call = Call(command: Command, options: Options)

  function RunAll(nv: Nvram, run: seq<Call>): Nvram
    decreases |run|
  {
    if run == [] then nv else RunAll(Step(nv, run[0].command, run[0].options), run[1..])
  }

  predicate Deletes(c: Command) {
    c.Del? || c.BcfgRm?
  }

  /** No deletion stops between its writes, and bcfg add finds a number. */
  ghost predicate Smooth(nv: Nvram, c: Command, o: Options) {
    && (Deletes(c) && PlanOf(nv, c).Some? ==>
      Applied(nv, PlanOf(nv, c).value, Effective(c, o)) in {0, |PlanOf(nv, c).value|})
    && (c.BcfgAdd? ==> HasRoom(nv, c.kind))
  }

  ghost predicate AllSmooth(nv: Nvram, run: seq<Call>)
    decreases |run|
  {
    run == [] || (Wf(run[0].command) && Smooth(nv, run[0].command, run[0].options)
      && AllSmooth(Step(nv, run[0].command, run[0].options), run[1..]))
  }

  lemma StepKeeps(nv: Nvram, c: Command, o: Options)
    requires Good(nv) && Wf(c) && Smooth(nv, c, o)
    ensures Good(Step(nv, c, o))
  {
    hide Good, Wf, PlanOf, HasRoom;
    if PlanOf(nv, c).Some? {
      var p := PlanOf(nv, c).value;
      var n := Applied(nv, p, Effective(c, o));
      assert p[..0] == [];
      if Deletes(c) {
        if n > 0 { DeleteKeeps(nv, c, n); }
      } else {
        PlanKeeps(nv, c, n);
      }
    }
  }

  /** Every run keeps both orders free of duplicates and of entries that do not exist. */
  lemma {:induction false} RunKeeps(nv: Nvram, run: seq<Call>)
    requires Good(nv) && AllSmooth(nv, run)
    ensures Good(RunAll(nv, run))
    decreases |run|
  {
    hide Good, Step, Smooth, Wf;
    if run != [] {
      StepKeeps(nv, run[0].command, run[0].options);
      RunKeeps(Step(nv, run[0].command, run[0].options), run[1..]);
    }
  }

  /** bcfg add does not check that a number is free: with all taken, it names entry 0 once more. */
  lemma BcfgAddExact(nv: Nvram, k: Kind, pos: nat, o: LoadOpt)
    requires Good(nv)
    ensures Good(ApplyAll(nv, PlanOf(nv, BcfgAdd(k, pos, o)).value)) <==> HasRoom(nv, k)
  {
    hide Distinct, InsertAt, FreeFrom, ApplyAll, OrderBytes;
    var at := Clip(pos, |GetOrder(nv, k)|);
    var id := FreeFrom(nv, k, 0);
    var p := PlanAdd(nv, k, id, o, at);
    assert p[..2] == p;
    if HasRoom(nv, k) {
      AddKeeps(nv, k, o, at, 2);
    } else {
      AddedOrder(nv, k, at);
      TwoPrefix(nv, p[0], p[1], 2);
      OrderWritten(Apply(nv, p[0]), k, InsertAt(GetOrder(nv, k), at, id));
    }
  }

  // ---- BootNext ----

  /** BootNext names an entry that exists. */
  ghost predicate NextOk(nv: Nvram) {
    forall id :: NextIs(nv, id) ==> Entry(Boot, id) in nv
  }

  lemma {:induction false} ApplyKeepsEntries(nv: Nvram, p: Plan, k: Kind, id: nat)
    requires Write(Entry(k, id), None) !in p
    requires forall i :: 0 <= i < |p| ==> p[i].data != Some([]) || !p[i].name.Entry?
    requires Entry(k, id) in nv
    ensures Entry(k, id) in ApplyAll(nv, p)
    decreases |p|
  {
    if p != [] {
      var w := p[0];
      assert w in p;
      assert w.name == Entry(k, id) ==> w.data.Some?;
      ApplyKeepsEntries(Apply(nv, w), p[1..], k, id);
    }
  }

  lemma {:induction false} ApplyKeepsNext(nv: Nvram, p: Plan)
    requires forall i :: 0 <= i < |p| ==> p[i].name != BootNext
    ensures BootNext in ApplyAll(nv, p) <==> BootNext in nv
    ensures BootNext in nv ==> ApplyAll(nv, p)[BootNext] == nv[BootNext]
    decreases |p|
  {
    if p != [] {
      ApplyKeepsNext(Apply(nv, p[0]), p[1..]);
    }
  }

  /** Once bootmgr or bcfg has done all it planned, BootNext still names an entry that exists; only
      bcfg rm forgets about it, exactly when it deletes the entry that BootNext names. */
  lemma NextKept(nv: Nvram, c: Command)
    requires NextOk(nv) && Wf(c) && PlanOf(nv, c).Some?
    ensures NextOk(ApplyAll(nv, PlanOf(nv, c).value))
      <==> !(c.BcfgRm? && c.kind == Boot && NextIs(nv, Victim(nv, c)))
  {
    hide NextIs, GetOrder, ApplyAll, NextOk, OrderBytes, Build, IndexOf, RemoveAt, InsertAt, MoveTo, Without, Listed, FreeFrom;
    var p := PlanOf(nv, c).value;
    match c {
      case ClearNext => NextCleared(nv, p);
      case SetNext(id) => NextSet(nv, id);
      case Del(k, id) =>
        if k == Boot && NextIs(nv, id) {
          DelClears(nv, id);
        } else {
          DelSpares(nv, k, id);
        }
      case BcfgRm(k, pos) =>
        if k == Boot && NextIs(nv, Victim(nv, c)) {
          NextDangles(nv, p[1], Victim(nv, c));
        } else {
          NextUntouched(nv, p, k, Victim(nv, c));
        }
      case _ =>
        NoNextWritten(nv, c);
        NextUntouched(nv, p, Driver, MAX_ID + 2);
    }
  }

  /** The other commands do not touch BootNext and delete no entry. */
  lemma NoNextWritten(nv: Nvram, c: Command)
    requires PlanOf(nv, c).Some? && !c.ClearNext? && !c.SetNext? && !c.Del? && !c.BcfgRm?
    ensures var p := PlanOf(nv, c).value; forall i :: 0 <= i < |p| ==>
      p[i].name != BootNext && (p[i].name.Entry? ==> p[i].data.Some? && p[i].data.value != [])
  {
    hide GetOrder, OrderBytes, Build, InsertAt, MoveTo, Without, Listed, FreeFrom;
  }

  lemma DelSpares(nv: Nvram, k: Kind, id: nat)
    requires NextOk(nv) && !(k == Boot && NextIs(nv, id))
    ensures NextOk(ApplyAll(nv, PlanDel(nv, k, id)))
  {
    hide NextIs, GetOrder, ApplyAll, NextOk, OrderBytes, IndexOf, RemoveAt;
    NextUntouched(nv, PlanDel(nv, k, id), k, id);
  }

  lemma DelClears(nv: Nvram, id: nat)
    requires NextIs(nv, id)
    ensures NextOk(ApplyAll(nv, PlanDel(nv, Boot, id)))
  {
    hide NextIs, GetOrder, ApplyAll, NextOk, OrderBytes, IndexOf, RemoveAt;
    var p := PlanDel(nv, Boot, id);
    var head := p[..|p| - 1];
    assert p == head + [Write(BootNext, None)];
    ApplyConcat(nv, head, [Write(BootNext, None)]);
    NextCleared(ApplyAll(nv, head), [Write(BootNext, None)]);
  }

  lemma NextCleared(nv: Nvram, p: Plan)
    requires p == [Write(BootNext, None)]
    ensures NextOk(ApplyAll(nv, p))
  {
    assert p[1..] == [];
  }

  lemma NextSet(nv: Nvram, id: nat)
    requires id <= MAX_ID && Entry(Boot, id) in nv
    ensures NextOk(ApplyAll(nv, [Write(BootNext, Some(OrderBytes([id])))]))
  {
    var b := OrderBytes([id]);
    var nw := Apply(nv, Write(BootNext, Some(b)));
    OnePrefix(nv, Write(BootNext, Some(b)), 1);
    assert [Write(BootNext, Some(b))][..1] == [Write(BootNext, Some(b))];
    LowBits(id);
    assert [id][1..] == [] && b == Le16(id) && b[..2] == b;
    assert nw[BootNext] == b;
  }

  /** Writes that leave BootNext alone and delete at most an entry it does not name. */
  lemma NextUntouched(nv: Nvram, p: Plan, k: Kind, id: nat)
    requires NextOk(nv) && (k == Boot ==> !NextIs(nv, id))
    requires forall i :: 0 <= i < |p| ==> p[i].name != BootNext
    requires forall i :: 0 <= i < |p| && p[i].name.Entry? ==> p[i] == Write(Entry(k, id), None) || (p[i].data.Some? && p[i].data.value != [])
    ensures NextOk(ApplyAll(nv, p))
  {
    var nw := ApplyAll(nv, p);
    ApplyKeepsNext(nv, p);
    forall j | NextIs(nw, j) ensures Entry(Boot, j) in nw {
      assert NextIs(nv, j);
      ApplyKeepsEntries(nv, p, Boot, j);
    }
  }

  lemma NextDangles(nv: Nvram, w: Write, id: nat)
    requires NextIs(nv, id) && w.name.Order?
    ensures !NextOk(ApplyAll(nv, [Write(Entry(Boot, id), None), w]))
  {
    var p := [Write(Entry(Boot, id), None), w];
    TwoPrefix(nv, p[0], p[1], 2);
    assert p[..2] == p;
    var nw := ApplyAll(nv, p);
    assert NextIs(nw, id) && Entry(Boot, id) !in nw;
  }

  // ---- single commands ----

  /** Enabling or disabling an entry changes one bit of it and no other variable. */
  lemma EnableChangesOneBit(nv: Nvram, k: Kind, id: nat, on: bool, o: Options)
    requires Entry(k, id) in nv && Parse(nv[Entry(k, id)]).Some?
    ensures var nw := Step(nv, Rewrite(k, id, Enable(on)), o);
      nw == nv || nw == nv[Entry(k, id) := SetLowest(nv[Entry(k, id)], on)]
  {
    hide Parse, Build;
    var d := nv[Entry(k, id)];
    var c := Rewrite(k, id, Enable(on));
    var p := PlanOf(nv, c).value;
    ActiveBitOnly(d, on);
    OnePrefix(nv, p[0], Applied(nv, p, Effective(c, o)));
  }

  /** bcfg mv moves one element of the order; moving it back restores the order. */
  lemma MvMovesOne(nv: Nvram, k: Kind, pos: nat, to: nat)
    requires var s := GetOrder(nv, k); pos < |s| && to < |s|
    ensures var s := GetOrder(nv, k);
      var nw := ApplyAll(nv, PlanOf(nv, BcfgMv(k, pos, to)).value);
      var r := GetOrder(nw, k);
      && |r| == |s| && r[to] == s[pos] && multiset(r) == multiset(s) && RemoveAt(r, to) == RemoveAt(s, pos)
      && GetOrder(ApplyAll(nw, PlanOf(nw, BcfgMv(k, to, pos)).value), k) == s
      && (forall v :: v != Order(k) ==> (v in nw <==> v in nv) && (v in nv ==> nw[v] == nv[v]))
  {
    hide MoveTo, RemoveAt, OrderBytes, GetOrder;
    var s := GetOrder(nv, k);
    MoveIsPermutation(s, pos, to);
    var r := MoveTo(s, pos, to);
    OrderMoved(nv, k, s, r);
    var nw := Apply(nv, WriteOrder(k, r));
    OrderMoved(nw, k, r, s);
  }

  lemma OrderMoved(nv: Nvram, k: Kind, s: seq<nat>, r: seq<nat>)
    requires GetOrder(nv, k) == s && multiset(r) == multiset(s)
    ensures ApplyAll(nv, [WriteOrder(k, r)]) == Apply(nv, WriteOrder(k, r))
    ensures GetOrder(Apply(nv, WriteOrder(k, r)), k) == r
  {
    OnePrefix(nv, WriteOrder(k, r), 1);
    assert [WriteOrder(k, r)][..1] == [WriteOrder(k, r)];
    forall i | 0 <= i < |r| ensures r[i] <= MAX_ID {
      assert r[i] in multiset(r);
      assert r[i] in s;
    }
    StoredSame(r);
    OrderWritten(nv, k, r);
  }

  /** A dry run changes nothing. */
  lemma DryRun(nv: Nvram, c: Command, o: Options)
    requires o.dry && !c.BcfgAdd? && !c.BcfgRm? && !c.BcfgMv?
    ensures Step(nv, c, o) == nv
  {
    if PlanOf(nv, c).Some? {
      assert PlanOf(nv, c).value[..0] == [];
    }
  }

  // ---- where a promise is broken ----

  /** A machine with every number taken, entry 0 in the boot order. */
  function FullTable(): Nvram {
    (map i: nat | i <= MAX_ID :: Entry(Boot, i) := [1]) + map[Order(Boot) := [0, 0]]
  }

  lemma OrderOfZero(nv: Nvram)
    requires Order(Boot) in nv && nv[Order(Boot)] == [0, 0] && Order(Driver) !in nv
    ensures GetOrder(nv, Boot) == [0] && GetOrder(nv, Driver) == []
  {
    var b: seq<Byte> := [0, 0];
    assert b[..|b| / 2 * 2] == b && b[..2] == b && b[2..] == [];
    assert UnitsIn(b) == [U16(b)] + UnitsIn([]);
  }

  /** bcfg add then breaks the order, whatever it adds and wherever. */
  lemma FullTableBreaks(pos: nat, o: LoadOpt)
    ensures var nv := FullTable();
      Good(nv) && !Good(ApplyAll(nv, PlanOf(nv, BcfgAdd(Boot, pos, o)).value))
  {
    hide PlanOf, ApplyAll;
    var nv := FullTable();
    OrderOfZero(nv);
    assert Good(nv);
    assert forall i: nat :: i <= MAX_ID ==> Entry(Boot, i) in nv;
    assert FreeFrom(nv, Boot, 0) > MAX_ID;
    BcfgAddExact(nv, Boot, pos, o);
  }

  /** BootNext names the only entry, and bcfg rm deletes it. */
  lemma NextLeftBehind()
    ensures var nv: Nvram := map[Entry(Boot, 0) := [1], Order(Boot) := [0, 0], BootNext := [0, 0]];
      var c := BcfgRm(Boot, 0);
      Good(nv) && NextOk(nv) && PlanOf(nv, c).Some? && !NextOk(ApplyAll(nv, PlanOf(nv, c).value))
  {
    hide ApplyAll;
    var nv: Nvram := map[Entry(Boot, 0) := [1], Order(Boot) := [0, 0], BootNext := [0, 0]];
    var c := BcfgRm(Boot, 0);
    OrderOfZero(nv);
    assert nv[BootNext][..2] == [0, 0] && NextIs(nv, 0);
    NextKept(nv, c);
  }
}
