/** What each command of the boot manager, once it is done, has changed in the boot variables: read back
    as load options and as orders, whatever it planned and wrote. */
module BootEffects {
  import opened Bits
  import opened Utf8
  import opened Optional
  import opened LoadOptions
  import opened BootOrder
  import opened BootPlans

  /** No variable but those named differs. */
  ghost predicate SameBut(nv: Nvram, nw: Nvram, names: set<Var>) {
    forall v :: v !in names ==> (v in nw <==> v in nv) && (v in nv ==> nw[v] == nv[v])
  }

  /** An order variable holds 16-bit numbers, low byte first. */
  lemma OrderLaw(nv: Nvram, k: Kind)
    ensures Order(k) !in nv ==> GetOrder(nv, k) == []
    ensures Order(k) in nv ==> |GetOrder(nv, k)| == |nv[Order(k)]| / 2
    ensures Order(k) in nv ==> forall i :: 0 <= i < |GetOrder(nv, k)| ==>
      GetOrder(nv, k)[i] == nv[Order(k)][2 * i] as int + 256 * (nv[Order(k)][2 * i + 1] as int)
  {
    if Order(k) in nv {
      var d := nv[Order(k)];
      var b := d[..|d| / 2 * 2];
      forall i | 0 <= i < |d| / 2 ensures UnitsIn(b)[i] == d[2 * i] as int + 256 * (d[2 * i + 1] as int) {
        UnitIs(b, i);
      }
    }
  }

  lemma {:induction false} UnitIs(b: seq<Byte>, i: nat)
    requires |b| % 2 == 0 && 2 * i < |b|
    ensures UnitsIn(b)[i] == b[2 * i] as int + 256 * (b[2 * i + 1] as int)
  {
    if i > 0 {
      UnitIs(b[2..], i - 1);
    }
  }

  // ---- edit, enable and disable ----

  /** A description, a device path and data that can be stored, where they are given. */
  predicate FieldsOk(desc: Option<seq<Byte>>, dp: Option<seq<Byte>>) {
    (desc.Some? ==> IsBmp(desc.value)) && (dp.Some? ==> DevPath(dp.value) && |dp.value| < 65536)
  }

  /** The entry has the given fields, and as before the others; no other variable is changed. */
  ghost predicate Edited(nv: Nvram, nw: Nvram, k: Kind, id: nat, desc: Option<seq<Byte>>, opt: Option<seq<Byte>>, dp: Option<seq<Byte>>) {
    && Entry(k, id) in nv && Entry(k, id) in nw && SameBut(nv, nw, {Entry(k, id)}) && Parse(nv[Entry(k, id)]).Some?
    && (FieldsOk(desc, dp) ==>
      Parse(nw[Entry(k, id)]).Some? && Fielded(Parse(nv[Entry(k, id)]).value, Parse(nw[Entry(k, id)]).value, desc, opt, dp))
  }

  predicate Fielded(was: LoadOpt, now: LoadOpt, desc: Option<seq<Byte>>, opt: Option<seq<Byte>>, dp: Option<seq<Byte>>) {
    && now.attr == was.attr
    && now.desc == (if desc.Some? then desc.value else was.desc)
    && now.dp == (if dp.Some? then dp.value else was.dp)
    && now.opt == (if opt.Some? then opt.value else was.opt)
  }

  /** The lowest bit of the attributes is set or cleared, and nothing else is changed. */
  ghost predicate Switched(nv: Nvram, nw: Nvram, k: Kind, id: nat, on: bool) {
    && Entry(k, id) in nv && Entry(k, id) in nw && SameBut(nv, nw, {Entry(k, id)})
    && Parse(nv[Entry(k, id)]).Some? && Parse(nw[Entry(k, id)]).Some?
    && var was, now := Parse(nv[Entry(k, id)]).value, Parse(nw[Entry(k, id)]).value;
      && now.attr / 2 == was.attr / 2 && now.attr % 2 == (if on then 1 else 0)
      && now.desc == was.desc && now.dp == was.dp && now.opt == was.opt
  }

  lemma Rewritten(nv: Nvram, k: Kind, id: nat, o: LoadOpt)
    ensures var nw := ApplyAll(nv, [Write(Entry(k, id), Some(Build(o)))]);
      Entry(k, id) in nw && nw[Entry(k, id)] == Build(o) && SameBut(nv, nw, {Entry(k, id)})
  {
    hide Build;
    var w := Write(Entry(k, id), Some(Build(o)));
    OnePrefix(nv, w, 1);
    assert [w][..1] == [w];
  }

  /** A rewritten entry, whatever was asked for. */
  ghost predicate Rewrote(nv: Nvram, nw: Nvram, k: Kind, id: nat, c: Change) {
    match c
    case Enable(on) => Switched(nv, nw, k, id, on)
    case Fields(desc, opt, dp) => Edited(nv, nw, k, id, desc, opt, dp)
  }

  /** The entry is there and can be read, and something is to be changed. */
  predicate Rewritable(nv: Nvram, k: Kind, id: nat, c: Change) {
    Entry(k, id) in nv && Parse(nv[Entry(k, id)]).Some? && c != Fields(None, None, None)
  }

  lemma RewriteEffect(nv: Nvram, k: Kind, id: nat, c: Change)
    ensures PlanOf(nv, Command.Rewrite(k, id, c)).Some? <==> Rewritable(nv, k, id, c)
    ensures Rewritable(nv, k, id, c) ==> Possible(nv, PlanOf(nv, Command.Rewrite(k, id, c)).value)
    ensures Rewritable(nv, k, id, c) ==>
      Rewrote(nv, ApplyAll(nv, PlanOf(nv, Command.Rewrite(k, id, c)).value), k, id, c)
  {
    hide Parse, Build, Switched, Edited, ApplyAll;
    if Rewritable(nv, k, id, c) {
      PossibleOne(nv, PlanOf(nv, Command.Rewrite(k, id, c)).value[0]);
      match c
      case Enable(on) => SwitchEffect(nv, k, id, on);
      case Fields(desc, opt, dp) => EditEffect(nv, k, id, desc, opt, dp);
    }
  }

  lemma EditEffect(nv: Nvram, k: Kind, id: nat, desc: Option<seq<Byte>>, opt: Option<seq<Byte>>, dp: Option<seq<Byte>>)
    requires PlanOf(nv, Rewrite(k, id, Fields(desc, opt, dp))).Some?
    ensures Edited(nv, ApplyAll(nv, PlanOf(nv, Rewrite(k, id, Fields(desc, opt, dp))).value), k, id, desc, opt, dp)
  {
    hide Build, Parse, ApplyAll, SameBut, DevPath, IsBmp;
    var d := nv[Entry(k, id)];
    ParsedIsStorable(d);
    var o := Changed(Parse(d).value, Fields(desc, opt, dp));
    Rewritten(nv, k, id, o);
    if FieldsOk(desc, dp) {
      StorableParses(o);
    }
  }

  lemma SwitchEffect(nv: Nvram, k: Kind, id: nat, on: bool)
    requires PlanOf(nv, Rewrite(k, id, Enable(on))).Some?
    ensures Switched(nv, ApplyAll(nv, PlanOf(nv, Rewrite(k, id, Enable(on))).value), k, id, on)
  {
    hide Build, Parse, ApplyAll, SameBut, DevPath, IsBmp;
    var d := nv[Entry(k, id)];
    ParsedIsStorable(d);
    var o := Changed(Parse(d).value, Enable(on));
    Rewritten(nv, k, id, o);
    StorableParses(o);
  }

  // ---- add ----

  /** The lowest number that no entry has. */
  ghost predicate Free(nv: Nvram, k: Kind, id: nat) {
    id <= 0xFFFF && Entry(k, id) !in nv && forall j: nat :: j < id ==> Entry(k, j) in nv
  }

  /** A new entry with the lowest free number holds o, and the number is in the order at position pos;
      no other variable is changed. */
  ghost predicate Added(nv: Nvram, nw: Nvram, k: Kind, id: nat, o: LoadOpt, pos: nat) {
    var s := GetOrder(nv, k);
    && Free(nv, k, id) && Entry(k, id) in nw && SameBut(nv, nw, {Entry(k, id), Order(k)})
    && (o.attr < 0x1_0000_0000 && FieldsOk(Some(o.desc), Some(o.dp)) ==> Parse(nw[Entry(k, id)]) == Some(o))
    && pos <= |s| && GetOrder(nw, k) == s[..pos] + [id] + s[pos..]
  }

  ghost predicate AddedSome(nv: Nvram, nw: Nvram, k: Kind, o: LoadOpt, pos: nat) {
    exists id :: Added(nv, nw, k, id, o, pos)
  }

  ghost predicate SomeFree(nv: Nvram, k: Kind) {
    exists id: nat :: id <= 0xFFFF && Entry(k, id) !in nv
  }

  lemma SomeFreeIs(nv: Nvram, k: Kind)
    ensures SomeFree(nv, k) <==> FreeFrom(nv, k, 0) <= 0xFFFF
  {
  }

  lemma PlanAdds(nv: Nvram, k: Kind, id: nat, o: LoadOpt, pos: nat)
    requires id <= 0xFFFF && pos <= |GetOrder(nv, k)| && Free(nv, k, id)
    ensures Added(nv, ApplyAll(nv, PlanAdd(nv, k, id, o, pos)), k, id, o, pos)
  {
    hide Build, Parse, ApplyAll, OrderBytes, DevPath, IsBmp, Free;
    var s := GetOrder(nv, k);
    var p := PlanAdd(nv, k, id, o, pos);
    var v := InsertAt(s, pos, id);
    var nx := Apply(nv, p[0]);
    TwoPrefix(nv, p[0], p[1], 2);
    assert p[..2] == p;
    var nw := ApplyAll(nv, p);
    assert nw == Apply(nx, WriteOrder(k, v));
    OrderWritten(nx, k, v);
    StoredSame(v);
    hide GetOrder;
    assert nw[Entry(k, id)] == Build(o);
    if o.attr < 0x1_0000_0000 && FieldsOk(Some(o.desc), Some(o.dp)) {
      StorableParses(o);
    }
  }

  lemma FreeIs(nv: Nvram, k: Kind, id: nat)
    ensures Free(nv, k, id) <==> id == FreeFrom(nv, k, 0) && id <= 0xFFFF
  {
    var f := FreeFrom(nv, k, 0);
  }

  lemma AddEffect(nv: Nvram, k: Kind, o: LoadOpt, top: bool)
    ensures PlanOf(nv, Command.Add(k, o, top)).Some? <==> SomeFree(nv, k)
    ensures SomeFree(nv, k) ==> Possible(nv, PlanOf(nv, Command.Add(k, o, top)).value)
    ensures SomeFree(nv, k) ==>
      AddedSome(nv, ApplyAll(nv, PlanOf(nv, Command.Add(k, o, top)).value), k, o, if top then 0 else |GetOrder(nv, k)|)
  {
    SomeFreeIs(nv, k);
    if SomeFree(nv, k) {
      AddedEffect(nv, k, o, top);
    }
  }

  lemma AddedEffect(nv: Nvram, k: Kind, o: LoadOpt, top: bool)
    requires FreeFrom(nv, k, 0) <= 0xFFFF
    ensures Possible(nv, PlanOf(nv, Command.Add(k, o, top)).value)
    ensures AddedSome(nv, ApplyAll(nv, PlanOf(nv, Command.Add(k, o, top)).value), k, o, if top then 0 else |GetOrder(nv, k)|)
  {
    var id := FreeFrom(nv, k, 0);
    FreeIs(nv, k, id);
    var p := PlanOf(nv, Command.Add(k, o, top)).value;
    PossibleTwo(nv, p[0], p[1]);
    hide Added, PlanAdd, ApplyAll, GetOrder;
    PlanAdds(nv, k, id, o, if top then 0 else |GetOrder(nv, k)|);
  }

  /** bcfg add when no number is free: a variable behind the last number, and number 0 once more in the order. */
  ghost predicate AddedTooMany(nv: Nvram, nw: Nvram, k: Kind, pos: nat) {
    var s := GetOrder(nv, k);
    && (forall j: nat :: j <= 0xFFFF ==> Entry(k, j) in nv) && SameBut(nv, nw, {Entry(k, 0x1_0000), Order(k)})
    && pos <= |s| && GetOrder(nw, k) == s[..pos] + [0] + s[pos..]
  }

  lemma BcfgAddEffect(nv: Nvram, k: Kind, pos: nat, o: LoadOpt)
    ensures PlanOf(nv, BcfgAdd(k, pos, o)).Some? && Possible(nv, PlanOf(nv, BcfgAdd(k, pos, o)).value)
    ensures var nw := ApplyAll(nv, PlanOf(nv, BcfgAdd(k, pos, o)).value);
      var at := if pos < |GetOrder(nv, k)| then pos else |GetOrder(nv, k)|;
      if SomeFree(nv, k) then AddedSome(nv, nw, k, o, at) else AddedTooMany(nv, nw, k, at)
  {
    var p := PlanOf(nv, BcfgAdd(k, pos, o)).value;
    PossibleTwo(nv, p[0], p[1]);
    hide Possible;
    SomeFreeIs(nv, k);
    var id := FreeFrom(nv, k, 0);
    FreeIs(nv, k, id);
    var s := GetOrder(nv, k);
    var at := if pos < |s| then pos else |s|;
    if id <= 0xFFFF {
      hide Added, ApplyAll, GetOrder;
      PlanAdds(nv, k, id, o, at);
    } else {
      TooMany(nv, k, at, o);
    }
  }

  lemma TooMany(nv: Nvram, k: Kind, at: nat, o: LoadOpt)
    requires FreeFrom(nv, k, 0) == 0x1_0000 && at <= |GetOrder(nv, k)|
    ensures AddedTooMany(nv, ApplyAll(nv, PlanAdd(nv, k, 0x1_0000, o, at)), k, at)
  {
    hide Build, ApplyAll, OrderBytes, Stored;
    var s := GetOrder(nv, k);
    var p := PlanAdd(nv, k, 0x1_0000, o, at);
    var v := InsertAt(s, at, 0x1_0000);
    var nx := Apply(nv, p[0]);
    TwoPrefix(nv, p[0], p[1], 2);
    assert p[..2] == p;
    OrderWritten(nx, k, v);
    StoredInserted(s, at, 0x1_0000);
    assert InsertAt(s, at, 0x1_0000 % 0x1_0000) == s[..at] + [0] + s[at..];
  }

  // ---- deletions ----

  /** BootNext names the entry: its two bytes are the number, low byte first. */
  predicate Next(nv: Nvram, id: nat) {
    BootNext in nv && |nv[BootNext]| >= 2 && nv[BootNext][0] as int + 256 * (nv[BootNext][1] as int) == id
  }

  /** The entry is gone, and with it its first place in the order and BootNext if it named the entry;
      no other variable is changed. */
  ghost predicate Deleted(nv: Nvram, nw: Nvram, k: Kind, id: nat) {
    && Entry(k, id) in nv && Entry(k, id) !in nw && SameBut(nv, nw, {Entry(k, id), Order(k), BootNext})
    && (if id in GetOrder(nv, k)
        then exists p :: 0 <= p < |GetOrder(nv, k)| && TakenOut(nv, nw, k, p) && GetOrder(nv, k)[p] == id && id !in GetOrder(nv, k)[..p]
        else SameBut(nv, nw, {Entry(k, id), BootNext}))
    && (if k == Boot && Next(nv, id) then BootNext !in nw else SameBut(nv, nw, {Entry(k, id), Order(k)}))
  }

  /** The order lacks what stood at position p, and nothing else. */
  ghost predicate TakenOut(nv: Nvram, nw: Nvram, k: Kind, p: nat) {
    p < |GetOrder(nv, k)| && GetOrder(nw, k) == GetOrder(nv, k)[..p] + GetOrder(nv, k)[p + 1..]
  }

  /** The writes of a deletion one by one. */
  function AfterDel(nv: Nvram, k: Kind, id: nat): Nvram {
    var s := GetOrder(nv, k);
    var i := IndexOf(s, id);
    var n1 := Apply(nv, Write(Entry(k, id), None));
    var n2 := if i < |s| then Apply(n1, WriteOrder(k, RemoveAt(s, i))) else n1;
    if k == Boot && NextIs(nv, id) then Apply(n2, Write(BootNext, None)) else n2
  }

  lemma DelRuns(nv: Nvram, k: Kind, id: nat)
    ensures ApplyAll(nv, PlanDel(nv, k, id)) == AfterDel(nv, k, id)
  {
    var s := GetOrder(nv, k);
    var i := IndexOf(s, id);
    var head := [Write(Entry(k, id), None)];
    var mid := if i < |s| then [WriteOrder(k, RemoveAt(s, i))] else [];
    var tail := if k == Boot && NextIs(nv, id) then [Write(BootNext, None)] else [];
    hide ApplyAll, OrderBytes, GetOrder, RemoveAt, NextIs, Apply, IndexOf;
    assert PlanDel(nv, k, id) == (head + mid) + tail;
    ApplyConcat(nv, head + mid, tail);
    ApplyConcat(nv, head, mid);
    AtMostOne(nv, head);
    AtMostOne(ApplyAll(nv, head), mid);
    AtMostOne(ApplyAll(ApplyAll(nv, head), mid), tail);
  }

  lemma DelPossible(nv: Nvram, k: Kind, id: nat)
    ensures Possible(nv, PlanDel(nv, k, id)) && |PlanDel(nv, k, id)| <= 3
  {
    hide OrderBytes, UnitsIn, RemoveAt, NextIs;
  }

  lemma DelNotEmpty(nv: Nvram, k: Kind, id: nat)
    ensures PlanDel(nv, k, id) != []
  {
  }

  lemma DelEffect(nv: Nvram, k: Kind, id: nat)
    requires Entry(k, id) in nv
    ensures Deleted(nv, ApplyAll(nv, PlanDel(nv, k, id)), k, id)
  {
    DelRuns(nv, k, id);
    hide ApplyAll, PlanDel, OrderBytes, UnitsIn;
    var s := GetOrder(nv, k);
    var i := IndexOf(s, id);
    var nw := AfterDel(nv, k, id);
    if i < |s| {
      DelOrder(nv, k, id);
      assert TakenOut(nv, nw, k, i) && s[i] == id && id !in s[..i];
      assert id in s;
    } else {
      assert s[..i] == s;
    }
    hide GetOrder, IndexOf, RemoveAt, TakenOut;
  }

  lemma DelOrder(nv: Nvram, k: Kind, id: nat)
    requires IndexOf(GetOrder(nv, k), id) < |GetOrder(nv, k)|
    ensures TakenOut(nv, AfterDel(nv, k, id), k, IndexOf(GetOrder(nv, k), id))
  {
    var s := GetOrder(nv, k);
    var i := IndexOf(s, id);
    var n1 := Apply(nv, Write(Entry(k, id), None));
    StoredSame(RemoveAt(s, i));
    OrderWritten(n1, k, RemoveAt(s, i));
    hide OrderBytes, UnitsIn, IndexOf;
    SameOrder(Apply(n1, WriteOrder(k, RemoveAt(s, i))), k);
  }

  /** BootNext has nothing to do with the orders. */
  lemma SameOrder(nv: Nvram, k: Kind)
    ensures GetOrder(Apply(nv, Write(BootNext, None)), k) == GetOrder(nv, k)
  {
  }

  lemma AtMostOne(nv: Nvram, p: Plan)
    requires |p| <= 1
    ensures ApplyAll(nv, p) == if p == [] then nv else Apply(nv, p[0])
  {
    if p != [] {
      OnePrefix(nv, p[0], 1);
      assert p == [p[0]] && [p[0]][..1] == [p[0]];
    }
  }

  /** bcfg rm: the entry at position p of the order is gone, and its place; BootNext is not looked at. */
  ghost predicate Dropped(nv: Nvram, nw: Nvram, k: Kind, p: nat) {
    && TakenOut(nv, nw, k, p) && Entry(k, GetOrder(nv, k)[p]) !in nw
    && SameBut(nv, nw, {Entry(k, GetOrder(nv, k)[p]), Order(k)})
  }

  lemma RmEffect(nv: Nvram, k: Kind, p: nat)
    requires PlanOf(nv, BcfgRm(k, p)).Some?
    ensures Dropped(nv, ApplyAll(nv, PlanOf(nv, BcfgRm(k, p)).value), k, p)
    ensures Possible(nv, PlanOf(nv, BcfgRm(k, p)).value)
  {
    hide ApplyAll, OrderBytes;
    var s := GetOrder(nv, k);
    var q := PlanOf(nv, BcfgRm(k, p)).value;
    TwoPrefix(nv, q[0], q[1], 2);
    assert q[..2] == q;
    StoredSame(RemoveAt(s, p));
    OrderWritten(Apply(nv, q[0]), k, RemoveAt(s, p));
    PossibleTwo(nv, q[0], q[1]);
  }

  // ---- orders ----

  /** The order is v; no other variable is changed. */
  ghost predicate Ordered(nv: Nvram, nw: Nvram, k: Kind, v: seq<nat>) {
    GetOrder(nw, k) == v && SameBut(nv, nw, {Order(k)})
  }

  lemma OneOrder(nv: Nvram, k: Kind, v: seq<nat>)
    requires forall i :: 0 <= i < |v| ==> v[i] <= 0xFFFF
    ensures Ordered(nv, ApplyAll(nv, [WriteOrder(k, v)]), k, v)
  {
    hide ApplyAll, OrderBytes;
    AtMostOne(nv, [WriteOrder(k, v)]);
    StoredSame(v);
    OrderWritten(nv, k, v);
  }

  lemma OrderPossible(nv: Nvram, k: Kind, v: seq<nat>)
    ensures v != [] || Order(k) in nv ==> Possible(nv, [WriteOrder(k, v)])
  {
    if v != [] || Order(k) in nv {
      PossibleOne(nv, WriteOrder(k, v));
    }
  }

  /** The list names entries that exist, each once. */
  ghost predicate Proper(nv: Nvram, k: Kind, ids: seq<Option<nat>>) {
    && (forall i :: 0 <= i < |ids| ==> ids[i].Some? && Entry(k, ids[i].value) in nv)
    && (forall i, j :: 0 <= i < j < |ids| ==> ids[i] != ids[j])
  }

  /** Numbers of at most four hexadecimal digits. */
  predicate InRange(ids: seq<Option<nat>>) {
    forall i :: 0 <= i < |ids| && ids[i].Some? ==> ids[i].value <= 0xFFFF
  }

  predicate AllSome(ids: seq<Option<nat>>) {
    forall i :: 0 <= i < |ids| ==> ids[i].Some?
  }

  function Numbers(ids: seq<Option<nat>>): (v: seq<nat>)
    requires AllSome(ids)
    ensures |v| == |ids| && forall i :: 0 <= i < |ids| ==> v[i] == ids[i].value
  {
    if ids == [] then [] else [ids[0].value] + Numbers(ids[1..])
  }

  lemma {:induction false} ListedIs(nv: Nvram, k: Kind, ids: seq<Option<nat>>, sofar: seq<nat>)
    ensures Listed(nv, k, ids, sofar).Some? <==>
      Proper(nv, k, ids) && forall i :: 0 <= i < |ids| && ids[i].Some? ==> ids[i].value !in sofar
    ensures Listed(nv, k, ids, sofar).Some? ==> AllSome(ids) && Listed(nv, k, ids, sofar).value == sofar + Numbers(ids)
    decreases ids
  {
    if ids == [] {
      assert sofar + [] == sofar;
    } else if ids[0].Some? && Entry(k, ids[0].value) in nv && ids[0].value !in sofar {
      hide Proper;
      var x, rest := ids[0].value, ids[1..];
      ListedIs(nv, k, rest, sofar + [x]);
      ProperTail(nv, k, ids, sofar, x);
      if Listed(nv, k, ids, sofar).Some? {
        assert sofar + [x] + Numbers(rest) == sofar + ([x] + Numbers(rest));
      }
    }
  }

  lemma ProperTail(nv: Nvram, k: Kind, ids: seq<Option<nat>>, sofar: seq<nat>, x: nat)
    requires ids != [] && ids[0] == Some(x) && Entry(k, x) in nv && x !in sofar
    ensures (Proper(nv, k, ids) && forall i :: 0 <= i < |ids| && ids[i].Some? ==> ids[i].value !in sofar)
       <==> (Proper(nv, k, ids[1..]) && forall i :: 0 <= i < |ids[1..]| && ids[1..][i].Some? ==> ids[1..][i].value !in sofar + [x])
  {
    var rest := ids[1..];
    assert forall i :: 0 <= i < |rest| ==> rest[i] == ids[i + 1];
    assert forall i :: 1 <= i < |ids| ==> ids[i] == rest[i - 1];
    assert forall y :: y in sofar + [x] <==> y in sofar || y == x;
  }

  lemma SetOrderEffect(nv: Nvram, k: Kind, ids: seq<Option<nat>>)
    requires InRange(ids)
    ensures PlanOf(nv, Command.SetOrder(k, ids)).Some? <==> Proper(nv, k, ids)
    ensures Proper(nv, k, ids) ==> Ordered(nv, ApplyAll(nv, PlanOf(nv, Command.SetOrder(k, ids)).value), k, Numbers(ids))
    ensures Proper(nv, k, ids) ==> PlanOf(nv, Command.SetOrder(k, ids)).value == [WriteOrder(k, Numbers(ids))]
    ensures Proper(nv, k, ids) && (ids == [] ==> Order(k) in nv) ==> Possible(nv, PlanOf(nv, Command.SetOrder(k, ids)).value)
  {
    ListedIs(nv, k, ids, []);
    if Proper(nv, k, ids) {
      assert [] + Numbers(ids) == Numbers(ids);
      OrderPossible(nv, k, Numbers(ids));
      OneOrder(nv, k, Numbers(ids));
    }
  }

  /** t is s without x: what remains keeps its order. f tells where each element was. */
  ghost predicate Kept(s: seq<nat>, x: nat, t: seq<nat>, f: seq<nat>) {
    && |f| == |t| && (forall i :: 0 <= i < |f| ==> f[i] < |s| && s[f[i]] != x && t[i] == s[f[i]])
    && (forall i, j :: 0 <= i < j < |f| ==> f[i] < f[j])
    && forall m :: 0 <= m < |s| && s[m] != x ==> m in f
  }

  lemma {:induction false} WithoutIsKept(s: seq<nat>, x: nat) returns (f: seq<nat>)
    ensures Kept(s, x, Without(s, x), f)
  {
    if s == [] {
      f := [];
    } else {
      var n := |s| - 1;
      var g := WithoutIsKept(s[..n], x);
      hide Kept, Without;
      WithoutLast(s[..n], s[n], x);
      assert s == s[..n] + [s[n]];
      f := KeptMore(s[..n], s[n], x, Without(s[..n], x), g);
    }
  }

  lemma KeptMore(s: seq<nat>, y: nat, x: nat, t: seq<nat>, g: seq<nat>) returns (f: seq<nat>)
    requires Kept(s, x, t, g)
    ensures Kept(s + [y], x, t + (if y == x then [] else [y]), f)
  {
    f := if y == x then g else g + [|s|];
    var r := s + [y];
    forall m | 0 <= m < |r| && r[m] != x ensures m in f {
      if m < |s| {
        assert m in g;
      } else {
        assert f[|f| - 1] == m;
      }
    }
  }

  lemma {:induction false} WithoutLast(s: seq<nat>, y: nat, x: nat)
    ensures Without(s + [y], x) == Without(s, x) + (if y == x then [] else [y])
  {
    if s == [] {
      assert s + [y] == [y] && [y][1..] == [];
    } else {
      assert (s + [y])[1..] == s[1..] + [y];
      WithoutLast(s[1..], y, x);
    }
  }

  /** The number is first and nowhere else; the others follow as they stood. */
  ghost predicate Topped(nv: Nvram, nw: Nvram, k: Kind, id: nat) {
    && SameBut(nv, nw, {Order(k)})
    && exists t, f :: GetOrder(nw, k) == [id] + t && Kept(GetOrder(nv, k), id, t, f)
  }

  lemma TopEffect(nv: Nvram, k: Kind, id: nat)
    requires PlanOf(nv, Command.Top(k, id)).Some? && id <= 0xFFFF
    ensures Topped(nv, ApplyAll(nv, PlanOf(nv, Command.Top(k, id)).value), k, id)
  {
    hide ApplyAll, GetOrder, Kept, Without, SameBut, OrderBytes;
    var s := GetOrder(nv, k);
    var t := Without(s, id);
    TopBounded(s, id, t);
    var f := WithoutIsKept(s, id);
    OneOrder(nv, k, [id] + t);
  }

  lemma TopBounded(s: seq<nat>, id: nat, t: seq<nat>)
    requires id <= 0xFFFF && t == Without(s, id) && forall i :: 0 <= i < |s| ==> s[i] <= 0xFFFF
    ensures forall i :: 0 <= i < |[id] + t| ==> ([id] + t)[i] <= 0xFFFF
  {
    WithoutKeeps(s, id);
    hide Without;
    forall i | 0 <= i < |t| ensures t[i] <= 0xFFFF {
      assert t[i] in t;
    }
  }

  /** bcfg mv: the number at position p stands at position q, the others as before. */
  ghost predicate Moved(nv: Nvram, nw: Nvram, k: Kind, p: nat, q: nat) {
    var s, r := GetOrder(nv, k), GetOrder(nw, k);
    && SameBut(nv, nw, {Order(k)}) && p < |s| == |r| && q < |s|
    && r[q] == s[p] && r[..q] + r[q + 1..] == s[..p] + s[p + 1..]
  }

  lemma MvEffect(nv: Nvram, k: Kind, p: nat, q: nat)
    requires PlanOf(nv, BcfgMv(k, p, q)).Some?
    ensures Moved(nv, ApplyAll(nv, PlanOf(nv, BcfgMv(k, p, q)).value), k, p, q)
    ensures Possible(nv, PlanOf(nv, BcfgMv(k, p, q)).value)
  {
    var s := GetOrder(nv, k);
    MoveIsPermutation(s, p, q);
    var r := MoveTo(s, p, q);
    forall i | 0 <= i < |r| ensures r[i] <= 0xFFFF {
      assert r[i] in r;
    }
    OrderPossible(nv, k, r);
    OneOrder(nv, k, r);
  }

  // ---- next ----

  /** BootNext holds the two bytes of the number, low byte first, or is gone; no other variable is changed. */
  ghost predicate NextSet(nv: Nvram, nw: Nvram, target: Option<nat>) {
    && SameBut(nv, nw, {BootNext})
    && if target.None? then BootNext !in nw
       else BootNext in nw && |nw[BootNext]| == 2 && nw[BootNext][0] == target.value % 256 && nw[BootNext][1] == target.value / 256
  }

  lemma NextEffect(nv: Nvram, target: Option<nat>)
    requires target.Some? ==> target.value <= 0xFFFF
    ensures var c := if target.Some? then Command.SetNext(target.value) else ClearNext;
      (PlanOf(nv, c).Some? <==> target.Some? ==> Entry(Boot, target.value) in nv)
      && (PlanOf(nv, c).Some? ==> NextSet(nv, ApplyAll(nv, PlanOf(nv, c).value), target))
  {
    var c := if target.Some? then Command.SetNext(target.value) else ClearNext;
    if PlanOf(nv, c).Some? {
      AtMostOne(nv, PlanOf(nv, c).value);
      if target.Some? {
        assert [target.value][1..] == [];
        assert OrderBytes([target.value]) == Le16(target.value) + [];
      }
    }
  }

  // ---- when a plan is carried out ----

  /** The user agrees, a backup is there or not wanted, and no write fails. */
  predicate Willing(o: Options) {
    !o.dry && (o.yes || o.answer) && (o.noBackup || o.backedUp) && o.failAt >= 3
  }

  /** Nothing is written in a dry run, without the user's consent or without the backup. */
  predicate Stopped(o: Options) {
    o.dry || (!o.yes && !o.answer) || (!o.noBackup && !o.backedUp)
  }

  /** Every write is possible: one without contents is for a variable that exists and was not touched before. */
  ghost predicate Possible(nv: Nvram, p: Plan) {
    forall i :: 0 <= i < |p| && p[i].data == Some([]) ==> p[i].name in nv && forall j :: 0 <= j < i ==> p[j].name != p[i].name
  }

  lemma {:induction false} DoneAll(nv: Nvram, p: Plan, failAt: nat)
    requires Possible(nv, p) && failAt >= |p|
    ensures Done(nv, p, failAt) == |p|
    decreases |p|
  {
    if p != [] {
      var nx, q := Apply(nv, p[0]), p[1..];
      forall i | 0 <= i < |q| && q[i].data == Some([])
        ensures q[i].name in nx && forall j :: 0 <= j < i ==> q[j].name != q[i].name
      {
        assert q[i] == p[i + 1] && p[0].name != p[i + 1].name;
        forall j | 0 <= j < i ensures q[j].name != q[i].name {
          assert q[j] == p[j + 1];
        }
      }
      DoneAll(nx, q, failAt - 1);
    }
  }

  lemma PossibleOne(nv: Nvram, w: Write)
    requires w.data == Some([]) ==> w.name in nv
    ensures Possible(nv, [w])
  {
  }

  lemma PossibleTwo(nv: Nvram, w: Write, x: Write)
    requires w.data != Some([]) && (x.data == Some([]) ==> x.name in nv && x.name != w.name)
    ensures Possible(nv, [w, x])
  {
  }

  lemma TopPossible(nv: Nvram, k: Kind, id: nat)
    requires PlanOf(nv, Command.Top(k, id)).Some?
    ensures Possible(nv, PlanOf(nv, Command.Top(k, id)).value)
  {
    OrderPossible(nv, k, [id] + Without(GetOrder(nv, k), id));
  }

  lemma NextPossible(nv: Nvram, target: Option<nat>)
    ensures var c := if target.Some? then Command.SetNext(target.value) else ClearNext;
      PlanOf(nv, c).Some? ==> Possible(nv, PlanOf(nv, c).value)
  {
  }
}
