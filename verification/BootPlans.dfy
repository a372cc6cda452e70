/** The boot variables and the plans of writes that change them: what every command plans, and what
    a plan does, completely or up to a failing write, to the boot order. */
module BootPlans {
  import opened Bits
  import opened Utf8
  import opened Optional
  import opened LoadOptions
  import opened BootOrder

  datatype Kind = Boot | Driver

  /** Boot#### or Driver####, BootOrder or DriverOrder, BootNext. */
  datatype Var = Entry(kind: Kind, id: nat) | Order(kind: Kind) | BootNext

  type Nvram = map<Var, seq<Byte>>

  /** No data: the variable is deleted. */
  datatype Write = Write(name: Var, data: Option<seq<Byte>>)

  type Plan = seq<Write>

  const MAX_ID: nat := 0xFFFF

  // ---- applying a plan ----

  /** Firmware deletes a variable that is written without data. */
  function Apply(nv: Nvram, w: Write): Nvram {
    if w.data.None? || w.data.value == [] then nv - {w.name} else nv[w.name := w.data.value]
  }

  function ApplyAll(nv: Nvram, p: Plan): Nvram
    decreases |p|
  {
    if p == [] then nv else ApplyAll(Apply(nv, p[0]), p[1..])
  }

  /** An empty value for a variable that does not exist is an error; deleting one is not. */
  predicate CanWrite(nv: Nvram, w: Write) {
    w.data == Some([]) ==> w.name in nv
  }

  /** How the user and the firmware answer: the number of writes that can succeed, the answer to
      the question, whether the backup could be saved. */
  datatype Options = Options(dry: bool, yes: bool, noBackup: bool, quiet: bool, answer: bool, backedUp: bool, failAt: nat)

  predicate Proceeds(o: Options) {
    !o.dry && (o.yes || o.answer) && (o.noBackup || o.backedUp || o.quiet)
  }

  /** The number of writes done before one fails. */
  function Done(nv: Nvram, p: Plan, failAt: nat): (n: nat)
    ensures n <= |p|
    decreases |p|
  {
    if p == [] || failAt == 0 || !CanWrite(nv, p[0]) then 0 else 1 + Done(Apply(nv, p[0]), p[1..], failAt - 1)
  }

  function Applied(nv: Nvram, p: Plan, o: Options): (n: nat)
    ensures n <= |p|
  {
    if Proceeds(o) then Done(nv, p, o.failAt) else 0
  }

  function Outcome(nv: Nvram, p: Plan, o: Options): Nvram {
    ApplyAll(nv, p[..Applied(nv, p, o)])
  }

  // ---- the order variables ----

  function GetOrder(nv: Nvram, k: Kind): (s: seq<nat>)
    ensures forall i :: 0 <= i < |s| ==> s[i] <= MAX_ID
  {
    if Order(k) in nv then UnitsIn(nv[Order(k)][..|nv[Order(k)]| / 2 * 2]) else []
  }

  function OrderBytes(v: seq<nat>): (b: seq<Byte>)
    ensures |b| == 2 * |v|
  {
    if v == [] then [] else Le16(v[0]) + OrderBytes(v[1..])
  }

  function WriteOrder(k: Kind, v: seq<nat>): Write {
    Write(Order(k), Some(OrderBytes(v)))
  }

  /** Numbers are stored in 16 bits. */
  function Stored(v: seq<nat>): (u: seq<nat>)
    ensures |u| == |v| && (forall i :: 0 <= i < |v| ==> u[i] == v[i] % 0x1_0000)
  {
    seq(|v|, i requires 0 <= i < |v| => v[i] % 0x1_0000)
  }

  lemma LowBits(x: nat)
    ensures U16(Le16(x)) == x % 0x1_0000
  {
    var q := x / 256;
    assert q / 256 == x / 0x1_0000;
    assert x == 256 * q + x % 256 && q == 256 * (q / 256) + q % 256;
  }

  lemma {:induction false} OrderBytesRead(v: seq<nat>)
    ensures UnitsIn(OrderBytes(v)) == Stored(v)
  {
    if v != [] {
      hide U16, Le16;
      var b := OrderBytes(v);
      LowBits(v[0]);
      OrderBytesRead(v[1..]);
      assert b[..2] == Le16(v[0]) && b[2..] == OrderBytes(v[1..]);
    }
  }

  lemma OrderWritten(nv: Nvram, k: Kind, v: seq<nat>)
    ensures GetOrder(Apply(nv, WriteOrder(k, v)), k) == Stored(v)
  {
    OrderBytesRead(v);
    var b := OrderBytes(v);
    assert b[..|b| / 2 * 2] == b;
  }

  lemma StoredSame(v: seq<nat>)
    requires forall i :: 0 <= i < |v| ==> v[i] <= MAX_ID
    ensures Stored(v) == v
  {
  }

  // ---- the invariant ----

  /** The order names no entry twice, and only entries that exist. */
  ghost predicate OrderOk(nv: Nvram, k: Kind) {
    Distinct(GetOrder(nv, k)) && forall id :: id in GetOrder(nv, k) ==> Entry(k, id) in nv
  }

  ghost predicate Good(nv: Nvram) {
    OrderOk(nv, Boot) && OrderOk(nv, Driver)
  }

  /** The same, but the entry id may be missing. */
  ghost predicate GoodBut(nv: Nvram, k: Kind, id: nat) {
    && OrderOk(nv, if k == Boot then Driver else Boot)
    && Distinct(GetOrder(nv, k)) && forall i :: i in GetOrder(nv, k) && i != id ==> Entry(k, i) in nv
  }

  // ---- commands ----

  datatype Change = Enable(on: bool) | Fields(desc: Option<seq<Byte>>, opt: Option<seq<Byte>>, dp: Option<seq<Byte>>)

  datatype Command =
    | Add(kind: Kind, option: LoadOpt, top: bool)
    | Del(kind: Kind, id: nat)
    | Rewrite(kind: Kind, id: nat, change: Change)
    | SetOrder(kind: Kind, ids: seq<Option<nat>>)
    | Top(kind: Kind, id: nat)
    | ClearNext
    | SetNext(id: nat)
    | BcfgAdd(kind: Kind, pos: nat, option: LoadOpt)
    | BcfgRm(kind: Kind, pos: nat)
    | BcfgMv(kind: Kind, pos: nat, to: nat)

  /** The first number from i on that no entry has, or one past the last number. */
  function FreeFrom(nv: Nvram, k: Kind, i: nat): (id: nat)
    requires i <= MAX_ID + 1
    ensures i <= id <= MAX_ID + 1
    ensures id <= MAX_ID ==> Entry(k, id) !in nv
    ensures forall j: nat :: i <= j < id ==> Entry(k, j) in nv
    decreases MAX_ID + 1 - i
  {
    if i <= MAX_ID && Entry(k, i) in nv then FreeFrom(nv, k, i + 1) else i
  }

  function NextIs(nv: Nvram, id: nat): bool {
    BootNext in nv && |nv[BootNext]| >= 2 && U16(nv[BootNext][..2]) == id
  }

  function Changed(o: LoadOpt, c: Change): LoadOpt {
    match c
    case Enable(on) => o.(attr := WithActive(o.attr, on))
    case Fields(desc, opt, dp) =>
      LoadOpt(o.attr, if desc.Some? then desc.value else o.desc,
              if dp.Some? then dp.value else o.dp, if opt.Some? then opt.value else o.opt)
  }

  /** The numbers of a list in which every entry exists and is named once. */
  function Listed(nv: Nvram, k: Kind, ids: seq<Option<nat>>, sofar: seq<nat>): Option<seq<nat>>
    decreases ids
  {
    if ids == [] then Some(sofar)
    else if ids[0].None? || Entry(k, ids[0].value) !in nv || ids[0].value in sofar then None
    else Listed(nv, k, ids[1..], sofar + [ids[0].value])
  }

  function Clip(pos: nat, n: nat): nat {
    if pos > n then n else pos
  }

  function PlanAdd(nv: Nvram, k: Kind, id: nat, o: LoadOpt, pos: nat): Plan
    requires pos <= |GetOrder(nv, k)|
  {
    [Write(Entry(k, id), Some(Build(o))), WriteOrder(k, InsertAt(GetOrder(nv, k), pos, id))]
  }

  function PlanDel(nv: Nvram, k: Kind, id: nat): Plan {
    var i := IndexOf(GetOrder(nv, k), id);
    [Write(Entry(k, id), None)]
    + (if i < |GetOrder(nv, k)| then [WriteOrder(k, RemoveAt(GetOrder(nv, k), i))] else [])
    + (if k == Boot && NextIs(nv, id) then [Write(BootNext, None)] else [])
  }

  /** The writes a command plans; None when it is refused. */
  function PlanOf(nv: Nvram, c: Command): Option<Plan> {
    match c
    case Add(k, o, top) =>
      var id := FreeFrom(nv, k, 0);
      if id > MAX_ID then None else Some(PlanAdd(nv, k, id, o, if top then 0 else |GetOrder(nv, k)|))
    case Del(k, id) =>
      if Entry(k, id) in nv then Some(PlanDel(nv, k, id)) else None
    case Rewrite(k, id, change) =>
      if Entry(k, id) !in nv || Parse(nv[Entry(k, id)]).None? || change == Fields(None, None, None) then None
      else Some([Write(Entry(k, id), Some(Build(Changed(Parse(nv[Entry(k, id)]).value, change))))])
    case SetOrder(k, ids) =>
      (match Listed(nv, k, ids, []) case None => None case Some(v) => Some([WriteOrder(k, v)]))
    case Top(k, id) =>
      if Entry(k, id) in nv then Some([WriteOrder(k, [id] + Without(GetOrder(nv, k), id))]) else None
    case ClearNext => Some([Write(BootNext, None)])
    case SetNext(id) =>
      if Entry(Boot, id) in nv then Some([Write(BootNext, Some(OrderBytes([id])))]) else None
    case BcfgAdd(k, pos, o) =>
      Some(PlanAdd(nv, k, FreeFrom(nv, k, 0), o, Clip(pos, |GetOrder(nv, k)|)))
    case BcfgRm(k, pos) =>
      var s := GetOrder(nv, k);
      if pos < |s| then Some([Write(Entry(k, s[pos]), None), WriteOrder(k, RemoveAt(s, pos))]) else None
    case BcfgMv(k, pos, to) =>
      var s := GetOrder(nv, k);
      if pos < |s| && to < |s| then Some([WriteOrder(k, MoveTo(s, pos, to))]) else None
  }

  /** Entry numbers are given with at most four hexadecimal digits. */
  predicate Wf(c: Command) {
    match c
    case Del(_, id) => id <= MAX_ID
    case Rewrite(_, id, _) => id <= MAX_ID
    case Top(_, id) => id <= MAX_ID
    case SetNext(id) => id <= MAX_ID
    case SetOrder(_, ids) => forall i :: 0 <= i < |ids| && ids[i].Some? ==> ids[i].value <= MAX_ID
    case _ => true
  }

  /** bcfg asks no question and goes on without a backup; bootmgr next asks no question. */
  function Effective(c: Command, o: Options): Options {
    if c.BcfgAdd? || c.BcfgRm? || c.BcfgMv? then o.(dry := false, yes := true, noBackup := false, quiet := true)
    else if c.ClearNext? || c.SetNext? then o.(yes := true, quiet := false)
    else o.(quiet := false)
  }

  function Step(nv: Nvram, c: Command, o: Options): Nvram {
    match PlanOf(nv, c)
    case None => nv
    case Some(p) => Outcome(nv, p, Effective(c, o))
  }

  // ---- what single writes keep ----

  /** Writing an entry keeps every order as it was. */
  lemma EntryWritten(nv: Nvram, k: Kind, id: nat, d: seq<Byte>)
    requires Good(nv) && d != []
    ensures var nw := Apply(nv, Write(Entry(k, id), Some(d)));
      Good(nw) && Entry(k, id) in nw && (forall j :: GetOrder(nw, j) == GetOrder(nv, j))
      && (forall i :: Entry(k, i) in nv ==> Entry(k, i) in nw)
  {
  }

  lemma EntryDeleted(nv: Nvram, k: Kind, id: nat)
    requires Good(nv)
    ensures var nw := Apply(nv, Write(Entry(k, id), None));
      GoodBut(nw, k, id) && (forall j :: GetOrder(nw, j) == GetOrder(nv, j))
      && (forall i :: i != id && Entry(k, i) in nv ==> Entry(k, i) in nw)
  {
    hide Distinct;
  }

  lemma NextWritten(nv: Nvram, d: Option<seq<Byte>>)
    ensures var nw := Apply(nv, Write(BootNext, d));
      (Good(nv) ==> Good(nw)) && (forall j :: GetOrder(nw, j) == GetOrder(nv, j))
      && (forall k, id :: GoodBut(nv, k, id) ==> GoodBut(nw, k, id))
  {
    hide Distinct;
    var nw := Apply(nv, Write(BootNext, d));
    forall k, id | GoodBut(nv, k, id) ensures GoodBut(nw, k, id) { }
  }

  /** Writing an order of distinct, existing entries. */
  lemma NewOrder(nv: Nvram, k: Kind, v: seq<nat>)
    requires OrderOk(nv, if k == Boot then Driver else Boot)
    requires Distinct(v) && forall i :: 0 <= i < |v| ==> v[i] <= MAX_ID && Entry(k, v[i]) in nv
    ensures Good(Apply(nv, WriteOrder(k, v)))
  {
    hide Distinct;
    var nw := Apply(nv, WriteOrder(k, v));
    OrderWritten(nv, k, v);
    StoredSame(v);
    assert forall id :: id in v ==> Entry(k, id) in nw;
  }

  lemma {:induction false} ListedOk(nv: Nvram, k: Kind, ids: seq<Option<nat>>, sofar: seq<nat>)
    requires Distinct(sofar) && forall i :: 0 <= i < |sofar| ==> sofar[i] <= MAX_ID && Entry(k, sofar[i]) in nv
    requires forall i :: 0 <= i < |ids| && ids[i].Some? ==> ids[i].value <= MAX_ID
    ensures Listed(nv, k, ids, sofar).Some? ==>
      var v := Listed(nv, k, ids, sofar).value;
      Distinct(v) && (forall i :: 0 <= i < |v| ==> v[i] <= MAX_ID && Entry(k, v[i]) in nv)
    decreases ids
  {
    if ids != [] && ids[0].Some? && Entry(k, ids[0].value) in nv && ids[0].value !in sofar {
      var id := ids[0].value;
      InsertKeeps(sofar, |sofar|, id);
      assert InsertAt(sofar, |sofar|, id) == sofar + [id];
      ListedOk(nv, k, ids[1..], sofar + [id]);
    }
  }

  // ---- what plans keep ----

  lemma OnePrefix(nv: Nvram, w: Write, n: nat)
    requires n <= 1
    ensures ApplyAll(nv, [w][..n]) == if n == 0 then nv else Apply(nv, w)
  {
    assert [w][..0] == [] && [w][..1] == [w] && [w][1..] == [];
  }

  lemma TwoPrefix(nv: Nvram, w: Write, x: Write, n: nat)
    requires n <= 2
    ensures ApplyAll(nv, [w, x][..n]) == if n == 0 then nv else if n == 1 then Apply(nv, w) else Apply(Apply(nv, w), x)
  {
    if n > 0 {
      assert [w, x][..n][0] == w && [w, x][..n][1..] == [x][..n - 1];
      OnePrefix(Apply(nv, w), x, n - 1);
    }
  }

  /** There is a free number, or the number the new entry is mistaken for is not in the order. */
  ghost predicate HasRoom(nv: Nvram, k: Kind) {
    FreeFrom(nv, k, 0) <= MAX_ID || 0 !in GetOrder(nv, k)
  }

  lemma AddKeeps(nv: Nvram, k: Kind, o: LoadOpt, pos: nat, n: nat)
    requires Good(nv) && pos <= |GetOrder(nv, k)| && n <= 2 && HasRoom(nv, k)
    ensures Good(ApplyAll(nv, PlanAdd(nv, k, FreeFrom(nv, k, 0), o, pos)[..n]))
  {
    hide Distinct, InsertAt;
    var id := FreeFrom(nv, k, 0);
    var s := GetOrder(nv, k);
    var p := PlanAdd(nv, k, id, o, pos);
    TwoPrefix(nv, p[0], p[1], n);
    EntryWritten(nv, k, id, Build(o));
    var nw := Apply(nv, p[0]);
    AddedOrder(nv, k, pos);
    var v := Stored(InsertAt(s, pos, id));
    StoredSame(v);
    OrderWritten(nw, k, InsertAt(s, pos, id));
    OrderWritten(nw, k, v);
    forall i | 0 <= i < |v| ensures v[i] <= MAX_ID && Entry(k, v[i]) in nw { assert v[i] in v; }
    NewOrder(nw, k, v);
    SameOrderBytes(InsertAt(s, pos, id));
  }

  lemma {:induction false} SameOrderBytes(v: seq<nat>)
    ensures OrderBytes(Stored(v)) == OrderBytes(v)
  {
    if v != [] {
      hide Le16;
      SameOrderBytes(v[1..]);
      assert Stored(v)[1..] == Stored(v[1..]);
      SameLow(v[0]);
    }
  }

  lemma SameLow(x: nat)
    ensures Le16(x % 0x1_0000) == Le16(x)
  {
    var q := x / 0x1_0000;
    assert x == 0x1_0000 * q + x % 0x1_0000;
    assert x / 256 == 256 * q + x % 0x1_0000 / 256;
  }

  lemma StoredInserted(s: seq<nat>, pos: nat, id: nat)
    requires pos <= |s| && forall i :: 0 <= i < |s| ==> s[i] <= MAX_ID
    ensures Stored(InsertAt(s, pos, id)) == InsertAt(s, pos, id % 0x1_0000)
  {
    var v, w := InsertAt(s, pos, id), InsertAt(s, pos, id % 0x1_0000);
    forall i | 0 <= i < |v| ensures v[i] % 0x1_0000 == w[i] { }
  }

  lemma WrappedInsert(s: seq<nat>, pos: nat, id: nat)
    requires pos <= |s| && id <= MAX_ID + 1 && forall i :: 0 <= i < |s| ==> s[i] <= MAX_ID
    ensures var v := Stored(InsertAt(s, pos, id));
      var x := if id <= MAX_ID then id else 0;
      && (Distinct(v) <==> Distinct(s) && x !in s)
      && (forall i :: i in v <==> i in s || i == x)
  {
    hide Distinct, Stored, InsertAt;
    StoredInserted(s, pos, id);
    InsertKeeps(s, pos, if id <= MAX_ID then id else 0);
  }

  /** The order an addition stores: a full table makes it name the first entry. */
  lemma AddedOrder(nv: Nvram, k: Kind, pos: nat)
    requires OrderOk(nv, k) && pos <= |GetOrder(nv, k)|
    ensures var id := FreeFrom(nv, k, 0);
      var v := Stored(InsertAt(GetOrder(nv, k), pos, id));
      && (Distinct(v) <==> HasRoom(nv, k))
      && (forall i :: i in v ==> i == id || Entry(k, i) in nv)
  {
    hide Distinct, Stored, InsertAt, FreeFrom;
    var id := FreeFrom(nv, k, 0);
    WrappedInsert(GetOrder(nv, k), pos, id);
    assert id > 0 ==> Entry(k, 0) in nv;
  }

  /** Whatever write fails, a command that deletes no entry keeps the boot order in order. */
  lemma PlanKeeps(nv: Nvram, c: Command, n: nat)
    requires Good(nv) && Wf(c) && !c.Del? && !c.BcfgRm? && (c.BcfgAdd? ==> HasRoom(nv, c.kind))
    requires PlanOf(nv, c).Some? && n <= |PlanOf(nv, c).value|
    ensures Good(ApplyAll(nv, PlanOf(nv, c).value[..n]))
  {
    hide Distinct, ApplyAll, Apply, Good, OrderBytes;
    match c {
      case Add(k, o, top) => AddKeeps(nv, k, o, if top then 0 else |GetOrder(nv, k)|, n);
      case BcfgAdd(k, pos, o) => AddKeeps(nv, k, o, Clip(pos, |GetOrder(nv, k)|), n);
      case Rewrite(k, id, change) =>
        OnePrefix(nv, PlanOf(nv, c).value[0], n);
        EntryWritten(nv, k, id, Build(Changed(Parse(nv[Entry(k, id)]).value, change)));
      case SetOrder(k, ids) =>
        var v := Listed(nv, k, ids, []).value;
        OnePrefix(nv, WriteOrder(k, v), n);
        EmptyDistinct();
        ListedOk(nv, k, ids, []);
        GoodParts(nv, k);
        NewOrder(nv, k, v);
      case Top(k, id) =>
        var v := [id] + Without(GetOrder(nv, k), id);
        OnePrefix(nv, WriteOrder(k, v), n);
        GoodParts(nv, k);
        TopOk(nv, k, id);
        NewOrder(nv, k, v);
      case ClearNext =>
        OnePrefix(nv, Write(BootNext, None), n);
        NextWritten(nv, None);
      case SetNext(id) =>
        OnePrefix(nv, PlanOf(nv, c).value[0], n);
        NextWritten(nv, Some(OrderBytes([id])));
      case BcfgMv(k, pos, to) =>
        var s := GetOrder(nv, k);
        OnePrefix(nv, WriteOrder(k, MoveTo(s, pos, to)), n);
        GoodParts(nv, k);
        MoveIsPermutation(s, pos, to);
        MovedOk(nv, k, pos, to);
        NewOrder(nv, k, MoveTo(s, pos, to));
    }
  }

  lemma EmptyDistinct()
    ensures Distinct([])
  {
  }

  lemma GoodParts(nv: Nvram, k: Kind)
    requires Good(nv)
    ensures OrderOk(nv, k) && OrderOk(nv, if k == Boot then Driver else Boot)
  {
  }

  lemma TopOk(nv: Nvram, k: Kind, id: nat)
    requires OrderOk(nv, k) && id <= MAX_ID && Entry(k, id) in nv
    ensures var v := [id] + Without(GetOrder(nv, k), id);
      Distinct(v) && forall i :: 0 <= i < |v| ==> v[i] <= MAX_ID && Entry(k, v[i]) in nv
  {
    var s := GetOrder(nv, k);
    var r := Without(s, id);
    WithoutKeeps(s, id);
    InsertKeeps(r, 0, id);
    assert InsertAt(r, 0, id) == [id] + r;
    hide Distinct, Without;
    var v := [id] + r;
    forall i | 0 <= i < |v| ensures v[i] <= MAX_ID && Entry(k, v[i]) in nv {
      if i > 0 {
        assert r[i - 1] in r;
      }
    }
  }

  lemma MovedOk(nv: Nvram, k: Kind, pos: nat, to: nat)
    requires OrderOk(nv, k) && pos < |GetOrder(nv, k)| && to < |GetOrder(nv, k)|
    ensures var v := MoveTo(GetOrder(nv, k), pos, to);
      Distinct(v) && forall i :: 0 <= i < |v| ==> v[i] <= MAX_ID && Entry(k, v[i]) in nv
  {
    var s := GetOrder(nv, k);
    MoveIsPermutation(s, pos, to);
    hide Distinct, MoveTo;
    var v := MoveTo(s, pos, to);
    forall i | 0 <= i < |v| ensures v[i] <= MAX_ID && Entry(k, v[i]) in nv { assert v[i] in v; }
  }

  // ---- deleting ----

  /** The entry a command deletes. */
  function Victim(nv: Nvram, c: Command): nat
    requires (c.Del? || c.BcfgRm?) && PlanOf(nv, c).Some?
  {
    if c.Del? then c.id else GetOrder(nv, c.kind)[c.pos]
  }

  /** A deletion keeps the boot order in order; stopped by a failing write, it leaves nothing
      dangling but the entry it deletes. */
  lemma DeleteKeeps(nv: Nvram, c: Command, n: nat)
    requires Good(nv) && (c.Del? || c.BcfgRm?) && PlanOf(nv, c).Some? && n <= |PlanOf(nv, c).value|
    ensures GoodBut(ApplyAll(nv, PlanOf(nv, c).value[..n]), c.kind, Victim(nv, c))
    ensures n == |PlanOf(nv, c).value| ==> Good(ApplyAll(nv, PlanOf(nv, c).value[..n]))
  {
    hide Distinct, ApplyAll, Apply, Good, GoodBut, OrderBytes, NextIs, IndexOf, RemoveAt;
    var k, id := c.kind, Victim(nv, c);
    var s := GetOrder(nv, k);
    if c.BcfgRm? {
      EntryOff(nv, k, id, c.pos);
      TwoPrefix(nv, Write(Entry(k, id), None), WriteOrder(k, RemoveAt(s, c.pos)), n);
    } else {
      var i := IndexOf(s, id);
      var tail: Plan := if k == Boot && NextIs(nv, id) then [Write(BootNext, None)] else [];
      var head: Plan := [Write(Entry(k, id), None)] + (if i < |s| then [WriteOrder(k, RemoveAt(s, i))] else []);
      assert PlanOf(nv, c).value == head + tail;
      if i < |s| {
        EntryOff(nv, k, id, i);
        assert head == [Write(Entry(k, id), None), WriteOrder(k, RemoveAt(s, i))];
        TwoPrefix(nv, head[0], head[1], if n < 2 then n else 2);
        assert head == [head[0], head[1]];
      } else {
        assert s[..i] == s;
        NotListed(nv, k, id);
        assert head == [head[0]];
        OnePrefix(nv, head[0], if n < 1 then n else 1);
      }
      NextLast(nv, head, tail, k, id, n);
    }
  }

  /** Deleting an entry and then taking it out of the order. */
  lemma EntryOff(nv: Nvram, k: Kind, id: nat, i: nat)
    requires Good(nv) && i < |GetOrder(nv, k)| && GetOrder(nv, k)[i] == id
    ensures var nw := Apply(nv, Write(Entry(k, id), None));
      GoodBut(nv, k, id) && GoodBut(nw, k, id)
      && Good(Apply(nw, WriteOrder(k, RemoveAt(GetOrder(nv, k), i))))
      && GoodBut(Apply(nw, WriteOrder(k, RemoveAt(GetOrder(nv, k), i))), k, id)
  {
    hide Distinct, RemoveAt, OrderBytes, Apply;
    var s := GetOrder(nv, k);
    var nw := Apply(nv, Write(Entry(k, id), None));
    EntryDeleted(nv, k, id);
    RemoveKeeps(s, i);
    var v := RemoveAt(s, i);
    forall j | 0 <= j < |v| ensures v[j] <= MAX_ID && Entry(k, v[j]) in nw { assert v[j] in v; }
    NewOrder(nw, k, v);
  }

  lemma NotListed(nv: Nvram, k: Kind, id: nat)
    requires Good(nv) && id !in GetOrder(nv, k)
    ensures var nw := Apply(nv, Write(Entry(k, id), None));
      GoodBut(nv, k, id) && GoodBut(nw, k, id) && Good(nw)
  {
    hide Distinct, Apply;
    EntryDeleted(nv, k, id);
  }

  /** The last write of a deletion, to BootNext, does not matter to the orders. */
  lemma NextLast(nv: Nvram, head: Plan, tail: Plan, k: Kind, id: nat, n: nat)
    requires n <= |head + tail| && (tail == [] || tail == [Write(BootNext, None)])
    requires GoodBut(ApplyAll(nv, head[..if n < |head| then n else |head|]), k, id)
    requires n >= |head| ==> Good(ApplyAll(nv, head[..|head|]))
    ensures GoodBut(ApplyAll(nv, (head + tail)[..n]), k, id)
    ensures n == |head + tail| ==> Good(ApplyAll(nv, (head + tail)[..n]))
  {
    hide Good, GoodBut, Apply;
    if n <= |head| {
      assert (head + tail)[..n] == head[..n];
    } else {
      assert (head + tail)[..n] == head + tail && head[..|head|] == head;
      ApplyConcat(nv, head, tail);
      var nw := ApplyAll(nv, head);
      assert tail[1..] == [];
      NextWritten(nw, None);
    }
  }

  lemma {:induction false} ApplyConcat(nv: Nvram, p: Plan, q: Plan)
    ensures ApplyAll(nv, p + q) == ApplyAll(ApplyAll(nv, p), q)
    decreases |p|
  {
    if p == [] {
      assert p + q == q;
    } else {
      assert (p + q)[1..] == p[1..] + q;
      ApplyConcat(Apply(nv, p[0]), p[1..], q);
    }
  }
}
