/** How statements follow one another, what a call does, and what END and declarations leave behind. */
module BasicRuns {
  import opened ExprSyntax
  import opened BasicValues
  import opened BasicSyntax
  import opened Semantics
  import opened BasicFlow
  import opened Optional

  // ---- blocks and jumps ----

  /** The last label of that name. */
  ghost predicate LabelAt(labels: seq<Label>, name: string, index: nat) {
    exists k :: 0 <= k < |labels| && labels[k] == Label(name, index)
      && forall m :: k < m < |labels| ==> labels[m].name != name
  }

  lemma {:induction false} TargetIsLabel(labels: seq<Label>, name: string)
    ensures Target(labels, name) == None <==> forall k :: 0 <= k < |labels| ==> labels[k].name != name
    ensures forall i: nat :: LabelAt(labels, name, i) ==> Target(labels, name) == Some(i)
  {
    var n := |labels| - 1;
    if n >= 0 {
      TargetIsLabel(labels[..n], name);
      forall i: nat | LabelAt(labels, name, i) ensures Target(labels, name) == Some(i) {
        var k :| 0 <= k < |labels| && labels[k] == Label(name, i) && forall m :: k < m < |labels| ==> labels[m].name != name;
        if k < n {
          assert labels[..n][k] == Label(name, i);
          assert LabelAt(labels[..n], name, i);
        }
      }
    }
  }

  /** What follows when the i-th statement of a block has come to r. */
  ghost predicate Follows(env: Env, b: Block, inProc: bool, i: nat, r: Done, d: Done)
    requires BlockOk(b, inProc) && i < |b.stmts| && (Running(r.s) ==> Ready(env, r.s) && (inProc ==> r.s.frames != []))
    requires r.x == XOk || r.x == XGoto ==> Running(r.s)
  {
    match r.x
    case XOk => d == ExecBlock(env, r.s, b, inProc, i + 1)
    case XGoto =>
      && ((forall k :: 0 <= k < |b.labels| ==> b.labels[k].name != r.s.gotoLabel) ==> d == r)
      && forall j: nat :: j <= |b.stmts| && LabelAt(b.labels, r.s.gotoLabel, j) ==> d == ExecBlock(env, r.s, b, inProc, j)
    case XError => d == if r.s.ended && !r.s.hasError then Done(r.s, XEnd) else r
    case _ => d == r
  }

  /** A block polls for Ctrl-C before each statement, executes them in order, goes to its own labels, and
      hands everything else on. */
  lemma BlockLaw(env: Env, s: State, b: Block, inProc: bool, i: nat)
    requires Ready(env, s) && BlockOk(b, inProc) && (inProc ==> s.frames != []) && i <= |b.stmts|
    ensures i == |b.stmts| ==> ExecBlock(env, s, b, inProc, i) == Done(s, XOk)
    ensures i < |b.stmts| && s.budget == 0 ==> ExecBlock(env, s, b, inProc, i) == Done(s.(hasError := true), XError)
    ensures i < |b.stmts| && s.budget > 0 ==>
      Runs(env, s.(budget := s.budget - 1), b.stmts[i], inProc)
      && Executed(s.(budget := s.budget - 1), ExecStmt(env, s.(budget := s.budget - 1), b.stmts[i], inProc))
    ensures i < |b.stmts| && s.budget > 0 ==>
      Follows(env, b, inProc, i, ExecStmt(env, s.(budget := s.budget - 1), b.stmts[i], inProc), ExecBlock(env, s, b, inProc, i))
  {
    hide ExecStmt, Target;
    if i < |b.stmts| && s.budget > 0 {
      var r := ExecStmt(env, s.(budget := s.budget - 1), b.stmts[i], inProc);
      TargetIsLabel(b.labels, r.s.gotoLabel);
      hide LabelAt;
    }
  }

  /** EXIT, CONTINUE and GOTO change nothing but what comes next. */
  lemma JumpLaw(env: Env, s: State, inProc: bool, kind: LoopKind, name: string)
    requires Ready(env, s) && (inProc ==> s.frames != [])
    ensures ExecStmt(env, s, Exit(kind), inProc) == Done(Counted(s), XExit(kind))
    ensures ExecStmt(env, s, Continue(kind), inProc) == Done(Counted(s), XContinue(kind))
    ensures ExecStmt(env, s, Goto(name), inProc) == Done(Counted(s).(gotoLabel := name), XGoto)
  {
  }

  // ---- END ----

  /** END leaves everything as it is; its code is the value converted to 32 bits. */
  lemma EndLaw(env: Env, s: State, inProc: bool, e: Expr, n: int, t: State)
    requires Runs(env, s, End(Some(e)), inProc) && Gives(env, Counted(s), e, IntV(n), t)
    ensures var d := ExecStmt(env, s, End(Some(e)), inProc);
      && d.x == XEnd && d.s.ended && !d.s.hasError && d.s.globals == t.globals && d.s.frames == t.frames && d.s.out == t.out
      && -0x8000_0000 <= d.s.endCode < 0x8000_0000 && (d.s.endCode - n) % 0x1_0000_0000 == 0
      && d.s.atEnd == Snapshot(d.s.steps, t.globals, t.out, d.s.endCode)
  {
    EndStep(env, s, inProc, Some(e));
    EndIs(env, Counted(s), e, n, t);
    CodeIs(n);
    hide *;
  }

  lemma EndStep(env: Env, s: State, inProc: bool, e: Option<Expr>)
    requires Runs(env, s, End(e), inProc)
    ensures ExecStmt(env, s, End(e), inProc) == ExecEnd(env, Counted(s), e)
  {
    hide ExecEnd;
  }

  lemma EndIs(env: Env, s: State, e: Expr, n: int, t: State)
    requires Gives(env, s, e, IntV(n), t)
    ensures ExecEnd(env, s, Some(e)) == Done(t.(ended := true, endCode := Int32(n), atEnd := Snapshot(t.steps, t.globals, t.out, Int32(n))), XEnd)
    ensures !t.hasError
  {
    assert EvalInt(env, s, e) == Out(t, Some(n));
    hide Eval, EvalInt, Int32;
    assert CodeOf(env, s, Some(e)) == Out(t, Some(n));
    hide CodeOf;
  }

  lemma CodeIs(n: int)
    ensures -0x8000_0000 <= Int32(n) < 0x8000_0000 && (Int32(n) - n) % 0x1_0000_0000 == 0
  {
  }

  /** Without a value the code is 0. */
  lemma BareEnd(env: Env, s: State, inProc: bool)
    requires Runs(env, s, End(None), inProc)
    ensures var d := ExecStmt(env, s, End(None), inProc);
      && d.x == XEnd && d.s.ended && d.s.endCode == 0 && d.s.globals == s.globals && d.s.frames == s.frames && d.s.out == s.out
      && d.s.atEnd == Snapshot(d.s.steps, s.globals, s.out, 0)
  {
    assert CodeOf(env, Counted(s), None) == Out(Counted(s), Some(0));
    hide CodeOf;
    assert ExecStmt(env, s, End(None), inProc) == ExecEnd(env, Counted(s), None);
  }

  // ---- procedures ----

  /** Each parameter holds the value of its argument; of two with one name the later. */
  ghost predicate Bound(params: seq<string>, vs: seq<Value>, locals: Table) {
    && |vs| == |params| && (forall p :: p in locals <==> p in params)
    && forall i :: 0 <= i < |params| && (forall j :: i < j < |params| ==> params[j] != params[i]) ==>
      params[i] in locals && locals[params[i]] == Cell(false, vs[i], [])
  }

  /** The values agree with the names of the parameters. */
  predicate Agreeing(params: seq<string>, vs: seq<Value>) {
    |vs| == |params| && forall i :: 0 <= i < |vs| ==> vs[i].StrV? == IsText(params[i])
  }

  lemma {:induction false} BindFrom(env: Env, pr: Proc, args: seq<Expr>, vs: seq<Value>, ts: seq<State>, i: nat, locals: Table)
    returns (all: Table)
    requires AllGive(env, args, vs, ts) && ExprsOk(args) && Agreeing(pr.params, vs) && i <= |args| && Ready(env, ts[i])
    requires TableOk(locals) && Bound(pr.params[..i], vs[..i], locals)
    ensures Bound(pr.params, vs, all) && TableOk(all) && Ready(env, ts[|args|]) && ts[|args|].frames == ts[i].frames
    ensures Bind(env, ts[i], pr, args, i, locals) == Out(ts[|args|], Some(all))
    decreases |args| - i
  {
    hide Eval, StateOk, EnvOk, TableOk, Bound;
    if i == |args| {
      all := locals;
      assert pr.params[..i] == pr.params && vs[..i] == vs;
    } else {
      assert Gives(env, ts[i], args[i], vs[i], ts[i + 1]);
      GivesReady(env, ts[i], args[i], vs[i], ts[i + 1]);
      var next := locals[pr.params[i] := Cell(false, vs[i], [])];
      BoundMore(pr.params[..i], vs[..i], locals, pr.params[i], vs[i]);
      assert pr.params[..i + 1] == pr.params[..i] + [pr.params[i]] && vs[..i + 1] == vs[..i] + [vs[i]];
      TableUpdate(locals, pr.params[i], Cell(false, vs[i], []));
      all := BindFrom(env, pr, args, vs, ts, i + 1, next);
    }
  }

  lemma BoundMore(params: seq<string>, vs: seq<Value>, locals: Table, p: string, v: Value)
    requires Bound(params, vs, locals)
    ensures Bound(params + [p], vs + [v], locals[p := Cell(false, v, [])])
  {
    var ps, ws, t := params + [p], vs + [v], locals[p := Cell(false, v, [])];
    forall i | 0 <= i < |ps| && (forall j :: i < j < |ps| ==> ps[j] != ps[i])
      ensures ps[i] in t && t[ps[i]] == Cell(false, ws[i], [])
    {
      if i < |params| {
        assert ps[|params|] == p;
        forall j | i < j < |params| ensures params[j] != params[i] {
          assert ps[j] == params[j];
        }
      }
    }
  }

  /** What a call comes to whose body has come to d, in a frame above those of s. */
  ghost predicate Comes(s: State, pr: Proc, d: Done, r: Out<Value>) {
    d.s.frames != [] && var u, ret := d.s.(frames := s.frames), d.s.frames[|d.s.frames| - 1].ret;
    if d.x == XOk || d.x == XReturn then
      var v := if ret.Some? then ret.value else if IsText(pr.name) then StrV("") else IntV(0);
      if pr.isFunction && v.StrV? != IsText(pr.name) then r == Out(u.(hasError := true), None) else r == Out(u, Some(v))
    else if d.x == XError || d.x == XEnd then r == Out(u, None)
    else r == Out(u.(hasError := true), None)
  }

  /** The state in which the body of a procedure begins. */
  function Inside(s: State, pr: Proc, locals: Table): State {
    s.(frames := s.frames + [Frame(locals, pr, None)])
  }

  lemma InvokeIs(env: Env, s: State, pr: Proc, locals: Table)
    requires Ready(env, s) && TableOk(locals) && |s.frames| < 200 && pr.name in env.procs && env.procs[pr.name] == pr
    ensures Ready(env, Inside(s, pr, locals)) && ProcOk(pr)
    ensures Comes(s, pr, ExecBlock(env, Inside(s, pr, locals), pr.body, true, 0), Invoke(env, s, pr, locals))
  {
    hide ExecBlock;
    assert Inside(s, pr, locals) == Entered(s, pr, locals);
    var d := ExecBlock(env, Inside(s, pr, locals), pr.body, true, 0);
    assert Left(s, pr, locals, d.s) == d.s.(frames := s.frames);
  }

  /** A call evaluates its arguments in order, runs the body with each parameter equal to its argument, and
      yields what RETURN has set, else 0 or "". */
  lemma CallLaw(env: Env, s: State, name: string, args: seq<Expr>, vs: seq<Value>, ts: seq<State>) returns (locals: Table)
    requires Ready(env, s) && name in env.procs && env.procs[name].isFunction && ExprsOk(args)
    requires Seen(s, name).Some? ==> !Seen(s, name).value.isArray
    requires AllGive(env, args, vs, ts) && ts[0] == s && Agreeing(env.procs[name].params, vs) && |s.frames| < 200
    ensures Bound(env.procs[name].params, vs, locals)
    ensures Ready(env, Inside(ts[|args|], env.procs[name], locals)) && ProcOk(env.procs[name])
    ensures Comes(s, env.procs[name], ExecBlock(env, Inside(ts[|args|], env.procs[name], locals), env.procs[name].body, true, 0),
                  Eval(env, s, Call(name, args)))
  {
    var pr := env.procs[name];
    hide ExecBlock, Invoke, Bind, Bound, TableOk, StateOk, Comes, Inside, AllGive, Eval, CallProc, ProcOk, Agreeing;
    locals := CallBinds(env, s, pr, args, vs, ts);
    InvokeIs(env, ts[|args|], pr, locals);
    ComesSame(ts[|args|], s, pr, ExecBlock(env, Inside(ts[|args|], pr, locals), pr.body, true, 0), Invoke(env, ts[|args|], pr, locals));
    CallIsProc(env, s, name, args);
  }

  lemma CallIsProc(env: Env, s: State, name: string, args: seq<Expr>)
    requires Ready(env, s) && name in env.procs && env.procs[name].isFunction && ExprsOk(args)
    requires Seen(s, name).Some? ==> !Seen(s, name).value.isArray
    ensures env.procs[name].name == name && Eval(env, s, Call(name, args)) == CallProc(env, s, env.procs[name], args)
  {
    SeenIsFound(s, name);
    hide CallProc;
    assert Eval(env, s, Call(name, args)) == EvalCall(env, s, name, args);
  }

  lemma CallStmtIsProc(env: Env, s: State, inProc: bool, name: string, args: seq<Expr>)
    requires Runs(env, s, CallStmt(name, args), inProc) && name in env.procs
    ensures env.procs[name].name == name && ExprsOk(args) && Ready(env, Counted(s))
    ensures var r := CallProc(env, Counted(s), env.procs[name], args);
      ExecStmt(env, s, CallStmt(name, args), inProc) == Done(r.s, if r.v.Some? then XOk else if r.s.ended then XEnd else XError)
  {
    hide CallProc;
    assert ExecStmt(env, s, CallStmt(name, args), inProc) == ExecCall(env, Counted(s), name, args);
  }

  lemma ComesSame(t: State, s: State, pr: Proc, d: Done, r: Out<Value>)
    requires t.frames == s.frames && Comes(t, pr, d, r)
    ensures Comes(s, pr, d, r)
  {
  }

  lemma CallBinds(env: Env, s: State, pr: Proc, args: seq<Expr>, vs: seq<Value>, ts: seq<State>) returns (locals: Table)
    requires Ready(env, s) && ExprsOk(args) && AllGive(env, args, vs, ts) && ts[0] == s && Agreeing(pr.params, vs)
    requires |s.frames| < 200 && pr.name in env.procs && env.procs[pr.name] == pr
    ensures |ts| == |args| + 1 && Bound(pr.params, vs, locals) && TableOk(locals)
    ensures Ready(env, ts[|args|]) && ts[|args|].frames == s.frames
    ensures CallProc(env, s, pr, args) == Invoke(env, ts[|args|], pr, locals)
  {
    assert Bound(pr.params[..0], vs[..0], map[]);
    locals := BindFrom(env, pr, args, vs, ts, 0, map[]);
    hide Eval, Bind, Invoke, Bound;
  }

  /** As a statement a call does the same, and its value is dropped. */
  lemma CallStmtLaw(env: Env, s: State, inProc: bool, name: string, args: seq<Expr>, vs: seq<Value>, ts: seq<State>)
    returns (locals: Table, r: Out<Value>)
    requires Runs(env, s, CallStmt(name, args), inProc) && name in env.procs
    requires AllGive(env, args, vs, ts) && ts[0] == Counted(s) && Agreeing(env.procs[name].params, vs) && |s.frames| < 200
    ensures Bound(env.procs[name].params, vs, locals)
    ensures Ready(env, Inside(ts[|args|], env.procs[name], locals)) && ProcOk(env.procs[name])
    ensures Comes(s, env.procs[name], ExecBlock(env, Inside(ts[|args|], env.procs[name], locals), env.procs[name].body, true, 0), r)
    ensures ExecStmt(env, s, CallStmt(name, args), inProc)
         == Done(r.s, if r.v.Some? then XOk else if r.s.ended then XEnd else XError)
  {
    var pr := env.procs[name];
    hide ExecBlock, Invoke, Bind, Bound, TableOk, StateOk, Comes, Inside, AllGive, CallProc, ExecStmt, ProcOk, Agreeing;
    CallStmtIsProc(env, s, inProc, name, args);
    locals := CallBinds(env, Counted(s), pr, args, vs, ts);
    InvokeIs(env, ts[|args|], pr, locals);
    r := Invoke(env, ts[|args|], pr, locals);
    ComesSame(ts[|args|], s, pr, ExecBlock(env, Inside(ts[|args|], pr, locals), pr.body, true, 0), r);
  }

  /** A wrong number of arguments and the 201st nested call are errors, before anything is evaluated. */
  lemma CallRefused(env: Env, s: State, name: string, args: seq<Expr>)
    requires Ready(env, s) && name in env.procs && ExprsOk(args) && (Seen(s, name).Some? ==> !Seen(s, name).value.isArray)
    requires |args| != |env.procs[name].params| || |s.frames| == 200 || !env.procs[name].isFunction
    ensures Eval(env, s, Call(name, args)) == Out(s.(hasError := true), None)
  {
    SeenIsFound(s, name);
    hide Bind, Invoke;
    var pr := env.procs[name];
    assert Eval(env, s, Call(name, args)) == EvalCall(env, s, name, args);
    if pr.isFunction {
      assert EvalCall(env, s, name, args) == CallProc(env, s, pr, args);
    }
  }

  /** RETURN sets the value of the current frame, and only of a FUNCTION. */
  lemma ReturnLaw(env: Env, s: State, inProc: bool, e: Expr, v: Value, t: State)
    requires Runs(env, s, Return(Some(e)), inProc) && Gives(env, Counted(s), e, v, t)
    ensures s.frames == [] ==> ExecStmt(env, s, Return(Some(e)), inProc) == Done(Counted(s).(hasError := true), XError)
    ensures s.frames != [] ==> t.frames == s.frames && ExecStmt(env, s, Return(None), inProc) == Done(Counted(s), XReturn)
    ensures s.frames != [] ==>
      var k := |s.frames| - 1;
      ExecStmt(env, s, Return(Some(e)), inProc) ==
        if s.frames[k].proc.isFunction then Done(t.(frames := t.frames[..k] + [t.frames[k].(ret := Some(v))]), XReturn)
        else Done(Counted(s).(hasError := true), XError)
  {
    GivesReady(env, Counted(s), e, v, t);
    hide Eval, StateOk;
    assert ExecStmt(env, s, Return(Some(e)), inProc) == ExecReturn(env, Counted(s), Some(e));
    assert ExecStmt(env, s, Return(None), inProc) == ExecReturn(env, Counted(s), None);
  }

  // ---- SELECT ----

  /** Item it matches sel when on: the same value, the comparison, or a range with both ends. */
  ghost predicate ItemDecides(env: Env, s: State, it: CaseItem, sel: Value, on: bool, t: State) {
    match it
    case One(e) => exists v :: Gives(env, s, e, v, t) && v.IntV? == sel.IntV? && on == (v == sel)
    case Is(op, e) =>
      exists v :: Gives(env, s, e, v, t) && v.IntV? == sel.IntV? && ValueOk(sel)
        && op in {Eq, Ne, Lt, Gt, Le, Ge} && on == (BinaryOp(op, sel, v) == Some(IntV(-1)))
    case Range(lo, hi) =>
      exists a, b, u :: Gives(env, s, lo, a, u) && Gives(env, u, hi, b, t) && a.IntV? == b.IntV? == sel.IntV? && ValueOk(sel)
        && on == (BinaryOp(Ge, sel, a) == Some(IntV(-1)) && BinaryOp(Le, sel, b) == Some(IntV(-1)))
  }

  lemma OrderIs(a: Value, b: Value)
    requires ValueOk(a) && ValueOk(b) && a.IntV? == b.IntV?
    ensures (OrderValue(a, b) == 0) == (a == b)
    ensures forall op :: op in {Eq, Ne, Lt, Gt, Le, Ge} ==> Compare(op, OrderValue(a, b)) == Some(BinaryOp(op, a, b) == Some(IntV(-1)))
  {
    if a.StrV? {
      EqualTexts(a.s, b.s);
    }
  }

  lemma {:induction false} EqualTexts(x: string, y: string)
    ensures OrderStr(x, y) == 0 <==> x == y
  {
    if x != [] && y != [] && x[0] == y[0] {
      EqualTexts(x[1..], y[1..]);
      assert x == [x[0]] + x[1..] && y == [y[0]] + y[1..];
    }
  }

  lemma ItemLaw(env: Env, s: State, it: CaseItem, sel: Value, on: bool, t: State)
    requires Ready(env, s) && ItemOk(it) && ValueOk(sel) && ItemDecides(env, s, it, sel, on, t)
    ensures Ready(env, t) && t.frames == s.frames && ItemMatches(env, s, it, sel) == Out(t, Some(on))
  {
    hide Eval, OrderValue, BinaryOp, Compare, StateOk, EnvOk;
    match it {
      case One(e) =>
        var v :| Gives(env, s, e, v, t) && v.IntV? == sel.IntV? && on == (v == sel);
        GivesReady(env, s, e, v, t);
        OrderIs(sel, v);
      case Is(op, e) =>
        var v :| Gives(env, s, e, v, t) && v.IntV? == sel.IntV? && on == (BinaryOp(op, sel, v) == Some(IntV(-1)));
        GivesReady(env, s, e, v, t);
        OrderIs(sel, v);
      case Range(lo, hi) =>
        var a, b, u :| Gives(env, s, lo, a, u) && Gives(env, u, hi, b, t) && a.IntV? == b.IntV? == sel.IntV?
          && on == (BinaryOp(Ge, sel, a) == Some(IntV(-1)) && BinaryOp(Le, sel, b) == Some(IntV(-1)));
        GivesReady(env, s, lo, a, u);
        GivesReady(env, u, hi, b, t);
        RangeIs(env, s, lo, hi, sel, a, u, b, t);
    }
  }

  lemma RangeIs(env: Env, s: State, lo: Expr, hi: Expr, sel: Value, a: Value, u: State, b: Value, t: State)
    requires Gives(env, s, lo, a, u) && Gives(env, u, hi, b, t) && a.IntV? == b.IntV? == sel.IntV? && ValueOk(sel)
    ensures RangeMatches(env, s, Range(lo, hi), sel)
         == Out(t, Some(BinaryOp(Ge, sel, a) == Some(IntV(-1)) && BinaryOp(Le, sel, b) == Some(IntV(-1))))
  {
    GivesReady(env, s, lo, a, u);
    GivesReady(env, u, hi, b, t);
    OrderIs(sel, a);
    OrderIs(sel, b);
    hide Eval, OrderValue, BinaryOp;
  }

  /** The items before the last state do not match, one after the other. */
  ghost predicate NoneDecides(env: Env, items: seq<CaseItem>, sel: Value, ts: seq<State>) {
    0 < |ts| <= |items| + 1 && forall j :: 0 <= j < |ts| - 1 ==> ItemDecides(env, ts[j], items[j], sel, false, ts[j + 1])
  }

  lemma {:induction false} ClauseFrom(env: Env, cl: CaseClause, sel: Value, ts: seq<State>, i: nat)
    requires NoneDecides(env, cl.items, sel, ts) && i < |ts| && Ready(env, ts[i]) && ValueOk(sel) && !cl.isElse
    requires forall k :: 0 <= k < |cl.items| ==> ItemOk(cl.items[k])
    ensures Ready(env, ts[|ts| - 1]) && ts[|ts| - 1].frames == ts[i].frames
    ensures ClauseMatches(env, ts[i], cl, sel, i) == ClauseMatches(env, ts[|ts| - 1], cl, sel, |ts| - 1)
    decreases |ts| - i
  {
    hide ItemDecides, ItemMatches, StateOk, EnvOk;
    if i < |ts| - 1 {
      ItemLaw(env, ts[i], cl.items[i], sel, false, ts[i + 1]);
      ClauseFrom(env, cl, sel, ts, i + 1);
    }
  }

  /** A clause matches when one of its items does, the items being tried in order up to that one; CASE ELSE
      matches. */
  lemma ClauseLaw(env: Env, s: State, cl: CaseClause, sel: Value, ts: seq<State>)
    requires Ready(env, s) && ValueOk(sel) && (forall k :: 0 <= k < |cl.items| ==> ItemOk(cl.items[k]))
    requires NoneDecides(env, cl.items, sel, ts) && ts[0] == s
    ensures cl.isElse ==> ClauseMatches(env, s, cl, sel, 0) == Out(s, Some(true))
    ensures var k, t := |ts| - 1, ts[|ts| - 1]; !cl.isElse && k == |cl.items| ==> ClauseMatches(env, s, cl, sel, 0) == Out(t, Some(false))
    ensures var k, t := |ts| - 1, ts[|ts| - 1]; !cl.isElse && k < |cl.items| ==>
      forall u :: ItemDecides(env, t, cl.items[k], sel, true, u) ==> ClauseMatches(env, s, cl, sel, 0) == Out(u, Some(true))
  {
    hide ItemDecides, ItemMatches, StateOk, EnvOk;
    if !cl.isElse {
      var k, t := |ts| - 1, ts[|ts| - 1];
      ClauseFrom(env, cl, sel, ts, 0);
      if k < |cl.items| {
        forall u | ItemDecides(env, t, cl.items[k], sel, true, u) ensures ItemMatches(env, t, cl.items[k], sel) == Out(u, Some(true)) {
          ItemLaw(env, t, cl.items[k], sel, true, u);
        }
      }
    }
  }

  /** The clauses before the last state do not match, one after the other. */
  ghost predicate AllMiss(env: Env, cases: seq<CaseClause>, sel: Value, ts: seq<State>) {
    0 < |ts| <= |cases| + 1 && forall j :: 0 <= j < |ts| - 1 ==> Misses(env, ts[j], cases[j], sel, ts[j + 1])
  }

  ghost predicate Misses(env: Env, s: State, cl: CaseClause, sel: Value, t: State) {
    && Ready(env, s) && (forall k :: 0 <= k < |cl.items| ==> ItemOk(cl.items[k]))
    && ClauseMatches(env, s, cl, sel, 0) == Out(t, Some(false))
  }

  lemma {:induction false} SelectThrough(env: Env, st: Stmt, inProc: bool, sel: Value, ts: seq<State>, i: nat)
    requires st.Select? && AllMiss(env, st.cases, sel, ts) && i < |ts| && Runs(env, ts[i], st, inProc)
    ensures Runs(env, ts[|ts| - 1], st, inProc)
    ensures SelectFrom(env, ts[i], st, inProc, sel, i) == SelectFrom(env, ts[|ts| - 1], st, inProc, sel, |ts| - 1)
    decreases |ts| - i
  {
    hide Misses, ClauseMatches, StateOk, EnvOk, StmtOk, SelectFrom;
    if i < |ts| - 1 {
      SelectMiss(env, st, inProc, sel, i, ts[i], ts[i + 1]);
      SelectThrough(env, st, inProc, sel, ts, i + 1);
    }
  }

  lemma SelectMiss(env: Env, st: Stmt, inProc: bool, sel: Value, i: nat, s: State, t: State)
    requires st.Select? && Runs(env, s, st, inProc) && i < |st.cases| && Misses(env, s, st.cases[i], sel, t)
    ensures Runs(env, t, st, inProc) && SelectFrom(env, s, st, inProc, sel, i) == SelectFrom(env, t, st, inProc, sel, i + 1)
  {
    hide ClauseMatches, StateOk, EnvOk;
  }

  /** SELECT evaluates its expression once, tries the clauses from the first, and runs the first one that
      matches and no other; without one it does nothing. */
  lemma SelectRunsFirst(env: Env, s: State, st: Stmt, inProc: bool, sel: Value, ts: seq<State>)
    requires st.Select? && Runs(env, s, st, inProc) && AllMiss(env, st.cases, sel, ts) && Gives(env, Counted(s), st.e, sel, ts[0])
    ensures Runs(env, ts[|ts| - 1], st, inProc)
    ensures var k, t := |ts| - 1, ts[|ts| - 1]; k == |st.cases| ==> ExecStmt(env, s, st, inProc) == Done(t, XOk)
    ensures var k, t := |ts| - 1, ts[|ts| - 1]; k < |st.cases| ==>
      var m := ClauseMatches(env, t, st.cases[k], sel, 0);
      m.v == Some(true) ==> ExecStmt(env, s, st, inProc) == ExecBlock(env, m.s, st.cases[k].body, inProc, 0)
  {
    hide Eval, ClauseMatches, ExecBlock;
    GivesReady(env, Counted(s), st.e, sel, ts[0]);
    SelectThrough(env, st, inProc, sel, ts, 0);
    hide StateOk, EnvOk, AllMiss;
    assert ExecStmt(env, s, st, inProc) == ExecSelect(env, Counted(s), st, inProc);
    assert ExecSelect(env, Counted(s), st, inProc) == SelectFrom(env, ts[0], st, inProc, sel, 0);
  }

  // ---- declarations ----

  /** The variable is in the current frame. */
  predicate InFrame(s: State, name: string) {
    s.frames != [] && name in s.frames[|s.frames| - 1].locals
  }

  /** s with a new variable in the current frame. */
  function WithLocal(s: State, name: string, c: Cell): State
    requires s.frames != []
  {
    var k := |s.frames| - 1;
    s.(frames := s.frames[..k] + [s.frames[k].(locals := s.frames[k].locals[name := c])])
  }

  /** The zero of the type of a name. */
  function Nothing(name: string): Value {
    if IsText(name) then StrV("") else IntV(0)
  }

  /** s with the variable a declaration is about: LOCAL makes it in the current frame, DIM and REDIM use
      the one that is there and else make a global. */
  function Made(s: State, name: string, local: bool): State
    requires local ==> s.frames != []
  {
    if local then WithLocal(s, name, Cell(false, Nothing(name), []))
    else if Seen(s, name).Some? then s
    else With(s, name, Cell(false, Nothing(name), []))
  }

  lemma MadeIs(s: State, name: string, local: bool)
    requires StateOk(s) && Running(s) && (local ==> s.frames != [] && !InFrame(s, name))
    ensures Declared(s, name, local || IsLocal(s, name)) == Made(s, name, local)
  {
    SeenIsFound(s, name);
  }

  /** A declaration without size makes a number or a text, 0 or ""; nothing happens to one that is there. */
  lemma DeclareScalar(env: Env, s: State, name: string, redim: bool, local: bool)
    requires Ready(env, s) && (local ==> s.frames != [])
    ensures name in env.builtins || (local && InFrame(s, name)) ==> Declare(env, s, Decl(name, None), redim, local) == s.(hasError := true)
    ensures name !in env.builtins && !(local && InFrame(s, name)) ==>
      Declare(env, s, Decl(name, None), redim, local) ==
        if Seen(Made(s, name, local), name).Some? && Seen(Made(s, name, local), name).value.isArray then Made(s, name, local).(hasError := true)
        else Made(s, name, local)
  {
    if name !in env.builtins && !(local && InFrame(s, name)) {
      MadeIs(s, name, local);
      SeenIsFound(Made(s, name, local), name);
      hide Declared, Made;
    }
  }

  /** The elements of an array with indexes up to n - 1: those kept, and zeros. */
  ghost predicate Sized(name: string, prior: seq<Value>, keep: bool, n: nat, elems: seq<Value>) {
    |elems| == n && forall i :: 0 <= i < n ==> elems[i] == if keep && i < |prior| then prior[i] else Nothing(name)
  }

  /** A declaration with size makes an array with the indexes 0 to ub; REDIM keeps the elements there are.
      A size above 10000000, and an array that DIM would make again, are errors. */
  lemma DeclareArray(env: Env, s: State, name: string, e: Expr, redim: bool, local: bool, ub: int, t: State) returns (elems: seq<Value>)
    requires Ready(env, s) && (local ==> s.frames != []) && name !in env.builtins && !(local && InFrame(s, name))
    requires Gives(env, Made(s, name, local), e, IntV(ub), t)
    ensures Seen(t, name).Some?
    ensures var c, d := Seen(t, name).value, Declare(env, s, Decl(name, Some(e)), redim, local);
      if ub < -1 || ub > 10000000 || (c.isArray && !redim && !local) then d == t.(hasError := true)
      else Sized(name, if c.isArray then c.elems else [], redim, ub + 1, elems) && d == With(t, name, Cell(true, IntV(0), elems))
  {
    hide Eval, Made, Declared, StateOk, EnvOk, Find, Seen, Resized, With, IsLocal;
    MadeIs(s, name, local);
    var u := Made(s, name, local);
    SeenIsFound(t, name);
    GivesReady(env, u, e, IntV(ub), t);
    elems := [];
    DeclareSized(env, s, name, e, redim, local, ub, t);
    var c := Find(t, name).value;
    if !(ub < -1 || ub > 10000000 || (c.isArray && !redim && !local)) {
      if c.isArray {
        ElementsFit(t, name);
      }
      elems := Resized(name, if c.isArray then c.elems else [], ub + 1, redim);
      ResizeIs(t, name, ub, redim, local, elems);
      SizedIs(name, if c.isArray then c.elems else [], redim, ub + 1);
    }
  }

  lemma DeclareSized(env: Env, s: State, name: string, e: Expr, redim: bool, local: bool, ub: int, t: State)
    requires Ready(env, s) && (local ==> s.frames != []) && name !in env.builtins && !(local && InFrame(s, name))
    requires Gives(env, Made(s, name, local), e, IntV(ub), t)
    ensures Ready(env, t) && Find(t, name).Some?
    ensures Declare(env, s, Decl(name, Some(e)), redim, local) == Resize(t, name, ub, redim, local, IsLocal(t, name))
  {
    MadeIs(s, name, local);
    var u := Made(s, name, local);
    GivesReady(env, u, e, IntV(ub), t);
    SameLocal(u, t, name);
    assert EvalInt(env, u, e) == Out(t, Some(ub));
    hide Eval, EvalInt, Made, Declared, Resize, StateOk, EnvOk;
  }

  lemma ElementsFit(t: State, name: string)
    requires StateOk(t) && Find(t, name).Some? && Find(t, name).value.isArray
    ensures forall k :: 0 <= k < |Find(t, name).value.elems| ==> Fits(Find(t, name).value.elems[k], NameType(name))
  {
    assert CellOk(name, Find(t, name).value);
  }

  lemma SizedIs(name: string, prior: seq<Value>, keep: bool, n: nat)
    requires forall k :: 0 <= k < |prior| ==> Fits(prior[k], NameType(name))
    ensures Sized(name, prior, keep, n, Resized(name, prior, n, keep))
  {
  }

  lemma ResizeIs(s: State, name: string, ub: int, redim: bool, local: bool, elems: seq<Value>)
    requires StateOk(s) && Running(s) && Find(s, name).Some? && -1 <= ub <= 10000000 && !(Find(s, name).value.isArray && !redim && !local)
    requires elems == Resized(name, if Find(s, name).value.isArray then Find(s, name).value.elems else [], ub + 1, redim)
    ensures Resize(s, name, ub, redim, local, IsLocal(s, name)) == With(s, name, Cell(true, IntV(0), elems))
  {
  }

  /** Declaration d leads from s to t. */
  ghost predicate Makes(env: Env, d: Decl, redim: bool, local: bool, s: State, t: State) {
    && Ready(env, s) && Ready(env, t) && OptOk(d.size) && (local ==> s.frames != [])
    && Declare(env, s, d, redim, local) == t
  }

  lemma {:induction false} DeclareFrom(env: Env, ds: seq<Decl>, redim: bool, local: bool, ts: seq<State>, i: nat)
    requires |ts| == |ds| + 1 && i <= |ds| && DeclsOk(ds) && Ready(env, ts[i]) && (local ==> ts[i].frames != [])
    requires forall j :: 0 <= j < |ds| ==> Makes(env, ds[j], redim, local, ts[j], ts[j + 1])
    ensures ExecDeclare(env, ts[i], ds, redim, local, i) == Done(ts[|ds|], XOk)
    decreases |ds| - i
  {
    hide Makes, Declare, StateOk, EnvOk;
    if i < |ds| {
      MakesIs(env, ds[i], redim, local, ts[i], ts[i + 1]);
      DeclareFrom(env, ds, redim, local, ts, i + 1);
    }
  }

  lemma MakesIs(env: Env, d: Decl, redim: bool, local: bool, s: State, t: State)
    requires Makes(env, d, redim, local, s, t)
    ensures Ready(env, s) && Ready(env, t) && OptOk(d.size) && (local ==> s.frames != [] && t.frames != [])
    ensures Declare(env, s, d, redim, local) == t
  {
    hide Declare;
  }

  /** DIM, REDIM and LOCAL make their declarations one after the other. */
  lemma DimLaw(env: Env, s: State, inProc: bool, ds: seq<Decl>, redim: bool, ts: seq<State>)
    requires Runs(env, s, Dim(ds, redim), inProc) && |ts| == |ds| + 1 && ts[0] == Counted(s)
    requires forall j :: 0 <= j < |ds| ==> Makes(env, ds[j], redim, false, ts[j], ts[j + 1])
    ensures ExecStmt(env, s, Dim(ds, redim), inProc) == Done(ts[|ds|], XOk)
  {
    hide Makes, Declare, ExecDeclare;
    DeclareFrom(env, ds, redim, false, ts, 0);
  }

  lemma LocalLaw(env: Env, s: State, ds: seq<Decl>, ts: seq<State>)
    requires Runs(env, s, Local(ds), true) && |ts| == |ds| + 1 && ts[0] == Counted(s)
    requires forall j :: 0 <= j < |ds| ==> Makes(env, ds[j], false, true, ts[j], ts[j + 1])
    ensures ExecStmt(env, s, Local(ds), true) == Done(ts[|ds|], XOk)
  {
    hide Makes, Declare, ExecDeclare;
    DeclareFrom(env, ds, false, true, ts, 0);
  }

  // ---- built-in functions ----

  /** The letter of argument i; the last one repeats. */
  function Letter(types: string, i: nat): char {
    if types == "" then '?' else if i < |types| then types[i] else types[|types| - 1]
  }

  /** Argument i: 's' asks for a text and 'n' for a number, and 'a' is an array, which is not evaluated. */
  ghost predicate ArgGives(env: Env, types: string, i: nat, s: State, e: Expr, v: Value, t: State) {
    if Letter(types, i) == 'a' then v == IntV(0) && t == s && Ready(env, s)
    else Gives(env, s, e, v, t) && (Letter(types, i) == 's' ==> v.StrV?) && (Letter(types, i) == 'n' ==> v.IntV?)
  }

  ghost predicate ArgsGive(env: Env, types: string, args: seq<Expr>, vs: seq<Value>, ts: seq<State>) {
    |vs| == |args| && |ts| == |args| + 1 && forall j :: 0 <= j < |args| ==> ArgGives(env, types, j, ts[j], args[j], vs[j], ts[j + 1])
  }

  lemma {:induction false} ArgumentsFrom(env: Env, types: string, args: seq<Expr>, vs: seq<Value>, ts: seq<State>, i: nat)
    requires ArgsGive(env, types, args, vs, ts) && ExprsOk(args) && i <= |args| && Ready(env, ts[i])
    ensures Ready(env, ts[|args|]) && Arguments(env, ts[i], types, args, i, vs[..i]) == Out(ts[|args|], Some(vs))
    decreases |args| - i
  {
    hide ArgGives, StateOk, EnvOk, LetterOk, ArgType;
    if i == |args| {
      assert vs[..i] == vs;
    } else {
      ArgumentIs(env, types, args, i, vs[i], ts[i], ts[i + 1], vs[..i]);
      assert vs[..i + 1] == vs[..i] + [vs[i]];
      ArgumentsFrom(env, types, args, vs, ts, i + 1);
    }
  }

  lemma ArgumentIs(env: Env, types: string, args: seq<Expr>, i: nat, v: Value, s: State, t: State, vals: seq<Value>)
    requires i < |args| && ExprsOk(args) && Ready(env, s) && ArgGives(env, types, i, s, args[i], v, t)
    ensures Ready(env, t) && Arguments(env, s, types, args, i, vals) == Arguments(env, t, types, args, i + 1, vals + [v])
  {
    hide Eval, EnvOk;
  }

  /** A built-in is applied to the values of its arguments; a result of the wrong type becomes 0 or "". */
  lemma BuiltinLaw(env: Env, s: State, name: string, args: seq<Expr>, vs: seq<Value>, ts: seq<State>)
    requires Ready(env, s) && name in env.builtins && name !in env.procs && ExprsOk(args)
    requires Seen(s, name).Some? ==> !Seen(s, name).value.isArray
    requires env.builtins[name].minArgs <= |args| <= env.builtins[name].maxArgs && |args| <= 16
    requires ArgsGive(env, env.builtins[name].types, args, vs, ts) && ts[0] == s
    ensures var v, t := env.builtins[name].fn(vs), ts[|args|];
      && (v.None? ==> Eval(env, s, Call(name, args)) == Out(t.(hasError := true), None))
      && (v.Some? && v.value.StrV? != IsText(name) ==> Eval(env, s, Call(name, args)) == Out(t, Some(Nothing(name))))
      && (v.Some? && v.value.StrV? == IsText(name) && ValueOk(v.value) ==> Eval(env, s, Call(name, args)) == Out(t, v))
  {
    SeenIsFound(s, name);
    ArgumentsFrom(env, env.builtins[name].types, args, vs, ts, 0);
    hide Arguments, ArgsGive, StateOk, EnvOk, Find;
    assert Eval(env, s, Call(name, args)) == EvalCall(env, s, name, args);
    assert EvalCall(env, s, name, args) == CallBuiltin(env, s, name, args);
  }

  /** A bare name that is no variable prefers the built-in to a procedure, if the built-in can do without arguments. */
  lemma BareBuiltin(env: Env, s: State, name: string)
    requires Ready(env, s) && Seen(s, name).None? && name in env.builtins
    ensures env.builtins[name].minArgs > 0 ==> Eval(env, s, Var(name)) == Out(s.(hasError := true), None)
    ensures env.builtins[name].minArgs == 0 ==>
      var v := env.builtins[name].fn([]);
      && (v.None? ==> Eval(env, s, Var(name)) == Out(s.(hasError := true), None))
      && (v.Some? && v.value.StrV? != IsText(name) ==> Eval(env, s, Var(name)) == Out(s, Some(Nothing(name))))
      && (v.Some? && v.value.StrV? == IsText(name) && ValueOk(v.value) ==> Eval(env, s, Var(name)) == Out(s, v))
  {
    SeenIsFound(s, name);
    hide Invoke;
    assert Eval(env, s, Var(name)) == EvalVar(env, s, name);
  }

  /** Too few arguments, too many, and more than 16 are errors, before anything is evaluated. */
  lemma BuiltinRefused(env: Env, s: State, name: string, args: seq<Expr>)
    requires Ready(env, s) && name in env.builtins && name !in env.procs && ExprsOk(args)
    requires Seen(s, name).Some? ==> !Seen(s, name).value.isArray
    requires |args| < env.builtins[name].minArgs || |args| > env.builtins[name].maxArgs || |args| > 16
    ensures Eval(env, s, Call(name, args)) == Out(s.(hasError := true), None)
  {
    SeenIsFound(s, name);
    hide Arguments;
    assert Eval(env, s, Call(name, args)) == EvalCall(env, s, name, args);
    assert EvalCall(env, s, name, args) == CallBuiltin(env, s, name, args);
  }

  /** A name that is no array, procedure or built-in cannot be called. */
  lemma UnknownCall(env: Env, s: State, inProc: bool, name: string, args: seq<Expr>)
    requires Runs(env, s, CallStmt(name, args), inProc) && name !in env.procs && name !in env.builtins
    requires Seen(s, name).Some? ==> !Seen(s, name).value.isArray
    ensures Eval(env, s, Call(name, args)) == Out(s.(hasError := true), None)
    ensures ExecStmt(env, s, CallStmt(name, args), inProc) == Done(Counted(s).(hasError := true), XError)
  {
    SeenIsFound(s, name);
    assert Eval(env, s, Call(name, args)) == EvalCall(env, s, name, args);
    assert ExecStmt(env, s, CallStmt(name, args), inProc) == ExecCall(env, Counted(s), name, args);
  }
}
