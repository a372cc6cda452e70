/** When a statement does what: which clause, loop body or procedure runs, in what order expressions are
    evaluated, and what each construct leaves behind. Truth is spelled out: 0 and "" are false. */
module BasicFlow {
  import opened ExprSyntax
  import opened BasicValues
  import opened BasicSyntax
  import opened Semantics
  import opened Optional

  ghost predicate Ready(env: Env, s: State) {
    EnvOk(env) && StateOk(s) && Running(s)
  }

  /** A statement can be executed. */
  ghost predicate Runs(env: Env, s: State, st: Stmt, inProc: bool) {
    Ready(env, s) && StmtOk(st, inProc) && (inProc ==> s.frames != [])
  }

  /** Expression e has the value v in s, and t is the state behind it. */
  ghost predicate Gives(env: Env, s: State, e: Expr, v: Value, t: State) {
    Ready(env, s) && ExprOk(e) && Eval(env, s, e) == Out(t, Some(v))
  }

  lemma GivesReady(env: Env, s: State, e: Expr, v: Value, t: State)
    requires Gives(env, s, e, v, t)
    ensures Ready(env, t) && t.frames == s.frames && ValueOk(v)
  {
  }

  /** A text has a name that ends with '$'. */
  predicate IsText(name: string) {
    name != "" && name[|name| - 1] == '$'
  }

  /** The state in which a statement is executed: it is counted. */
  function Counted(s: State): State {
    s.(steps := s.steps + 1)
  }

  // ---- IF ----

  /** The condition of a clause is 0 or "". */
  ghost predicate Skips(env: Env, cl: IfClause, s: State, t: State) {
    cl.cond.Some? && (Gives(env, s, cl.cond.value, IntV(0), t) || Gives(env, s, cl.cond.value, StrV(""), t))
  }

  /** The clauses before the last state are skipped one after the other. */
  ghost predicate AllSkip(env: Env, cs: seq<IfClause>, ts: seq<State>) {
    0 < |ts| <= |cs| + 1 && forall j :: 0 <= j < |ts| - 1 ==> Skips(env, cs[j], ts[j], ts[j + 1])
  }

  lemma {:induction false} IfFrom(env: Env, st: Stmt, inProc: bool, i: nat, ts: seq<State>)
    requires st.If? && AllSkip(env, st.clauses, ts) && i < |ts| && Runs(env, ts[i], st, inProc)
    ensures Runs(env, ts[|ts| - 1], st, inProc)
    ensures ExecIf(env, ts[i], st, inProc, i) == ExecIf(env, ts[|ts| - 1], st, inProc, |ts| - 1)
    decreases |ts| - i
  {
    hide Eval, StateOk, EnvOk, StmtOk, Skips, ExecIf;
    if i < |ts| - 1 {
      IfStep(env, st, inProc, i, ts[i], ts[i + 1]);
      IfFrom(env, st, inProc, i + 1, ts);
    }
  }

  lemma IfStep(env: Env, st: Stmt, inProc: bool, i: nat, s: State, t: State)
    requires st.If? && Runs(env, s, st, inProc) && i < |st.clauses| && Skips(env, st.clauses[i], s, t)
    ensures Runs(env, t, st, inProc) && ExecIf(env, s, st, inProc, i) == ExecIf(env, t, st, inProc, i + 1)
  {
    hide Eval, StateOk, EnvOk;
  }

  /** What is left when the clauses before the k-th are skipped. */
  ghost predicate IfRest(env: Env, st: Stmt, inProc: bool, k: nat, t: State, d: Done)
    requires st.If? && Runs(env, t, st, inProc) && k <= |st.clauses|
  {
    if k == |st.clauses| then d == Done(t, XOk)
    else if st.clauses[k].cond.None? then d == ExecBlock(env, t, st.clauses[k].body, inProc, 0)
    else forall v, u :: Gives(env, t, st.clauses[k].cond.value, v, u) && v != IntV(0) && v != StrV("") ==>
      Runs(env, u, st, inProc) && d == ExecBlock(env, u, st.clauses[k].body, inProc, 0)
  }

  /** IF runs the body of the first clause whose condition is neither 0 nor "", or ELSE; without one, nothing. */
  lemma IfRunsFirst(env: Env, s: State, st: Stmt, inProc: bool, ts: seq<State>)
    requires st.If? && Runs(env, s, st, inProc) && AllSkip(env, st.clauses, ts) && ts[0] == Counted(s)
    ensures Runs(env, ts[|ts| - 1], st, inProc)
    ensures IfRest(env, st, inProc, |ts| - 1, ts[|ts| - 1], ExecStmt(env, s, st, inProc))
  {
    hide Eval, ExecBlock;
    IfFrom(env, st, inProc, 0, ts);
  }

  // ---- WHILE and DO ----

  /** A WHILE statement does what its loop does. */
  lemma WhileBegins(env: Env, s: State, st: Stmt, inProc: bool)
    requires st.While? && Runs(env, s, st, inProc)
    ensures StateOk(Counted(s)) && ExecStmt(env, s, st, inProc) == ExecWhile(env, Counted(s), st, inProc)
  {
    hide ExecWhile;
  }

  /** WHILE ends before its body exactly when the condition is 0 or "". Otherwise the body runs once, and
      unless it leaves the loop the same WHILE follows, after a poll. */
  lemma WhileStep(env: Env, s: State, st: Stmt, inProc: bool, v: Value, u: State)
    requires st.While? && Runs(env, s, st, inProc) && Gives(env, s, st.cond, v, u)
    ensures Runs(env, u, st, inProc)
    ensures v == IntV(0) || v == StrV("") ==> ExecWhile(env, s, st, inProc) == Done(u, XOk)
    ensures v != IntV(0) && v != StrV("") ==>
      var b, d := ExecBlock(env, u, st.body, inProc, 0), ExecWhile(env, s, st, inProc);
      if b.x == XExit(WhileLoop) then d == Done(b.s, XOk)
      else if b.x != XOk && b.x != XContinue(WhileLoop) then d == b
      else if b.s.budget == 0 then d == Done(b.s.(hasError := true), XError)
      else
        var t := b.s.(budget := b.s.budget - 1);
        Runs(env, t, st, inProc) && d == ExecWhile(env, t, st, inProc)
  {
    hide Eval, ExecBlock;
  }

  lemma DoBegins(env: Env, s: State, st: Stmt, inProc: bool)
    requires st.Do? && Runs(env, s, st, inProc)
    ensures StateOk(Counted(s)) && ExecStmt(env, s, st, inProc) == ExecDo(env, Counted(s), st, inProc)
  {
    hide ExecDo;
  }

  /** WHILE goes on while its condition is neither 0 nor "", UNTIL while it is; a DO without condition goes on. */
  ghost predicate Decides(env: Env, s: State, c: Option<DoCond>, on: bool, t: State) {
    if c.None? then on && t == s
    else exists v :: Gives(env, s, c.value.e, v, t) && on == ((v != IntV(0) && v != StrV("")) != c.value.until)
  }

  /** DO ends before its body exactly when the condition before it says so, and behind it likewise;
      otherwise the same DO follows, after a poll. */
  lemma DoStep(env: Env, s: State, st: Stmt, inProc: bool, on: bool, u: State)
    requires st.Do? && Runs(env, s, st, inProc) && Decides(env, s, st.pre, on, u)
    ensures Runs(env, u, st, inProc)
    ensures !on ==> ExecDo(env, s, st, inProc) == Done(u, XOk)
    ensures on ==>
      var b, d := ExecBlock(env, u, st.body, inProc, 0), ExecDo(env, s, st, inProc);
      if b.x == XExit(DoLoop) then d == Done(b.s, XOk)
      else if b.x != XOk && b.x != XContinue(DoLoop) then d == b
      else forall more, w :: Decides(env, b.s, st.post, more, w) ==>
        if !more then d == Done(w, XOk)
        else if w.budget == 0 then d == Done(w.(hasError := true), XError)
        else
          var t := w.(budget := w.budget - 1);
          Runs(env, t, st, inProc) && d == ExecDo(env, t, st, inProc)
  {
    hide Eval, ExecBlock;
    DecidesGoesOn(env, s, st.pre, on, u);
    if on {
      var b := ExecBlock(env, u, st.body, inProc, 0);
      if b.x == XOk || b.x == XContinue(DoLoop) {
        forall more, w | Decides(env, b.s, st.post, more, w)
          ensures Ready(env, w) && w.frames == b.s.frames && GoesOn(env, b.s, st.post) == Out(w, Some(more))
        {
          DecidesGoesOn(env, b.s, st.post, more, w);
        }
        hide Decides, GoesOn;
      }
    }
  }

  lemma DecidesGoesOn(env: Env, s: State, c: Option<DoCond>, on: bool, t: State)
    requires Ready(env, s) && CondOk(c) && Decides(env, s, c, on, t)
    ensures Ready(env, t) && t.frames == s.frames && GoesOn(env, s, c) == Out(t, Some(on))
  {
    hide Eval;
  }

  // ---- variables ----

  /** The variable of that name: in the current frame, or else among the globals. */
  function Seen(s: State, name: string): Option<Cell> {
    if s.frames != [] && name in s.frames[|s.frames| - 1].locals then Some(s.frames[|s.frames| - 1].locals[name])
    else if name in s.globals then Some(s.globals[name])
    else None
  }

  /** s with the variable set to c where it is, or made a global. */
  function With(s: State, name: string, c: Cell): State {
    var k := |s.frames| - 1;
    if s.frames != [] && name in s.frames[k].locals then
      s.(frames := s.frames[..k] + [s.frames[k].(locals := s.frames[k].locals[name := c])])
    else s.(globals := s.globals[name := c])
  }

  function WithValue(s: State, name: string, v: Value): State {
    With(s, name, if Seen(s, name).Some? then Seen(s, name).value.(v := v) else Cell(false, v, []))
  }

  lemma SeenIsFound(s: State, name: string)
    ensures Seen(s, name) == Find(s, name)
  {
  }

  /** What a bare name means. */
  lemma VarLaw(env: Env, s: State, name: string)
    requires Ready(env, s)
    ensures Seen(s, name).Some? && !Seen(s, name).value.isArray ==> Eval(env, s, Var(name)) == Out(s, Some(Seen(s, name).value.v))
    ensures Seen(s, name).Some? && Seen(s, name).value.isArray ==> Eval(env, s, Var(name)) == Out(s.(hasError := true), None)
    ensures Seen(s, name).None? && name !in env.builtins && (name in env.procs ==> !env.procs[name].isFunction) ==>
      Eval(env, s, Var(name)) == Out(s, Some(if IsText(name) then StrV("") else IntV(0)))
  {
    hide Invoke, Apply;
    SeenIsFound(s, name);
  }

  /** An element of an array, after its index; an index outside the array is an error. */
  lemma ElementLaw(env: Env, s: State, name: string, e: Expr, i: int, t: State)
    requires Gives(env, s, e, IntV(i), t) && Seen(s, name).Some? && Seen(s, name).value.isArray
    ensures Seen(t, name).Some? && Seen(t, name).value.isArray
    ensures var elems := Seen(t, name).value.elems;
      if 0 <= i < |elems| then Eval(env, s, Call(name, [e])) == Out(t, Some(elems[i]))
      else Eval(env, s, Call(name, [e])) == Out(t.(hasError := true), None)
  {
    SeenIsFound(s, name);
    SeenIsFound(t, name);
    IndexIs(env, s, name, e, i, t);
    hide CallProc, CallBuiltin, Index, StateOk, EnvOk, Find, Seen;
    assert Eval(env, s, Call(name, [e])) == EvalCall(env, s, name, [e]);
    assert EvalCall(env, s, name, [e]) == Element(env, s, name, [e][0]);
  }

  lemma IndexIs(env: Env, s: State, name: string, e: Expr, i: int, t: State)
    requires Gives(env, s, e, IntV(i), t) && Find(s, name).Some? && Find(s, name).value.isArray
    ensures Find(t, name).Some? && Find(t, name).value.isArray
    ensures if 0 <= i < |Find(t, name).value.elems| then Index(env, s, name, e) == Out(t, Some(Place(IsLocal(s, name), i)))
      else Index(env, s, name, e) == Out(t.(hasError := true), None)
  {
    assert EvalInt(env, s, e) == Out(t, Some(i));
    hide Eval, EvalInt;
  }

  /** An assignment stores the value of the expression in the variable of its type, and nothing else. */
  lemma AssignLaw(env: Env, s: State, name: string, e: Expr, inProc: bool, v: Value, u: State)
    requires Runs(env, s, Assign(Var(name), e), inProc) && Gives(env, Counted(s), e, v, u)
    ensures if v.StrV? == IsText(name) && name !in env.builtins && name !in env.procs
               && (Seen(u, name).Some? ==> !Seen(u, name).value.isArray)
      then ExecStmt(env, s, Assign(Var(name), e), inProc) == Done(WithValue(u, name, v), XOk)
      else ExecStmt(env, s, Assign(Var(name), e), inProc).x == XError
  {
    StoreIs(env, u, name, v);
    hide Eval, AssignTo, WithValue;
    assert ExecStmt(env, s, Assign(Var(name), e), inProc) == ExecAssign(env, Counted(s), Var(name), e);
  }

  lemma StoreIs(env: Env, u: State, name: string, v: Value)
    requires Ready(env, u) && ValueOk(v)
    ensures if v.StrV? == IsText(name) && name !in env.builtins && name !in env.procs
               && (Seen(u, name).Some? ==> !Seen(u, name).value.isArray)
      then Running(WithValue(u, name, v)) && AssignTo(env, u, Var(name), v) == WithValue(u, name, v)
      else !Running(AssignTo(env, u, Var(name), v))
  {
    SeenIsFound(u, name);
  }

  /** An element is assigned after the value and the index are known. */
  lemma AssignElementLaw(env: Env, s: State, name: string, ix: Expr, e: Expr, inProc: bool, v: Value, u: State, i: int, w: State)
    requires Runs(env, s, Assign(Call(name, [ix]), e), inProc) && Gives(env, Counted(s), e, v, u) && Gives(env, u, ix, IntV(i), w)
    requires Seen(u, name).Some? && Seen(u, name).value.isArray && v.StrV? == IsText(name)
    ensures Seen(w, name).Some? && Seen(w, name).value.isArray
    ensures var c := Seen(w, name).value;
      if 0 <= i < |c.elems|
      then ExecStmt(env, s, Assign(Call(name, [ix]), e), inProc) == Done(With(w, name, c.(elems := c.elems[i := v])), XOk)
      else ExecStmt(env, s, Assign(Call(name, [ix]), e), inProc) == Done(w.(hasError := true), XError)
  {
    ElementIs(env, u, name, ix, v, i, w);
    hide Eval, AssignTo, With;
    assert ExecStmt(env, s, Assign(Call(name, [ix]), e), inProc) == ExecAssign(env, Counted(s), Call(name, [ix]), e);
  }

  lemma ElementIs(env: Env, u: State, name: string, ix: Expr, v: Value, i: int, w: State)
    requires Gives(env, u, ix, IntV(i), w) && ValueOk(v)
    requires Seen(u, name).Some? && Seen(u, name).value.isArray && v.StrV? == IsText(name)
    ensures Seen(w, name).Some? && Seen(w, name).value.isArray
    ensures var c := Seen(w, name).value;
      if 0 <= i < |c.elems| then
        Running(With(w, name, c.(elems := c.elems[i := v])))
        && AssignTo(env, u, Call(name, [ix]), v) == With(w, name, c.(elems := c.elems[i := v]))
      else AssignTo(env, u, Call(name, [ix]), v) == w.(hasError := true)
  {
    hide Eval, Index, StateOk, EnvOk, With, Store, Find, Seen, CellOk;
    SeenIsFound(u, name);
    SeenIsFound(w, name);
    IndexIs(env, u, name, ix, i, w);
    GivesReady(env, u, ix, IntV(i), w);
    if 0 <= i < |Find(w, name).value.elems| {
      PutElement(w, name, i, v);
    }
    assert [ix][0] == ix;
    SameLocal(u, w, name);
  }

  lemma SameLocal(s: State, t: State, name: string)
    requires t.frames == s.frames
    ensures IsLocal(t, name) == IsLocal(s, name)
  {
  }

  lemma PutElement(w: State, name: string, i: nat, v: Value)
    requires StateOk(w) && Running(w) && Find(w, name).Some? && Find(w, name).value.isArray
    requires ValueOk(v) && v.StrV? == IsText(name) && i < |Find(w, name).value.elems|
    ensures var c := Find(w, name).value;
      var d := c.(elems := c.elems[i := v]);
      && CellOk(name, d) && (IsLocal(w, name) ==> w.frames != []) && d.isArray
      && Store(w, IsLocal(w, name), name, d) == With(w, name, d) && Running(With(w, name, d))
  {
  }

  // ---- expressions ----

  /** Minus and NOT; the smallest number is its own opposite. */
  lemma UnaryLaw(env: Env, s: State, e: Expr, v: Value, t: State)
    requires Gives(env, s, e, v, t)
    ensures v.IntV? && v.i > -0x8000_0000_0000_0000 ==> Eval(env, s, Neg(e)) == Out(t, Some(IntV(-v.i)))
    ensures v.IntV? && v.i == -0x8000_0000_0000_0000 ==> Eval(env, s, Neg(e)) == Out(t, Some(v))
    ensures v.IntV? ==> Eval(env, s, Invert(e)) == Out(t, Some(IntV(-1 - v.i)))
    ensures v.StrV? ==> Eval(env, s, Neg(e)) == Out(t.(hasError := true), None) == Eval(env, s, Invert(e))
  {
  }

  /** Both operands are evaluated, the left one first, whatever the operator is. */
  lemma BinaryLaw(env: Env, s: State, op: Token, a: Expr, b: Expr, x: Value, t: State, y: Value, u: State)
    requires Gives(env, s, a, x, t) && Gives(env, t, b, y, u)
    ensures BinaryOp(op, x, y).Some? ==> Eval(env, s, Binary(op, a, b)) == Out(u, BinaryOp(op, x, y))
    ensures BinaryOp(op, x, y).None? ==> Eval(env, s, Binary(op, a, b)) == Out(u.(hasError := true), None)
  {
    hide BinaryOp;
    assert Eval(env, s, Binary(op, a, b)) == EvalBinary(env, s, Binary(op, a, b));
  }

  lemma ConstantLaw(env: Env, s: State, n: int, text: string)
    requires Ready(env, s) && -0x8000_0000_0000_0000 <= n < 0x8000_0000_0000_0000
    ensures Eval(env, s, Number(n)) == Out(s, Some(IntV(n))) && Eval(env, s, Text(text)) == Out(s, Some(StrV(text)))
  {
  }

  // ---- lists of expressions ----

  /** The expressions have the values vs, one after the other; ts are the states between them. */
  ghost predicate AllGive(env: Env, es: seq<Expr>, vs: seq<Value>, ts: seq<State>) {
    |vs| == |es| && |ts| == |es| + 1 && forall j :: 0 <= j < |es| ==> Gives(env, ts[j], es[j], vs[j], ts[j + 1])
  }

  /** Each value is printed behind those before it; us[j] is the state before argument j. */
  ghost predicate AllPrint(env: Env, es: seq<Expr>, vs: seq<Value>, us: seq<State>) {
    && |vs| == |es| && |us| == |es| + 1
    && forall j :: 0 <= j < |es| ==> Prints(env, us[j], es[j], vs[j], us[j + 1])
  }

  ghost predicate Prints(env: Env, s: State, e: Expr, v: Value, t: State) {
    exists u :: Gives(env, s, e, v, u) && t == u.(out := u.out + [v])
  }

  lemma {:induction false} PrintFrom(env: Env, es: seq<Expr>, vs: seq<Value>, us: seq<State>, i: nat)
    requires AllPrint(env, es, vs, us) && i <= |es| && Ready(env, us[i]) && ExprsOk(es)
    ensures ExecPrint(env, us[i], es, i) == Done(us[|es|], XOk)
    decreases |es| - i
  {
    hide Eval, StateOk, EnvOk, Prints;
    if i < |es| {
      PrintOne(env, es, i, vs[i], us[i], us[i + 1]);
      PrintFrom(env, es, vs, us, i + 1);
    }
  }

  lemma PrintOne(env: Env, es: seq<Expr>, i: nat, v: Value, s: State, t: State)
    requires Ready(env, s) && ExprsOk(es) && i < |es| && Prints(env, s, es[i], v, t)
    ensures Ready(env, t) && ExecPrint(env, s, es, i) == ExecPrint(env, t, es, i + 1)
  {
    hide Eval, EnvOk;
    var u :| Gives(env, s, es[i], v, u) && t == u.(out := u.out + [v]);
  }

  /** PRINT appends the values of its arguments to the output, in order. */
  lemma PrintLaw(env: Env, s: State, es: seq<Expr>, inProc: bool, vs: seq<Value>, us: seq<State>)
    requires Runs(env, s, Print(es), inProc) && AllPrint(env, es, vs, us) && us[0] == Counted(s)
    ensures ExecStmt(env, s, Print(es), inProc) == Done(us[|es|], XOk)
  {
    hide Eval;
    PrintFrom(env, es, vs, us, 0);
  }

  // ---- FOR ----

  /** The expressions of a FOR loop give start, end and step, in this order; without STEP it is 1. */
  ghost predicate ForGives(env: Env, s: State, st: Stmt, start: int, end: int, step: int, t: State)
    requires st.For?
  {
    exists a, b :: Gives(env, s, st.start, IntV(start), a) && Gives(env, a, st.end, IntV(end), b)
      && if st.step.None? then step == 1 && t == b else Gives(env, b, st.step.value, IntV(step), t)
  }

  /** The counter, with this value, has not passed the end. */
  predicate Within(i: int, end: int, step: int) {
    if step > 0 then i <= end else i >= end
  }

  /** One round that begins in s with the counter at i and leaves it alone: the body, then the counter
      takes its next value. */
  ghost predicate OneRound(env: Env, st: Stmt, inProc: bool, end: int, step: int, i: int, s: State, t: State)
    requires st.For?
  {
    && Runs(env, s, st, inProc) && Within(i, end, step)
    && Seen(s, st.name).Some? && Seen(s, st.name).value.v == IntV(i)
    && -0x8000_0000_0000_0000 <= i + step < 0x8000_0000_0000_0000
    && var d := ExecBlock(env, s, st.body, inProc, 0);
      && (d.x == XOk || d.x == XContinue(ForLoop))
      && Seen(d.s, st.name).Some? && Seen(d.s, st.name).value.v == IntV(i) && t == WithValue(d.s, st.name, IntV(i + step))
  }

  /** Rounds follow one another; before round j the counter is start + j * step, which ns[j] holds. */
  ghost predicate Rounds(env: Env, st: Stmt, inProc: bool, end: int, step: int, ns: seq<int>, ts: seq<State>)
    requires st.For?
  {
    && |ns| == |ts| > 0
    && forall j :: 0 <= j < |ts| - 1 ==> ns[j + 1] == ns[j] + step && OneRound(env, st, inProc, end, step, ns[j], ts[j], ts[j + 1])
  }

  lemma CounterSet(s: State, name: string, i: int)
    requires StateOk(s) && Running(s) && NameType(name) == IntT && Int64(i)
    ensures SetCounter(s, name, i) == WithValue(s, name, IntV(i))
  {
    SeenIsFound(s, name);
  }

  lemma RoundIs(env: Env, st: Stmt, inProc: bool, b: Bounds, i: int, s: State, t: State)
    requires st.For? && OneRound(env, st, inProc, b.end, b.step, i, s, t) && b.step != 0 && Int64(b.step)
    ensures Find(s, st.name).Some? && Find(s, st.name).value.v.IntV?
    ensures ForRound(env, s, st, inProc, b) == Semantics.Round(t, XOk, true)
  {
    hide ExecBlock, SetCounter, WithValue, StateOk, EnvOk, Find, Seen, Distance;
    var d := ExecBlock(env, s, st.body, inProc, 0);
    SeenIsFound(s, st.name);
    SeenIsFound(d.s, st.name);
    NextIs(d.s, st.name, b, i);
    hide ForNext;
    assert Got(s, st.name) == s;
  }

  lemma NextIs(s: State, name: string, b: Bounds, i: int)
    requires StateOk(s) && Running(s) && NameType(name) == IntT && b.step != 0 && Int64(b.step)
    requires Seen(s, name).Some? && Seen(s, name).value.v == IntV(i) && Int64(i + b.step)
    ensures ForNext(s, name, b) == Semantics.Round(WithValue(s, name, IntV(i + b.step)), XOk, true)
  {
    SeenIsFound(s, name);
    CounterSet(s, name, i + b.step);
    hide SetCounter, WithValue, Distance;
  }

  lemma {:induction false} RoundsFrom(env: Env, st: Stmt, inProc: bool, b: Bounds, ns: seq<int>, ts: seq<State>, j: nat)
    requires st.For? && Rounds(env, st, inProc, b.end, b.step, ns, ts) && j < |ts| && b.step != 0 && Int64(b.step)
    requires Runs(env, ts[j], st, inProc) && Seen(ts[j], st.name).Some? && Seen(ts[j], st.name).value.v.IntV?
    ensures var n := |ts| - 1; Runs(env, ts[n], st, inProc) && Find(ts[n], st.name).Some? && Find(ts[n], st.name).value.v.IntV?
    ensures Find(ts[j], st.name).Some? && Find(ts[j], st.name).value.v.IntV?
    ensures ForRounds(env, ts[j], st, inProc, b) == ForRounds(env, ts[|ts| - 1], st, inProc, b)
    decreases |ts| - j
  {
    hide OneRound, ForRound, StateOk, EnvOk, StmtOk, Distance, Seen;
    SeenIsFound(ts[j], st.name);
    if j < |ts| - 1 {
      RoundIs(env, st, inProc, b, ns[j], ts[j], ts[j + 1]);
      SeenIsFound(ts[j + 1], st.name);
      assert Executed(ts[j], Done(ts[j + 1], XOk));
      RoundsFrom(env, st, inProc, b, ns, ts, j + 1);
    }
  }

  lemma ForBegins(env: Env, s: State, st: Stmt, inProc: bool, start: int, end: int, step: int, t: State)
    requires st.For? && Runs(env, s, st, inProc) && ForGives(env, s, st, start, end, step, t)
    ensures Ready(env, t) && t.frames == s.frames && Int64(start) && Int64(step)
    ensures ForStart(env, s, st, inProc) == ForFirst(env, t, st.name, start, Bounds(end, step))
  {
    hide Eval, StateOk, EnvOk, ForFirst;
    var a, b :| Gives(env, s, st.start, IntV(start), a) && Gives(env, a, st.end, IntV(end), b)
      && if st.step.None? then step == 1 && t == b else Gives(env, b, st.step.value, IntV(step), t);
    GivesReady(env, s, st.start, IntV(start), a);
    GivesReady(env, a, st.end, IntV(end), b);
    if st.step.Some? {
      GivesReady(env, b, st.step.value, IntV(step), t);
    }
    assert EvalInt(env, s, st.start) == Out(a, Some(start));
    assert EvalInt(env, a, st.end) == Out(b, Some(end));
    assert StepOf(env, b, st.step) == Out(t, Some(step));
    hide EvalInt, StepOf;
  }

  lemma FirstIs(env: Env, s: State, name: string, start: int, b: Bounds)
    requires Ready(env, s) && NameType(name) == IntT && Int64(start) && Int64(b.step)
    ensures var u := WithValue(s, name, IntV(start)); Seen(u, name).Some? && Seen(u, name).value.v == IntV(start)
    ensures if b.step == 0 || name in env.builtins || (Seen(s, name).Some? && Seen(s, name).value.isArray)
      then ForFirst(env, s, name, start, b).v.None?
      else ForFirst(env, s, name, start, b) == Out(WithValue(s, name, IntV(start)), Some(b))
  {
    SeenIsFound(s, name);
  }

  predicate WrapsAround(i: int) {
    i < -0x8000_0000_0000_0000 || i >= 0x8000_0000_0000_0000
  }

  /** How a FOR loop ends in state s with the counter at i. */
  ghost predicate ForEnds(env: Env, st: Stmt, inProc: bool, end: int, step: int, i: int, s: State, d: Done)
    requires st.For? && Runs(env, s, st, inProc)
  {
    if !Within(i, end, step) then d == Done(s, XOk)
    else
      var b := ExecBlock(env, s, st.body, inProc, 0);
      if b.x == XExit(ForLoop) then d == Done(b.s, XOk)
      else if b.x != XOk && b.x != XContinue(ForLoop) then d == b
      else if Seen(b.s, st.name).Some? && Seen(b.s, st.name).value.v == IntV(i) && WrapsAround(i + step) then d == Done(b.s, XOk)
      else true
  }

  lemma RoundEnds(env: Env, st: Stmt, inProc: bool, b: Bounds, i: int, s: State, d: Done)
    requires st.For? && Runs(env, s, st, inProc) && b.step != 0 && Int64(b.step)
    requires Find(s, st.name).Some? && Find(s, st.name).value.v == IntV(i)
    ensures var r := ForRound(env, s, st, inProc, b);
      r.more || d == Done(r.s, r.x) ==> ForEnds(env, st, inProc, b.end, b.step, i, s, d)
  {
    hide ExecBlock, StateOk, EnvOk, Find, Seen, Distance, ForNext;
    var g := Got(s, st.name);
    assert g == s && Counter(g, st.name) == i;
    if Within(i, b.end, b.step) {
      var e := ExecBlock(env, s, st.body, inProc, 0);
      if e.x == XOk || e.x == XContinue(ForLoop) {
        SeenIsFound(e.s, st.name);
        if Seen(e.s, st.name).Some? && Seen(e.s, st.name).value.v == IntV(i) && WrapsAround(i + b.step) {
          NoNext(e.s, st.name, b, i);
        }
      }
    }
  }

  lemma NoNext(s: State, name: string, b: Bounds, i: int)
    requires StateOk(s) && Running(s) && NameType(name) == IntT && b.step != 0 && Int64(b.step)
    requires Seen(s, name).Some? && Seen(s, name).value.v == IntV(i) && WrapsAround(i + b.step)
    ensures ForNext(s, name, b) == Semantics.Round(s, XOk, false)
  {
    SeenIsFound(s, name);
    assert Int64(i);
    hide SetCounter, Distance;
  }

  lemma EndIs(env: Env, st: Stmt, inProc: bool, b: Bounds, i: int, s: State)
    requires st.For? && Runs(env, s, st, inProc) && b.step != 0 && Int64(b.step)
    requires Find(s, st.name).Some? && Find(s, st.name).value.v == IntV(i)
    ensures ForEnds(env, st, inProc, b.end, b.step, i, s, ForRounds(env, s, st, inProc, b))
  {
    hide ForRound, ForEnds, StateOk, EnvOk, StmtOk, Distance;
    RoundEnds(env, st, inProc, b, i, s, ForRounds(env, s, st, inProc, b));
  }

  /** FOR runs its body with the counter at start, start + step and so on while the counter has not passed
      the end, which is the last value still used; then, or when the body leaves the loop, it ends. */
  lemma ForLaw(env: Env, s: State, st: Stmt, inProc: bool, start: int, end: int, step: int, t: State, ns: seq<int>, ts: seq<State>)
    requires st.For? && Runs(env, s, st, inProc) && ForGives(env, Counted(s), st, start, end, step, t) && step != 0
    requires st.name !in env.builtins && (Seen(t, st.name).Some? ==> !Seen(t, st.name).value.isArray)
    requires Rounds(env, st, inProc, end, step, ns, ts) && ns[0] == start && ts[0] == WithValue(t, st.name, IntV(start))
    ensures Runs(env, ts[|ts| - 1], st, inProc)
    ensures ForEnds(env, st, inProc, end, step, ns[|ts| - 1], ts[|ts| - 1], ExecStmt(env, s, st, inProc))
  {
    hide Eval, ExecBlock, ForStart, ForFirst, ForRounds, WithValue, OneRound, ForEnds, ForGives;
    var b := Bounds(end, step);
    ForBegins(env, Counted(s), st, inProc, start, end, step, t);
    FirstIs(env, t, st.name, start, b);
    RoundsFrom(env, st, inProc, b, ns, ts, 0);
    LastCounter(env, st, inProc, b, ns, ts);
    EndIs(env, st, inProc, b, ns[|ts| - 1], ts[|ts| - 1]);
    assert ExecStmt(env, s, st, inProc) == ExecFor(env, Counted(s), st, inProc);
  }

  lemma LastCounter(env: Env, st: Stmt, inProc: bool, b: Bounds, ns: seq<int>, ts: seq<State>)
    requires st.For? && Rounds(env, st, inProc, b.end, b.step, ns, ts)
    requires Seen(ts[0], st.name).Some? && Seen(ts[0], st.name).value.v == IntV(ns[0])
    ensures Find(ts[|ts| - 1], st.name).Some? && Find(ts[|ts| - 1], st.name).value.v == IntV(ns[|ts| - 1])
  {
    hide OneRound, Seen;
    var n := |ts| - 1;
    SeenIsFound(ts[n], st.name);
    if n > 0 {
      RoundCounter(env, st, inProc, b.end, b.step, ns[n - 1], ts[n - 1], ts[n]);
    }
  }

  lemma RoundCounter(env: Env, st: Stmt, inProc: bool, end: int, step: int, i: int, s: State, t: State)
    requires st.For? && OneRound(env, st, inProc, end, step, i, s, t)
    ensures Seen(t, st.name).Some? && Seen(t, st.name).value.v == IntV(i + step)
  {
    hide ExecBlock, StateOk, EnvOk;
  }
}
