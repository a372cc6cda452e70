/** The meaning of NESH BASIC: what an expression or a statement does to a state, as functions. Their
    contracts are the laws of every run: values have the type their expression shows, variables keep the
    type of their name, the stack of frames is restored, and nothing happens after END. */
module Semantics {
  import opened ExprSyntax
  import opened BasicValues
  import opened BasicSyntax
  import opened Optional

  const MAX_CALL_DEPTH: nat := 200

  /** A variable: v is its value, unless it is an array of elems. */
  datatype Cell = Cell(isArray: bool, v: Value, elems: seq<Value>)

  type Table = map<string, Cell>

  datatype Frame = Frame(locals: Table, proc: Proc, ret: Option<Value>)

  /** A built-in function on values. types: one letter for each argument, the last one repeats. */
  datatype Builtin = Builtin(minArgs: nat, maxArgs: nat, types: string, fn: seq<Value> -> Option<Value>)

  datatype Exec = XOk | XExit(kind: LoopKind) | XContinue(kind: LoopKind) | XReturn | XGoto | XEnd | XError

  /** What the program can call. */
  datatype Env = Env(procs: map<string, Proc>, builtins: map<string, Builtin>)

  /** How things were when END ran: statements executed, globals, values printed, exit code. */
  datatype Snapshot = Snapshot(steps: nat, globals: Table, out: seq<Value>, code: int)

  /** frames: the current one is the last; out: the values printed; budget: the polls that remain
      before Ctrl-C is pressed; steps: the statements executed. */
  datatype State = State(globals: Table, frames: seq<Frame>, hasError: bool, ended: bool, endCode: int, gotoLabel: string,
                         out: seq<Value>, budget: nat, steps: nat, atEnd: Snapshot)

  /** A state and a value, if there is one. */
  datatype Out<+T> = Out(s: State, v: Option<T>)

  datatype Done = Done(s: State, x: Exec)

  // ---- the typing invariant ----

  predicate CellOk(name: string, c: Cell) {
    && ValueOk(c.v)
    && (!c.isArray ==> Fits(c.v, NameType(name)))
    && (c.isArray ==> forall i :: 0 <= i < |c.elems| ==> Fits(c.elems[i], NameType(name)))
  }

  /** Every variable and every array element has the type of its name. */
  ghost predicate TableOk(t: Table) {
    forall n :: n in t ==> CellOk(n, t[n])
  }

  ghost predicate FrameOk(f: Frame) {
    TableOk(f.locals) && ProcOk(f.proc) && (f.ret.Some? ==> ValueOk(f.ret.value))
  }

  ghost predicate StackOk(fs: seq<Frame>) {
    forall i :: 0 <= i < |fs| ==> FrameOk(fs[i])
  }

  /** Variables are never removed and arrays stay arrays. */
  ghost predicate Evolves(t: Table, u: Table) {
    forall n :: n in t ==> n in u && (t[n].isArray ==> u[n].isArray)
  }

  /** The frames below the current one are untouched; the current one belongs to the same procedure
      and has only gained variables. */
  ghost predicate SameStack(fs: seq<Frame>, gs: seq<Frame>) {
    && |gs| == |fs|
    && (fs != [] ==>
      && gs[..|gs| - 1] == fs[..|fs| - 1]
      && gs[|gs| - 1].proc == fs[|fs| - 1].proc
      && Evolves(fs[|fs| - 1].locals, gs[|gs| - 1].locals))
  }

  lemma TableUpdate(t: Table, n: string, c: Cell)
    requires TableOk(t) && CellOk(n, c)
    ensures TableOk(t[n := c])
    ensures (n in t && t[n].isArray ==> c.isArray) ==> Evolves(t, t[n := c])
  {
  }

  lemma EvolvesTrans(t: Table, u: Table, v: Table)
    requires Evolves(t, u) && Evolves(u, v)
    ensures Evolves(t, v)
  {
  }

  /** Adding a nonzero step changes the counter, even when it wraps around. */
  lemma WrapMoves(i: int, step: int)
    requires Int64(i) && Int64(step) && step != 0
    ensures Wrap(i + step) != i
  {
  }

  /** Conversion to a 32-bit integer. */
  function Int32(x: int): int {
    (x + 0x8000_0000) % 0x1_0000_0000 - 0x8000_0000
  }

  // ---- states ----

  ghost predicate EnvOk(env: Env) {
    forall n :: n in env.procs ==> env.procs[n].name == n && ProcOk(env.procs[n])
  }

  ghost predicate StateOk(s: State) {
    && TableOk(s.globals) && StackOk(s.frames) && |s.frames| <= MAX_CALL_DEPTH
    && !(s.hasError && s.ended)
    && (s.ended ==> s.atEnd == Snapshot(s.steps, s.globals, s.out, s.endCode))
  }

  /** No error has occurred and END has not been executed. */
  predicate Running(s: State) {
    !s.hasError && !s.ended
  }

  /** After an expression: every frame is untouched, with all its variables. */
  ghost predicate AfterEval(s: State, t: State) {
    StateOk(t) && t.frames == s.frames && Evolves(s.globals, t.globals) && t.budget <= s.budget
  }

  ghost predicate AfterStmt(s: State, t: State) {
    StateOk(t) && SameStack(s.frames, t.frames) && Evolves(s.globals, t.globals) && t.budget <= s.budget
  }

  /** An outcome agrees with the flags. */
  ghost predicate Agrees(d: Done) {
    match d.x
    case XError => !Running(d.s)
    case XEnd => d.s.ended
    case _ => Running(d.s)
  }

  /** What every value satisfies: there is one unless an error or END has stopped the run. */
  ghost predicate Evaluated<T>(s: State, r: Out<T>) {
    AfterEval(s, r.s) && (r.v.Some? <==> Running(r.s))
  }

  ghost predicate Executed(s: State, d: Done) {
    AfterStmt(s, d.s) && Agrees(d)
  }

  lemma AfterEvalTrans(s: State, t: State, u: State)
    requires AfterEval(s, t) && AfterEval(t, u)
    ensures AfterEval(s, u)
  {
    EvolvesTrans(s.globals, t.globals, u.globals);
  }

  lemma AfterEvalIsStmt(s: State, t: State)
    requires AfterEval(s, t)
    ensures AfterStmt(s, t)
  {
  }

  lemma AfterStmtTrans(s: State, t: State, u: State)
    requires AfterStmt(s, t) && AfterStmt(t, u)
    ensures AfterStmt(s, u)
  {
    EvolvesTrans(s.globals, t.globals, u.globals);
  }

  function Failed(s: State): (t: State)
    requires Running(s)
    ensures !Running(t) && (StateOk(s) ==> AfterEval(s, t) && AfterStmt(s, t))
  {
    s.(hasError := true)
  }

  /** check_break. */
  function Polled(s: State): (t: State)
    requires Running(s)
    ensures StateOk(s) ==> AfterEval(s, t) && AfterStmt(s, t)
    ensures Running(t) ==> t.budget < s.budget
    ensures !t.ended
  {
    if s.budget == 0 then Failed(s) else s.(budget := s.budget - 1)
  }

  // ---- variables ----

  function Locals(s: State): Table
    requires s.frames != []
  {
    s.frames[|s.frames| - 1].locals
  }

  /** The variable is found in the current frame. */
  predicate IsLocal(s: State, name: string) {
    s.frames != [] && name in Locals(s)
  }

  function Find(s: State, name: string): (c: Option<Cell>)
    ensures StateOk(s) && c.Some? ==> CellOk(name, c.value)
  {
    if IsLocal(s, name) then (assert StateOk(s) ==> FrameOk(s.frames[|s.frames| - 1]); Some(Locals(s)[name]))
    else if name in s.globals then Some(s.globals[name])
    else None
  }

  function StoreLocal(fs: seq<Frame>, name: string, c: Cell): (gs: seq<Frame>)
    requires fs != []
    ensures |gs| == |fs|
    ensures StackOk(fs) && CellOk(name, c) ==> StackOk(gs)
    ensures var t := fs[|fs| - 1].locals; (name in t && t[name].isArray ==> c.isArray) ==> SameStack(fs, gs)
  {
    var top := fs[|fs| - 1];
    assert StackOk(fs) ==> FrameOk(top);
    fs[..|fs| - 1] + [top.(locals := top.locals[name := c])]
  }

  /** Stores a cell in the current frame or among the globals. */
  function Store(s: State, local: bool, name: string, c: Cell): (t: State)
    requires StateOk(s) && Running(s) && CellOk(name, c) && (local ==> s.frames != [])
    requires var t := if local then Locals(s) else s.globals; name in t && t[name].isArray ==> c.isArray
    ensures AfterStmt(s, t) && Running(t)
    ensures (if local then Locals(t) == Locals(s)[name := c] && t.globals == s.globals
             else t.globals == s.globals[name := c] && t.frames == s.frames)
  {
    TableUpdate(if local then Locals(s) else s.globals, name, c);
    if local then s.(frames := StoreLocal(s.frames, name, c)) else s.(globals := s.globals[name := c])
  }

  /** var_get: the variable is made a global if it does not exist. */
  function Got(s: State, name: string): (t: State)
    requires StateOk(s) && Running(s)
    ensures AfterEval(s, t) && Running(t) && Find(t, name).Some? && IsLocal(t, name) == IsLocal(s, name)
    ensures Find(s, name).Some? ==> t == s
    ensures Find(s, name).None? ==> Find(t, name) == Some(Cell(false, Zero(name), []))
  {
    if Find(s, name).Some? then s else Store(s, false, name, Cell(false, Zero(name), []))
  }

  // ---- expressions ----

  function Eval(env: Env, s: State, e: Expr): (r: Out<Value>)
    requires EnvOk(env) && StateOk(s) && Running(s) && ExprOk(e)
    ensures Evaluated(s, r) && (r.v.Some? ==> Fits(r.v.value, TypeOf(e)))
    decreases s.budget, MAX_CALL_DEPTH - |s.frames|, 1, e, 1
  {
    match e
    case Number(n) => Out(s, Some(IntV(n)))
    case Text(t) => Out(s, Some(StrV(t)))
    case Var(name) => EvalVar(env, s, name)
    case Call(name, args) => EvalCall(env, s, name, args)
    case Neg(x) =>
      var r := EvalInt(env, s, x);
      if r.v.None? then Out(r.s, None) else Out(r.s, Some(IntV(Wrap(-r.v.value))))
    case Invert(x) =>
      var r := EvalInt(env, s, x);
      if r.v.None? then Out(r.s, None) else Out(r.s, Some(IntV(Wrap(-r.v.value - 1))))
    case Binary(op, a, b) => EvalBinary(env, s, e)
  }

  /** An expression that must be a number. */
  function EvalInt(env: Env, s: State, e: Expr): (r: Out<int>)
    requires EnvOk(env) && StateOk(s) && Running(s) && ExprOk(e)
    ensures Evaluated(s, r) && (r.v.Some? ==> Int64(r.v.value) && TypeOf(e) == IntT)
    decreases s.budget, MAX_CALL_DEPTH - |s.frames|, 1, e, 2
  {
    var r := Eval(env, s, e);
    if r.v.None? then Out(r.s, None)
    else if r.v.value.StrV? then Out(Failed(r.s), None)
    else Out(r.s, Some(r.v.value.i))
  }

  /** Both operands are evaluated, the left one first. */
  function EvalBinary(env: Env, s: State, e: Expr): (r: Out<Value>)
    requires EnvOk(env) && StateOk(s) && Running(s) && ExprOk(e) && e.Binary?
    ensures Evaluated(s, r) && (r.v.Some? ==> Fits(r.v.value, TypeOf(e)))
    decreases s.budget, MAX_CALL_DEPTH - |s.frames|, 1, e, 0
  {
    hide BinaryOp;
    var x := Eval(env, s, e.a);
    if x.v.None? then x
    else
      var y := Eval(env, x.s, e.b);
      if y.v.None? then y
      else
        var v := BinaryOp(e.op, x.v.value, y.v.value);
        if v.None? then Out(Failed(y.s), None) else Out(y.s, v)
  }

  /** A name: a variable, a built-in or a procedure without arguments, or the zero of its type. */
  function EvalVar(env: Env, s: State, name: string): (r: Out<Value>)
    requires EnvOk(env) && StateOk(s) && Running(s)
    ensures Evaluated(s, r) && (r.v.Some? ==> Fits(r.v.value, NameType(name)))
    decreases s.budget, MAX_CALL_DEPTH - |s.frames|, 0, 1
  {
    var c := Find(s, name);
    if c.Some? then (if c.value.isArray then Out(Failed(s), None) else Out(s, Some(c.value.v)))
    else if name in env.builtins then
      (if env.builtins[name].minArgs > 0 then Out(Failed(s), None) else Apply(env, s, name, []))
    else if name in env.procs && env.procs[name].isFunction then
      (if CanEnter(s, env.procs[name], 0) then Invoke(env, s, env.procs[name], map[]) else Out(Failed(s), None))
    else Out(s, Some(Zero(name)))
  }

  function EvalCall(env: Env, s: State, name: string, args: seq<Expr>): (r: Out<Value>)
    requires EnvOk(env) && StateOk(s) && Running(s) && ExprsOk(args)
    ensures Evaluated(s, r) && (r.v.Some? ==> Fits(r.v.value, NameType(name)))
    decreases s.budget, MAX_CALL_DEPTH - |s.frames|, 1, args, 3
  {
    var c := Find(s, name);
    if c.Some? && c.value.isArray then
      (if |args| != 1 then Out(Failed(s), None) else Element(env, s, name, args[0]))
    else if name in env.procs then
      (if env.procs[name].isFunction then CallProc(env, s, env.procs[name], args) else Out(Failed(s), None))
    else if name in env.builtins then CallBuiltin(env, s, name, args)
    else Out(Failed(s), None)
  }

  /** Where an element is: in the current frame or not, and its index. */
  datatype Place = Place(local: bool, index: nat)

  /** eval_index: an index within the bounds the array has after the index was evaluated; the array
      itself is looked up before. */
  function Index(env: Env, s: State, name: string, e: Expr): (r: Out<Place>)
    requires EnvOk(env) && StateOk(s) && Running(s) && ExprOk(e)
    requires Find(s, name).Some? && Find(s, name).value.isArray
    ensures Evaluated(s, r)
    ensures r.v.Some? ==> r.v.value.local == IsLocal(r.s, name) && Find(r.s, name).Some? && Find(r.s, name).value.isArray
    ensures r.v.Some? ==> r.v.value.index < |Find(r.s, name).value.elems|
    decreases s.budget, MAX_CALL_DEPTH - |s.frames|, 1, e, 3
  {
    var i := EvalInt(env, s, e);
    if i.v.None? then Out(i.s, None)
    else if i.v.value < 0 || i.v.value >= |Find(i.s, name).value.elems| then Out(Failed(i.s), None)
    else Out(i.s, Some(Place(IsLocal(s, name), i.v.value)))
  }

  function Element(env: Env, s: State, name: string, e: Expr): (r: Out<Value>)
    requires EnvOk(env) && StateOk(s) && Running(s) && ExprOk(e)
    requires Find(s, name).Some? && Find(s, name).value.isArray
    ensures Evaluated(s, r) && (r.v.Some? ==> Fits(r.v.value, NameType(name)))
    decreases s.budget, MAX_CALL_DEPTH - |s.frames|, 1, e, 4
  {
    var p := Index(env, s, name, e);
    if p.v.None? then Out(p.s, None) else Out(p.s, Some(Find(p.s, name).value.elems[p.v.value.index]))
  }

  // ---- built-in functions ----

  function ArgType(types: string, i: nat): char {
    if types == "" then '?' else if i < |types| then types[i] else types[|types| - 1]
  }

  /** The result of a built-in is made to agree with its name. */
  function Apply(env: Env, s: State, name: string, args: seq<Value>): (r: Out<Value>)
    requires StateOk(s) && Running(s) && name in env.builtins
    ensures Evaluated(s, r) && (r.v.Some? ==> Fits(r.v.value, NameType(name)))
  {
    var v := env.builtins[name].fn(args);
    if v.None? then Out(Failed(s), None)
    else if ValType(v.value) != NameType(name) then Out(s, Some(Zero(name)))
    else Out(s, Some(if v.value.IntV? then IntV(Wrap(v.value.i)) else v.value))
  }

  /** 's' asks for a text, 'n' for a number. */
  predicate LetterOk(t: char, v: Value) {
    (t == 's' ==> v.StrV?) && (t == 'n' ==> v.IntV?)
  }

  /** The arguments from the i-th on, after vals; 'a' stands for an array, which is not evaluated. */
  function Arguments(env: Env, s: State, types: string, args: seq<Expr>, i: nat, vals: seq<Value>): (r: Out<seq<Value>>)
    requires EnvOk(env) && StateOk(s) && Running(s) && ExprsOk(args) && i <= |args|
    ensures Evaluated(s, r)
    ensures r.v.Some? ==> vals <= r.v.value && |r.v.value| == |vals| + |args| - i
    ensures r.v.Some? ==> forall k :: i <= k < |args| ==> LetterOk(ArgType(types, k), r.v.value[|vals| + k - i])
    decreases s.budget, MAX_CALL_DEPTH - |s.frames|, 1, args, 0, |args| - i
  {
    var t := ArgType(types, i);
    if i == |args| then Out(s, Some(vals))
    else if t == 'a' then Arguments(env, s, types, args, i + 1, vals + [IntV(0)])
    else
      var x := Eval(env, s, args[i]);
      if x.v.None? then Out(x.s, None)
      else if (t == 's' && x.v.value.IntV?) || (t == 'n' && x.v.value.StrV?) then Out(Failed(x.s), None)
      else
        var r := Arguments(env, x.s, types, args, i + 1, vals + [x.v.value]);
        AfterEvalTrans(s, x.s, r.s);
        r
  }

  function CallBuiltin(env: Env, s: State, name: string, args: seq<Expr>): (r: Out<Value>)
    requires EnvOk(env) && StateOk(s) && Running(s) && ExprsOk(args) && name in env.builtins
    ensures Evaluated(s, r) && (r.v.Some? ==> Fits(r.v.value, NameType(name)))
    decreases s.budget, MAX_CALL_DEPTH - |s.frames|, 1, args, 2
  {
    var f := env.builtins[name];
    if |args| < f.minArgs || |args| > f.maxArgs || |args| > 16 then Out(Failed(s), None)
    else
      var a := Arguments(env, s, f.types, args, 0, []);
      if a.v.None? then Out(a.s, None)
      else
        var r := Apply(env, a.s, name, a.v.value);
        AfterEvalTrans(s, a.s, r.s);
        r
  }

  // ---- procedures ----

  predicate CanEnter(s: State, pr: Proc, nargs: nat) {
    nargs == |pr.params| && |s.frames| < MAX_CALL_DEPTH
  }

  /** The arguments from the i-th on, bound to the parameters. */
  function Bind(env: Env, s: State, pr: Proc, args: seq<Expr>, i: nat, locals: Table): (r: Out<Table>)
    requires EnvOk(env) && StateOk(s) && Running(s) && ExprsOk(args) && i <= |args| == |pr.params| && TableOk(locals)
    ensures Evaluated(s, r) && (r.v.Some? ==> TableOk(r.v.value))
    ensures r.v.Some? ==> r.v.value.Keys == locals.Keys + set k | i <= k < |pr.params| :: pr.params[k]
    decreases s.budget, MAX_CALL_DEPTH - |s.frames|, 1, args, 0, |args| - i
  {
    if i == |args| then Out(s, Some(locals))
    else
      var x := Eval(env, s, args[i]);
      if x.v.None? then Out(x.s, None)
      else if ValType(x.v.value) != NameType(pr.params[i]) then Out(Failed(x.s), None)
      else
        TableUpdate(locals, pr.params[i], Cell(false, x.v.value, []));
        var r := Bind(env, x.s, pr, args, i + 1, locals[pr.params[i] := Cell(false, x.v.value, [])]);
        AfterEvalTrans(s, x.s, r.s);
        r
  }

  function CallProc(env: Env, s: State, pr: Proc, args: seq<Expr>): (r: Out<Value>)
    requires EnvOk(env) && StateOk(s) && Running(s) && ExprsOk(args)
    requires pr.name in env.procs && env.procs[pr.name] == pr
    ensures Evaluated(s, r)
    ensures r.v.Some? ==> ValueOk(r.v.value) && (pr.isFunction ==> Fits(r.v.value, NameType(pr.name)))
    decreases s.budget, MAX_CALL_DEPTH - |s.frames|, 1, args, 2
  {
    if !CanEnter(s, pr, |args|) then Out(Failed(s), None)
    else
      var b := Bind(env, s, pr, args, 0, map[]);
      if b.v.None? then Out(b.s, None)
      else
        var r := Invoke(env, b.s, pr, b.v.value);
        AfterEvalTrans(s, b.s, r.s);
        r
  }

  /** Runs the body in a new frame and removes the frame, whatever the outcome. */
  function Invoke(env: Env, s: State, pr: Proc, locals: Table): (r: Out<Value>)
    requires EnvOk(env) && StateOk(s) && Running(s) && TableOk(locals) && |s.frames| < MAX_CALL_DEPTH
    requires pr.name in env.procs && env.procs[pr.name] == pr
    ensures Evaluated(s, r)
    ensures r.v.Some? ==> ValueOk(r.v.value) && (pr.isFunction ==> Fits(r.v.value, NameType(pr.name)))
    decreases s.budget, MAX_CALL_DEPTH - |s.frames|, 0, 0
  {
    var d := ExecBlock(env, Entered(s, pr, locals), pr.body, true, 0);
    var u := Left(s, pr, locals, d.s);
    if d.x == XError || d.x == XEnd then Out(u, None)
    else if d.x == XGoto || d.x.XExit? || d.x.XContinue? then Out(Failed(u), None)
    else
      var v := Returned(d.s, pr);
      if pr.isFunction && ValType(v) != NameType(pr.name) then Out(Failed(u), None) else Out(u, Some(v))
  }

  function Entered(s: State, pr: Proc, locals: Table): (t: State)
    requires StateOk(s) && TableOk(locals) && |s.frames| < MAX_CALL_DEPTH && ProcOk(pr)
    ensures StateOk(t) && |t.frames| == |s.frames| + 1 && t.budget == s.budget && Running(t) == Running(s)
  {
    s.(frames := s.frames + [Frame(locals, pr, None)])
  }

  /** The value of a procedure: what RETURN has set, else the zero of its type. */
  function Returned(t: State, pr: Proc): (v: Value)
    requires StateOk(t) && t.frames != []
    ensures ValueOk(v)
  {
    assert FrameOk(t.frames[|t.frames| - 1]);
    var ret := t.frames[|t.frames| - 1].ret;
    if ret.Some? then ret.value else Zero(pr.name)
  }

  /** The current frame is removed. */
  function Left(s: State, pr: Proc, locals: Table, t: State): (u: State)
    requires StateOk(s) && TableOk(locals) && |s.frames| < MAX_CALL_DEPTH && ProcOk(pr)
    requires AfterStmt(Entered(s, pr, locals), t)
    ensures AfterEval(s, u) && Running(u) == Running(t) && u == t.(frames := t.frames[..|t.frames| - 1])
  {
    var u := t.(frames := t.frames[..|t.frames| - 1]);
    assert u.frames == s.frames;
    u
  }

  // ---- statements ----

  /** Stores v in a variable or an array element of its type. */
  function AssignTo(env: Env, s: State, target: Expr, v: Value): (t: State)
    requires EnvOk(env) && StateOk(s) && Running(s) && TargetOk(target) && ValueOk(v)
    ensures AfterStmt(s, t)
    decreases s.budget, MAX_CALL_DEPTH - |s.frames|, 1, target, 5
  {
    var name := target.name;
    if ValType(v) != NameType(name) then Failed(s)
    else if target.Call? then
      if Find(s, name) == None || !Find(s, name).value.isArray then Failed(s)
      else
        var p := Index(env, s, name, target.args[0]);
        AfterEvalIsStmt(s, p.s);
        if p.v.None? then p.s
        else
          var c := Find(p.s, name).value;
          var t := Store(p.s, p.v.value.local, name, c.(elems := c.elems[p.v.value.index := v]));
          AfterStmtTrans(s, p.s, t);
          t
    else if name in env.builtins || name in env.procs then Failed(s)
    else
      var g := Got(s, name);
      var c := Find(g, name).value;
      AfterEvalIsStmt(s, g);
      var t := if c.isArray then Failed(g) else Store(g, IsLocal(g, name), name, c.(v := v));
      AfterStmtTrans(s, g, t);
      t
  }

  /** The outcome of a statement that ends with an error or not at all. */
  function Ended(t: State): (d: Done)
    ensures Agrees(d)
  {
    Done(t, if Running(t) then XOk else XError)
  }

  function ExecAssign(env: Env, s: State, target: Expr, value: Expr): (d: Done)
    requires EnvOk(env) && StateOk(s) && Running(s) && TargetOk(target) && ExprOk(value)
    ensures Executed(s, d)
    decreases s.budget, MAX_CALL_DEPTH - |s.frames|, 1, Assign(target, value), 0
  {
    var r := Eval(env, s, value);
    AfterEvalIsStmt(s, r.s);
    if r.v.None? then Done(r.s, XError)
    else
      var t := AssignTo(env, r.s, target, r.v.value);
      AfterStmtTrans(s, r.s, t);
      Ended(t)
  }

  /** Prints the values of the arguments from the i-th on. */
  function ExecPrint(env: Env, s: State, args: seq<Expr>, i: nat): (d: Done)
    requires EnvOk(env) && StateOk(s) && Running(s) && ExprsOk(args) && i <= |args|
    ensures Executed(s, d) && AfterEval(s, d.s)
    decreases s.budget, MAX_CALL_DEPTH - |s.frames|, 1, args, 2, |args| - i
  {
    if i == |args| then Done(s, XOk)
    else
      var r := Eval(env, s, args[i]);
      AfterEvalIsStmt(s, r.s);
      if r.v.None? then Done(r.s, XError)
      else
        var t := r.s.(out := r.s.out + [r.v.value]);
        var d := ExecPrint(env, t, args, i + 1);
        AfterEvalTrans(s, t, d.s);
        AfterStmtTrans(s, t, d.s);
        d
  }

  predicate IsTrue(v: Value) {
    if v.IntV? then v.i != 0 else v.s != ""
  }

  /** The first clause from the i-th on whose condition holds; ELSE has none. */
  function ExecIf(env: Env, s: State, st: Stmt, inProc: bool, i: nat): (d: Done)
    requires EnvOk(env) && StateOk(s) && Running(s) && st.If? && StmtOk(st, inProc) && (inProc ==> s.frames != []) && i <= |st.clauses|
    ensures Executed(s, d)
    decreases s.budget, MAX_CALL_DEPTH - |s.frames|, 1, st, 0, |st.clauses| - i
  {
    if i == |st.clauses| then Done(s, XOk)
    else
      var cl := st.clauses[i];
      if cl.cond.None? then ExecBlock(env, s, cl.body, inProc, 0)
      else
        var c := Eval(env, s, cl.cond.value);
        AfterEvalIsStmt(s, c.s);
        if c.v.None? then Done(c.s, XError)
        else
          var d := if IsTrue(c.v.value) then ExecBlock(env, c.s, cl.body, inProc, 0) else ExecIf(env, c.s, st, inProc, i + 1);
          AfterStmtTrans(s, c.s, d.s);
          d
  }

  /** The counter of a FOR loop, which the body may have changed. */
  function Counter(s: State, name: string): (i: int)
    requires StateOk(s) && Find(s, name).Some?
    ensures Int64(i) && (Find(s, name).value.v.IntV? ==> Find(s, name).value.v.i == i)
  {
    if Find(s, name).value.v.IntV? then Find(s, name).value.v.i else 0
  }

  function SetCounter(s: State, name: string, i: int): (t: State)
    requires StateOk(s) && Running(s) && NameType(name) == IntT && Int64(i)
    ensures AfterStmt(s, t) && Running(t) && Find(t, name).Some? && Find(t, name).value.v == IntV(i)
  {
    var g := Got(s, name);
    AfterEvalIsStmt(s, g);
    var t := Store(g, IsLocal(g, name), name, Find(g, name).value.(v := IntV(i)));
    AfterStmtTrans(s, g, t);
    t
  }

  /** How far the counter is from the end of the loop. */
  function Distance(step: int, c: Option<Cell>, end: int): nat {
    if c.None? || c.value.v.StrV? then 0
    else
      var d := if step > 0 then end - c.value.v.i + 1 else c.value.v.i - end + 1;
      if d < 0 then 0 else d
  }

  datatype Bounds = Bounds(end: int, step: int)

  /** The counter has passed the end. */
  predicate Passed(i: int, b: Bounds) {
    if b.step > 0 then i > b.end else i < b.end
  }

  function StepOf(env: Env, s: State, e: Option<Expr>): (r: Out<int>)
    requires EnvOk(env) && StateOk(s) && Running(s) && OptOk(e)
    ensures Evaluated(s, r) && (r.v.Some? ==> Int64(r.v.value))
    decreases s.budget, MAX_CALL_DEPTH - |s.frames|, 1, e, 3
  {
    if e.None? then Out(s, Some(1)) else EvalInt(env, s, e.value)
  }

  /** The bounds of a FOR loop, and its counter set to the first one. */
  function ForStart(env: Env, s: State, st: Stmt, inProc: bool): (r: Out<Bounds>)
    requires EnvOk(env) && StateOk(s) && Running(s) && st.For? && StmtOk(st, inProc)
    ensures AfterStmt(s, r.s) && (r.v.Some? <==> Running(r.s))
    ensures r.v.Some? ==> r.v.value.step != 0 && Int64(r.v.value.step) && Find(r.s, st.name).Some? && Find(r.s, st.name).value.v.IntV?
    decreases s.budget, MAX_CALL_DEPTH - |s.frames|, 1, st, 0
  {
    var a := EvalInt(env, s, st.start);
    AfterEvalIsStmt(s, a.s);
    if a.v.None? then Out(a.s, None)
    else
      var b := EvalInt(env, a.s, st.end);
      AfterEvalTrans(s, a.s, b.s);
      AfterEvalIsStmt(s, b.s);
      if b.v.None? then Out(b.s, None)
      else
        var c := StepOf(env, b.s, st.step);
        AfterEvalTrans(s, b.s, c.s);
        AfterEvalIsStmt(s, c.s);
        if c.v.None? then Out(c.s, None)
        else
          var r := ForFirst(env, c.s, st.name, a.v.value, Bounds(b.v.value, c.v.value));
          AfterStmtTrans(s, c.s, r.s);
          r
  }

  /** The counter of a FOR loop gets its first value. */
  function ForFirst(env: Env, s: State, name: string, start: int, b: Bounds): (r: Out<Bounds>)
    requires StateOk(s) && Running(s) && NameType(name) == IntT && Int64(start) && Int64(b.step)
    ensures AfterStmt(s, r.s) && (r.v.Some? <==> Running(r.s))
    ensures r.v.Some? ==> r.v.value == b && b.step != 0 && Find(r.s, name).Some? && Find(r.s, name).value.v.IntV?
  {
    if b.step == 0 || name in env.builtins then Out(Failed(s), None)
    else
      var g := Got(s, name);
      AfterEvalIsStmt(s, g);
      if Find(g, name).value.isArray then Out(Failed(g), None)
      else
        var t := SetCounter(g, name, start);
        AfterStmtTrans(s, g, t);
        Out(t, Some(b))
  }

  /** One round of a FOR loop: the body, unless the counter has passed the end, and the next value.
      A value tells that there is another round; the outcome is meant when there is none. */
  datatype Round = Round(s: State, x: Exec, more: bool)

  function ForRound(env: Env, s: State, st: Stmt, inProc: bool, b: Bounds): (r: Round)
    requires EnvOk(env) && StateOk(s) && Running(s) && st.For? && StmtOk(st, inProc) && (inProc ==> s.frames != [])
    requires b.step != 0 && Int64(b.step)
    requires st.body.stmts == [] ==> Find(s, st.name).Some? && Find(s, st.name).value.v.IntV?
    ensures Executed(s, Done(r.s, r.x)) && r.x != XExit(ForLoop) && r.x != XContinue(ForLoop)
    ensures r.more ==> Running(r.s) && Find(r.s, st.name).Some? && Find(r.s, st.name).value.v.IntV?
    ensures r.more && st.body.stmts == [] ==> Distance(b.step, Find(r.s, st.name), b.end) < Distance(b.step, Find(s, st.name), b.end)
    ensures r.more && st.body.stmts != [] ==> r.s.budget < s.budget
    decreases s.budget, MAX_CALL_DEPTH - |s.frames|, 1, st, 0
  {
    var g := Got(s, st.name);
    AfterEvalIsStmt(s, g);
    var i := Counter(g, st.name);
    if Passed(i, b) then Round(g, XOk, false)
    else
      var d := ExecBlock(env, g, st.body, inProc, 0);
      AfterStmtTrans(s, g, d.s);
      if d.x == XExit(ForLoop) then Round(d.s, XOk, false)
      else if d.x != XOk && d.x != XContinue(ForLoop) then Round(d.s, d.x, false)
      else
        var r := ForNext(d.s, st.name, b);
        AfterStmtTrans(s, d.s, r.s);
        r
  }

  /** The counter takes its next value, unless that wraps around. */
  function ForNext(s: State, name: string, b: Bounds): (r: Round)
    requires StateOk(s) && Running(s) && NameType(name) == IntT && b.step != 0 && Int64(b.step)
    ensures AfterStmt(s, r.s) && Running(r.s) && r.x == XOk
    ensures r.more ==> Find(r.s, name).Some? && Find(r.s, name).value.v.IntV?
    ensures (r.more && Find(s, name).Some? && Find(s, name).value.v.IntV?
      && !Passed(Find(s, name).value.v.i, b)) ==>
      Distance(b.step, Find(r.s, name), b.end) < Distance(b.step, Find(s, name), b.end)
  {
    var h := Got(s, name);
    AfterEvalIsStmt(s, h);
    var j := Counter(h, name);
    var next := Wrap(j + b.step);
    if (b.step > 0 && next < j) || (b.step < 0 && next > j) then Round(h, XOk, false)
    else
      WrapMoves(j, b.step);
      var t := SetCounter(h, name, next);
      AfterStmtTrans(s, h, t);
      Round(t, XOk, true)
  }

  function ForRounds(env: Env, s: State, st: Stmt, inProc: bool, b: Bounds): (d: Done)
    requires EnvOk(env) && StateOk(s) && Running(s) && st.For? && StmtOk(st, inProc) && (inProc ==> s.frames != [])
    requires b.step != 0 && Int64(b.step)
    requires st.body.stmts == [] ==> Find(s, st.name).Some? && Find(s, st.name).value.v.IntV?
    ensures Executed(s, d) && d.x != XExit(ForLoop) && d.x != XContinue(ForLoop)
    decreases s.budget, MAX_CALL_DEPTH - |s.frames|, 1, st, 1, if st.body.stmts == [] then Distance(b.step, Find(s, st.name), b.end) else 0
  {
    var r := ForRound(env, s, st, inProc, b);
    if !r.more then Done(r.s, r.x)
    else
      var d := ForRounds(env, r.s, st, inProc, b);
      AfterStmtTrans(s, r.s, d.s);
      d
  }

  function ExecFor(env: Env, s: State, st: Stmt, inProc: bool): (d: Done)
    requires EnvOk(env) && StateOk(s) && Running(s) && st.For? && StmtOk(st, inProc) && (inProc ==> s.frames != [])
    ensures Executed(s, d) && d.x != XExit(ForLoop) && d.x != XContinue(ForLoop)
    decreases s.budget, MAX_CALL_DEPTH - |s.frames|, 1, st, 2
  {
    var b := ForStart(env, s, st, inProc);
    if b.v.None? then Done(b.s, XError)
    else
      var d := ForRounds(env, b.s, st, inProc, b.v.value);
      AfterStmtTrans(s, b.s, d.s);
      d
  }

  function ExecWhile(env: Env, s: State, st: Stmt, inProc: bool): (d: Done)
    requires EnvOk(env) && StateOk(s) && Running(s) && st.While? && StmtOk(st, inProc) && (inProc ==> s.frames != [])
    ensures Executed(s, d) && d.x != XExit(WhileLoop) && d.x != XContinue(WhileLoop)
    decreases s.budget, MAX_CALL_DEPTH - |s.frames|, 1, st, 0
  {
    var c := Eval(env, s, st.cond);
    AfterEvalIsStmt(s, c.s);
    if c.v.None? then Done(c.s, XError)
    else if !IsTrue(c.v.value) then Done(c.s, XOk)
    else
      var b := ExecBlock(env, c.s, st.body, inProc, 0);
      AfterStmtTrans(s, c.s, b.s);
      if b.x == XExit(WhileLoop) then Done(b.s, XOk)
      else if b.x != XOk && b.x != XContinue(WhileLoop) then b
      else
        var t := Polled(b.s);
        AfterStmtTrans(s, b.s, t);
        if !Running(t) then Done(t, XError)
        else
          var d := ExecWhile(env, t, st, inProc);
          AfterStmtTrans(s, t, d.s);
          d
  }

  /** A DO condition: tells whether the loop goes on. */
  function GoesOn(env: Env, s: State, c: Option<DoCond>): (r: Out<bool>)
    requires EnvOk(env) && StateOk(s) && Running(s) && CondOk(c)
    ensures Evaluated(s, r)
    decreases s.budget, MAX_CALL_DEPTH - |s.frames|, 1, c, 3
  {
    if c.None? then Out(s, Some(true))
    else
      var v := Eval(env, s, c.value.e);
      if v.v.None? then Out(v.s, None) else Out(v.s, Some(IsTrue(v.v.value) != c.value.until))
  }

  function ExecDo(env: Env, s: State, st: Stmt, inProc: bool): (d: Done)
    requires EnvOk(env) && StateOk(s) && Running(s) && st.Do? && StmtOk(st, inProc) && (inProc ==> s.frames != [])
    ensures Executed(s, d) && d.x != XExit(DoLoop) && d.x != XContinue(DoLoop)
    decreases s.budget, MAX_CALL_DEPTH - |s.frames|, 1, st, 0
  {
    var c := GoesOn(env, s, st.pre);
    AfterEvalIsStmt(s, c.s);
    if c.v.None? then Done(c.s, XError)
    else if !c.v.value then Done(c.s, XOk)
    else
      var b := ExecBlock(env, c.s, st.body, inProc, 0);
      AfterStmtTrans(s, c.s, b.s);
      if b.x == XExit(DoLoop) then Done(b.s, XOk)
      else if b.x != XOk && b.x != XContinue(DoLoop) then b
      else
        var e := GoesOn(env, b.s, st.post);
        AfterEvalIsStmt(b.s, e.s);
        AfterStmtTrans(s, b.s, e.s);
        if e.v.None? then Done(e.s, XError)
        else if !e.v.value then Done(e.s, XOk)
        else
          var t := Polled(e.s);
          AfterStmtTrans(s, e.s, t);
          if !Running(t) then Done(t, XError)
          else
            var d := ExecDo(env, t, st, inProc);
            AfterStmtTrans(s, t, d.s);
            d
  }

  function OrderValue(a: Value, b: Value): int
    requires ValType(a) == ValType(b)
  {
    if a.IntV? then OrderInt(a.i, b.i) else OrderStr(a.s, b.s)
  }

  /** A CASE value; its type must be that of the selected value. */
  function CaseValue(env: Env, s: State, e: Expr, sel: Value): (r: Out<Value>)
    requires EnvOk(env) && StateOk(s) && Running(s) && ExprOk(e)
    ensures Evaluated(s, r) && (r.v.Some? ==> ValType(r.v.value) == ValType(sel))
    decreases s.budget, MAX_CALL_DEPTH - |s.frames|, 1, e, 2
  {
    var r := Eval(env, s, e);
    if r.v.Some? && ValType(r.v.value) != ValType(sel) then Out(Failed(r.s), None) else r
  }

  function ItemMatches(env: Env, s: State, it: CaseItem, sel: Value): (r: Out<bool>)
    requires EnvOk(env) && StateOk(s) && Running(s) && ItemOk(it)
    ensures Evaluated(s, r)
    decreases s.budget, MAX_CALL_DEPTH - |s.frames|, 1, it, 3
  {
    match it
    case One(e) =>
      var v := CaseValue(env, s, e, sel);
      if v.v.None? then Out(v.s, None) else Out(v.s, Some(OrderValue(sel, v.v.value) == 0))
    case Is(op, e) =>
      var v := CaseValue(env, s, e, sel);
      if v.v.None? then Out(v.s, None)
      else
        var c := OrderValue(sel, v.v.value);
        Out(v.s, Some(if Compare(op, c).Some? then Compare(op, c).value else c >= 0))
    case Range(lo, hi) => RangeMatches(env, s, it, sel)
  }

  /** Both bounds are evaluated before their types are compared. */
  function RangeMatches(env: Env, s: State, it: CaseItem, sel: Value): (r: Out<bool>)
    requires EnvOk(env) && StateOk(s) && Running(s) && ItemOk(it) && it.Range?
    ensures Evaluated(s, r)
    decreases s.budget, MAX_CALL_DEPTH - |s.frames|, 1, it, 2
  {
    var a := Eval(env, s, it.lo);
    if a.v.None? then Out(a.s, None)
    else
      var b := Eval(env, a.s, it.hi);
      AfterEvalTrans(s, a.s, b.s);
      if b.v.None? then Out(b.s, None)
      else if ValType(a.v.value) != ValType(sel) || ValType(b.v.value) != ValType(sel) then Out(Failed(b.s), None)
      else Out(b.s, Some(OrderValue(sel, a.v.value) >= 0 && OrderValue(sel, b.v.value) <= 0))
  }

  /** Whether one of the items from the j-th on matches. */
  function ClauseMatches(env: Env, s: State, cl: CaseClause, sel: Value, j: nat): (r: Out<bool>)
    requires EnvOk(env) && StateOk(s) && Running(s) && (forall k :: 0 <= k < |cl.items| ==> ItemOk(cl.items[k])) && j <= |cl.items|
    ensures Evaluated(s, r)
    decreases s.budget, MAX_CALL_DEPTH - |s.frames|, 1, cl, 4, |cl.items| - j
  {
    if cl.isElse then Out(s, Some(true))
    else if j == |cl.items| then Out(s, Some(false))
    else
      var m := ItemMatches(env, s, cl.items[j], sel);
      if m.v.None? || m.v.value then m
      else
        var r := ClauseMatches(env, m.s, cl, sel, j + 1);
        AfterEvalTrans(s, m.s, r.s);
        r
  }

  /** The first clause from the i-th on that matches. */
  function SelectFrom(env: Env, s: State, st: Stmt, inProc: bool, sel: Value, i: nat): (d: Done)
    requires EnvOk(env) && StateOk(s) && Running(s) && st.Select? && StmtOk(st, inProc) && (inProc ==> s.frames != []) && i <= |st.cases|
    ensures Executed(s, d)
    decreases s.budget, MAX_CALL_DEPTH - |s.frames|, 1, st, 0, |st.cases| - i
  {
    if i == |st.cases| then Done(s, XOk)
    else
      var m := ClauseMatches(env, s, st.cases[i], sel, 0);
      AfterEvalIsStmt(s, m.s);
      if m.v.None? then Done(m.s, XError)
      else
        var d := if m.v.value then ExecBlock(env, m.s, st.cases[i].body, inProc, 0) else SelectFrom(env, m.s, st, inProc, sel, i + 1);
        AfterStmtTrans(s, m.s, d.s);
        d
  }

  function ExecSelect(env: Env, s: State, st: Stmt, inProc: bool): (d: Done)
    requires EnvOk(env) && StateOk(s) && Running(s) && st.Select? && StmtOk(st, inProc) && (inProc ==> s.frames != [])
    ensures Executed(s, d)
    decreases s.budget, MAX_CALL_DEPTH - |s.frames|, 1, st, 1
  {
    var v := Eval(env, s, st.e);
    AfterEvalIsStmt(s, v.s);
    if v.v.None? then Done(v.s, XError)
    else
      var d := SelectFrom(env, v.s, st, inProc, v.v.value, 0);
      AfterStmtTrans(s, v.s, d.s);
      d
  }

  /** An element of a resized array: new ones are zero, old ones are kept only by REDIM. */
  function KeptOrZero(name: string, elems: seq<Value>, keep: bool, i: nat): (v: Value)
    requires forall k :: 0 <= k < |elems| ==> Fits(elems[k], NameType(name))
    ensures Fits(v, NameType(name))
  {
    if keep && i < |elems| then elems[i] else Zero(name)
  }

  function Resized(name: string, elems: seq<Value>, n: nat, keep: bool): (r: seq<Value>)
    requires forall k :: 0 <= k < |elems| ==> Fits(elems[k], NameType(name))
    ensures |r| == n && forall i :: 0 <= i < n ==> r[i] == KeptOrZero(name, elems, keep, i)
  {
    seq(n, i requires 0 <= i < n && (forall k :: 0 <= k < |elems| ==> Fits(elems[k], NameType(name))) =>
      KeptOrZero(name, elems, keep, i))
  }

  /** The variable a declaration is about exists afterwards, in the frame or among the globals. */
  function Declared(s: State, name: string, inFrame: bool): (t: State)
    requires StateOk(s) && Running(s) && (inFrame ==> s.frames != [])
    ensures AfterStmt(s, t) && Running(t) && Find(t, name).Some?
    ensures inFrame ==> IsLocal(t, name)
    ensures !inFrame ==> t.frames == s.frames
  {
    if (if inFrame then name in Locals(s) else name in s.globals) then s
    else Store(s, inFrame, name, Cell(false, Zero(name), []))
  }

  /** One declaration of DIM, REDIM or LOCAL. */
  function Declare(env: Env, s: State, d: Decl, redim: bool, local: bool): (t: State)
    requires EnvOk(env) && StateOk(s) && Running(s) && OptOk(d.size) && (local ==> s.frames != [])
    ensures AfterStmt(s, t)
    decreases s.budget, MAX_CALL_DEPTH - |s.frames|, 1, d, 3
  {
    var inFrame := local || IsLocal(s, d.name);
    if d.name in env.builtins || (local && IsLocal(s, d.name)) then Failed(s)
    else
      var u := Declared(s, d.name, inFrame);
      if d.size.None? then
        var t := if Find(u, d.name).value.isArray then Failed(u) else u;
        AfterStmtTrans(s, u, t);
        t
      else
        var ub := EvalInt(env, u, d.size.value);
        AfterEvalIsStmt(u, ub.s);
        AfterStmtTrans(s, u, ub.s);
        if ub.v.None? then ub.s
        else
          var t := Resize(ub.s, d.name, ub.v.value, redim, local, inFrame);
          AfterStmtTrans(s, ub.s, t);
          t
  }

  /** Makes a variable an array with indexes up to ub. */
  function Resize(s: State, name: string, ub: int, redim: bool, local: bool, inFrame: bool): (t: State)
    requires StateOk(s) && Running(s) && Find(s, name).Some? && inFrame == IsLocal(s, name)
    ensures AfterStmt(s, t)
  {
    var c := Find(s, name).value;
    if ub < -1 || ub > 10000000 || (c.isArray && !redim && !local) then Failed(s)
    else Store(s, inFrame, name, Cell(true, IntV(0), Resized(name, if c.isArray then c.elems else [], ub + 1, redim)))
  }

  /** The declarations from the i-th on. */
  function ExecDeclare(env: Env, s: State, ds: seq<Decl>, redim: bool, local: bool, i: nat): (d: Done)
    requires EnvOk(env) && StateOk(s) && Running(s) && DeclsOk(ds) && (local ==> s.frames != []) && i <= |ds|
    ensures Executed(s, d)
    decreases s.budget, MAX_CALL_DEPTH - |s.frames|, 1, ds, 4, |ds| - i
  {
    if i == |ds| then Done(s, XOk)
    else
      var t := Declare(env, s, ds[i], redim, local);
      if !Running(t) then Done(t, XError)
      else
        var d := ExecDeclare(env, t, ds, redim, local, i + 1);
        AfterStmtTrans(s, t, d.s);
        d
  }

  function ExecCall(env: Env, s: State, name: string, args: seq<Expr>): (d: Done)
    requires EnvOk(env) && StateOk(s) && Running(s) && ExprsOk(args)
    ensures Executed(s, d)
    decreases s.budget, MAX_CALL_DEPTH - |s.frames|, 1, args, 4
  {
    if name in env.procs then
      var r := CallProc(env, s, env.procs[name], args);
      AfterEvalIsStmt(s, r.s);
      Done(r.s, if r.v.Some? then XOk else if r.s.ended then XEnd else XError)
    else if name in env.builtins then
      var r := CallBuiltin(env, s, name, args);
      AfterEvalIsStmt(s, r.s);
      Done(r.s, if r.v.Some? then XOk else XError)
    else Done(Failed(s), XError)
  }

  /** The frame's return value is set. */
  function Returning(fs: seq<Frame>, v: Value): (gs: seq<Frame>)
    requires fs != [] && ValueOk(v)
    ensures SameStack(fs, gs) && (StackOk(fs) ==> StackOk(gs))
  {
    var top := |fs| - 1;
    assert StackOk(fs) ==> FrameOk(fs[top]);
    fs[..top] + [fs[top].(ret := Some(v))]
  }

  function ExecReturn(env: Env, s: State, e: Option<Expr>): (d: Done)
    requires EnvOk(env) && StateOk(s) && Running(s) && OptOk(e)
    ensures Executed(s, d)
    decreases s.budget, MAX_CALL_DEPTH - |s.frames|, 1, e, 2
  {
    if s.frames == [] then Done(Failed(s), XError)
    else if e.None? then Done(s, XReturn)
    else if !s.frames[|s.frames| - 1].proc.isFunction then Done(Failed(s), XError)
    else
      var r := Eval(env, s, e.value);
      AfterEvalIsStmt(s, r.s);
      if r.v.None? then Done(r.s, XError)
      else
        var t := r.s.(frames := Returning(r.s.frames, r.v.value));
        AfterStmtTrans(s, r.s, t);
        Done(t, XReturn)
  }

  function CodeOf(env: Env, s: State, e: Option<Expr>): (r: Out<int>)
    requires EnvOk(env) && StateOk(s) && Running(s) && OptOk(e)
    ensures Evaluated(s, r)
    decreases s.budget, MAX_CALL_DEPTH - |s.frames|, 1, e, 3
  {
    if e.None? then Out(s, Some(0)) else EvalInt(env, s, e.value)
  }

  /** END: from here on nothing more is executed, printed or stored. */
  function ExecEnd(env: Env, s: State, e: Option<Expr>): (d: Done)
    requires EnvOk(env) && StateOk(s) && Running(s) && OptOk(e)
    ensures Executed(s, d) && (d.x == XEnd ==> -0x8000_0000 <= d.s.endCode < 0x8000_0000)
    ensures e.None? ==> d.x == XEnd && d.s.endCode == 0
    decreases s.budget, MAX_CALL_DEPTH - |s.frames|, 1, e, 4
  {
    var r := CodeOf(env, s, e);
    AfterEvalIsStmt(s, r.s);
    if r.v.None? then Done(r.s, XError)
    else
      var code := Int32(r.v.value);
      Done(r.s.(ended := true, endCode := code, atEnd := Snapshot(r.s.steps, r.s.globals, r.s.out, code)), XEnd)
  }

  function ExecStmt(env: Env, s0: State, st: Stmt, inProc: bool): (d: Done)
    requires EnvOk(env) && StateOk(s0) && Running(s0) && StmtOk(st, inProc) && (inProc ==> s0.frames != [])
    ensures Executed(s0, d)
    decreases s0.budget, MAX_CALL_DEPTH - |s0.frames|, 1, st, 3
  {
    var s := s0.(steps := s0.steps + 1);
    match st
    case Assign(target, value) => ExecAssign(env, s, target, value)
    case Print(args) => ExecPrint(env, s, args, 0)
    case If(_) => ExecIf(env, s, st, inProc, 0)
    case For(_, _, _, _, _) => ExecFor(env, s, st, inProc)
    case While(_, _) => ExecWhile(env, s, st, inProc)
    case Do(_, _, _) => ExecDo(env, s, st, inProc)
    case Select(_, _) => ExecSelect(env, s, st, inProc)
    case Exit(kind) => Done(s, XExit(kind))
    case Continue(kind) => Done(s, XContinue(kind))
    case Goto(name) => Done(s.(gotoLabel := name), XGoto)
    case CallStmt(name, args) => ExecCall(env, s, name, args)
    case Return(e) => ExecReturn(env, s, e)
    case End(e) => ExecEnd(env, s, e)
    case Dim(ds, redim) => ExecDeclare(env, s, ds, redim, false, 0)
    case Local(ds) => ExecDeclare(env, s, ds, false, true, 0)
  }

  /** The statement that a label of the block stands before. */
  function Target(labels: seq<Label>, name: string): (i: Option<nat>)
    ensures i.Some? ==> exists k :: 0 <= k < |labels| && labels[k] == Label(name, i.value)
    ensures i.None? ==> forall k :: 0 <= k < |labels| ==> labels[k].name != name
  {
    if labels == [] then None
    else if labels[|labels| - 1].name == name then Some(labels[|labels| - 1].index)
    else Target(labels[..|labels| - 1], name)
  }

  /** An error that is the end of the program counts as its end. */
  function EndOrError(d: Done): Exec {
    if d.x == XError && d.s.ended && !d.s.hasError then XEnd else d.x
  }

  /** A block from its i-th statement on; GOTO to one of its labels stays inside. */
  function ExecBlock(env: Env, s: State, b: Block, inProc: bool, i: nat): (d: Done)
    requires EnvOk(env) && StateOk(s) && Running(s) && BlockOk(b, inProc) && (inProc ==> s.frames != []) && i <= |b.stmts|
    ensures Executed(s, d)
    ensures d.x == XError ==> d.s.hasError
    ensures d.x == XGoto ==> Target(b.labels, d.s.gotoLabel) == None
    ensures d.s.ended <==> d.x == XEnd
    ensures i == |b.stmts| ==> d == Done(s, XOk)
    ensures i < |b.stmts| && Running(d.s) ==> d.s.budget < s.budget
    decreases s.budget, MAX_CALL_DEPTH - |s.frames|, 1, b, 0
  {
    if i == |b.stmts| then Done(s, XOk)
    else
      var t := Polled(s);
      if !Running(t) then Done(t, XError)
      else
        var r := ExecStmt(env, t, b.stmts[i], inProc);
        AfterStmtTrans(s, t, r.s);
        var x := EndOrError(r);
        var target := if x == XGoto then Target(b.labels, r.s.gotoLabel) else None;
        if x != XOk && target.None? then Done(r.s, x)
        else
          var d := ExecBlock(env, r.s, b, inProc, if x == XOk then i + 1 else target.value);
          AfterStmtTrans(s, r.s, d.s);
          d
  }
}
