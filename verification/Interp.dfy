/** The NESH BASIC interpreter as it runs: it updates variable tables and the stack of frames in place
    while it walks the tree, and does to them exactly what the semantics says. */
module Interpreter {
  import opened ExprSyntax
  import opened BasicValues
  import opened BasicSyntax
  import opened Optional
  import opened Semantics
  import opened VarTables

  /** The frame of a running procedure. */
  class Activation {
    const locals: VarTable
    const proc: Proc
    var ret: Option<Value>

    constructor (locals: VarTable, proc: Proc)
      ensures this.locals == locals && this.proc == proc && ret == None
    {
      this.locals, this.proc, ret := locals, proc, None;
    }
  }

  class Interp {
    const env: Env
    var table: VarTable          // the globals
    var stack: seq<Activation>   // the current frame is the last one
    var callDepth: nat
    var hasError: bool
    var ended: bool
    var endCode: int
    var gotoLabel: string
    var out: seq<Value>         // the values printed
    var budget: nat             // polls that remain before Ctrl-C is pressed
    ghost var globals: Table      // what the table of globals holds
    ghost var frames: seq<Frame>  // what the frames hold
    ghost var steps: nat          // statements executed
    ghost var atEnd: Snapshot     // how things were when END ran
    ghost var Repr: set<object>   // the tables and frames in use

    ghost function Now(): State
      reads this
    {
      State(globals, frames, hasError, ended, endCode, gotoLabel, out, budget, steps, atEnd)
    }

    /** The objects hold what globals and frames say, and share nothing. */
    ghost predicate Linked()
      reads this`table, this`stack, this`globals, this`frames, this`Repr, Repr
    {
      && table in Repr && table.b in Repr && table.Valid() && table.contents == globals
      && |stack| == |frames|
      && (forall i :: 0 <= i < |stack| ==>
        && stack[i] in Repr && stack[i].locals in Repr && stack[i].locals.b in Repr
        && stack[i].locals.Valid() && frames[i] == Frame(stack[i].locals.contents, stack[i].proc, stack[i].ret)
        && stack[i].locals != table && stack[i].locals.b != table.b)
      && (forall i, j :: 0 <= i < j < |stack| ==>
        stack[i] != stack[j] && stack[i].locals != stack[j].locals && stack[i].locals.b != stack[j].locals.b)
    }

    ghost predicate Valid()
      reads this, Repr
    {
      EnvOk(env) && StateOk(Now()) && callDepth == |frames| && this !in Repr && Linked()
    }

    /** No error has occurred and END has not been executed. */
    ghost predicate Running()
      reads this
    {
      Semantics.Running(Now())
    }

    /** The state and the result are those of r. */
    ghost predicate Is<T>(ok: bool, v: T, r: Out<T>)
      reads this, Repr
    {
      Valid() && Now() == r.s && ok == r.v.Some? && (ok ==> v == r.v.value)
    }

    ghost predicate Did(x: Exec, d: Done)
      reads this, Repr
    {
      Valid() && Now() == d.s && x == d.x
    }

    ghost predicate Has(ok: bool, t: State)
      reads this, Repr
    {
      Valid() && Now() == t && ok == Semantics.Running(t)
    }

    constructor (procs: map<string, Proc>, builtins: map<string, Builtin>, polls: nat)
      requires EnvOk(Env(procs, builtins))
      ensures Valid() && Running() && frames == [] && globals == map[] && out == []
      ensures env.procs == procs && env.builtins == builtins && budget == polls && fresh(Repr)
    {
      env := Env(procs, builtins);
      table := new VarTable();
      stack, callDepth := [], 0;
      hasError, ended, endCode, gotoLabel, out, budget := false, false, 0, "", [], polls;
      globals, frames, steps, atEnd := map[], [], 0, Snapshot(0, map[], [], 0);
      new;
      Repr := {table, table.b};
    }

    method Error()
      requires Valid() && Running()
      modifies this`hasError
      ensures Valid() && Now() == Failed(old(Now()))
    {
      hasError := true;
    }

    /** check_break. */
    method Poll() returns (ok: bool)
      requires Valid() && Running()
      modifies this`hasError, this`budget
      ensures Has(ok, Polled(old(Now())))
    {
      if budget == 0 {
        Error();
        return false;
      }
      budget := budget - 1;
      ok := true;
    }

    // ---- variables ----

    ghost function Locals(): (t: Table)
      requires frames != []
      reads this
      ensures t == Semantics.Locals(Now())
    {
      frames[|frames| - 1].locals
    }

    ghost predicate IsLocal(name: string)
      reads this
      ensures IsLocal(name) == Semantics.IsLocal(Now(), name)
    {
      frames != [] && name in Locals()
    }

    ghost function Find(name: string): (c: Option<Cell>)
      reads this
      ensures c == Semantics.Find(Now(), name)
    {
      if IsLocal(name) then Some(Locals()[name])
      else if name in globals then Some(globals[name])
      else None
    }

    /** var_find: in the current frame, then among the globals. */
    method Lookup(name: string) returns (c: Option<Cell>, local: bool)
      requires Valid()
      ensures c == Find(name) && local == IsLocal(name)
    {
      hide Holds;
      c, local := None, false;
      if stack != [] {
        c := stack[|stack| - 1].locals.Find(name);
        local := c.Some?;
      }
      if !local {
        c := table.Find(name);
      }
    }

    /** Stores a cell in the current frame or among the globals. */
    method Store(local: bool, name: string, c: Cell)
      requires Valid() && Running() && CellOk(name, c) && (local ==> frames != [])
      requires var t := if local then Locals() else globals; name in t && t[name].isArray ==> c.isArray
      modifies this`globals, this`frames, this`Repr, Repr
      ensures fresh(Repr - old(Repr))
      ensures Valid() && Now() == Semantics.Store(old(Now()), local, name, c)
    {
      hide Linked, Holds;
      ghost var t := Semantics.Store(Now(), local, name, c);
      if local {
        StoreLocal(name, c);
      } else {
        StoreGlobal(name, c);
      }
      assert Now() == t;
    }

    method StoreGlobal(name: string, c: Cell)
      requires Linked() && this !in Repr
      modifies this`globals, this`Repr, Repr
      ensures Linked() && this !in Repr && globals == old(globals)[name := c] && fresh(Repr - old(Repr))
    {
      hide Holds;
      table.Put(name, c);
      globals := table.contents;
      Repr := Repr + {table.b};
    }

    method StoreLocal(name: string, c: Cell)
      requires Linked() && this !in Repr && frames != []
      modifies this`frames, this`Repr, Repr
      ensures Linked() && this !in Repr && frames == Semantics.StoreLocal(old(frames), name, c)
      ensures fresh(Repr - old(Repr))
    {
      hide Holds;
      var top := stack[|stack| - 1];
      top.locals.Put(name, c);
      frames := Semantics.StoreLocal(frames, name, c);
      Repr := Repr + {top.locals.b};
    }

    /** var_get: the variable, made a global if it does not exist. */
    method Get(name: string) returns (c: Cell, local: bool)
      requires Valid() && Running()
      modifies this`globals, this`Repr, Repr
      ensures fresh(Repr - old(Repr))
      ensures Valid() && Now() == Got(old(Now()), name) && Running()
      ensures Find(name) == Some(c) && local == IsLocal(name)
    {
      hide Linked, Holds;
      ghost var t := Got(Now(), name);
      var found;
      found, local := Lookup(name);
      if found == None {
        c := Cell(false, Zero(name), []);
        StoreGlobal(name, c);
      } else {
        c := found.value;
      }
      assert Now() == t;
    }

    // ---- expressions ----

    method Eval(e: Expr) returns (ok: bool, v: Value)
      requires Valid() && Running() && ExprOk(e)
      modifies this, Repr
      ensures fresh(Repr - old(Repr))
      ensures Is(ok, v, Semantics.Eval(env, old(Now()), e))
      decreases budget, MAX_CALL_DEPTH - |frames|, 1, e, 1
    {
      hide Linked, Holds, Semantics.EvalVar, Semantics.EvalCall, Semantics.EvalInt, Semantics.EvalBinary, StateOk, EnvOk;
      v := IntV(0);
      match e
      case Number(n) =>
        return true, IntV(n);
      case Text(s) =>
        return true, StrV(s);
      case Var(name) =>
        ok, v := EvalVar(name);
      case Call(name, args) =>
        ok, v := EvalCall(name, args);
      case Neg(x) =>
        var n;
        ok, n := EvalInt(x);
        v := IntV(Wrap(-n));
      case Invert(x) =>
        var n;
        ok, n := EvalInt(x);
        v := IntV(Wrap(-n - 1));
      case Binary(op, a, b) =>
        ok, v := EvalBinary(e);
    }

    /** An expression that must be a number. */
    method EvalInt(e: Expr) returns (ok: bool, n: int)
      requires Valid() && Running() && ExprOk(e)
      modifies this, Repr
      ensures fresh(Repr - old(Repr))
      ensures Is(ok, n, Semantics.EvalInt(env, old(Now()), e))
      decreases budget, MAX_CALL_DEPTH - |frames|, 1, e, 2
    {
      hide Linked, Holds, Semantics.Eval, StateOk, EnvOk;
      var v;
      n := 0;
      ok, v := Eval(e);
      if ok {
        if v.StrV? {
          Error();
          return false, 0;
        }
        n := v.i;
      }
    }

    method EvalBinary(e: Expr) returns (ok: bool, v: Value)
      requires Valid() && Running() && ExprOk(e) && e.Binary?
      modifies this, Repr
      ensures fresh(Repr - old(Repr))
      ensures Is(ok, v, Semantics.EvalBinary(env, old(Now()), e))
      decreases budget, MAX_CALL_DEPTH - |frames|, 1, e, 0
    {
      hide Linked, Holds, BinaryOp, Semantics.Eval, StateOk, EnvOk;
      v := IntV(0);
      var x, y;
      ok, x := Eval(e.a);
      if !ok {
        return;
      }
      ok, y := Eval(e.b);
      if !ok {
        return;
      }
      var r := BinaryOp(e.op, x, y);
      if r == None {
        Error();
        return false, v;
      }
      v := r.value;
    }
  
    /** A name: a variable, a built-in or a procedure without arguments, or the zero of its type. */
    method EvalVar(name: string) returns (ok: bool, v: Value)
      requires Valid() && Running()
      modifies this, Repr
      ensures fresh(Repr - old(Repr))
      ensures Is(ok, v, Semantics.EvalVar(env, old(Now()), name))
      decreases budget, MAX_CALL_DEPTH - |frames|, 0, 1
    {
      hide Linked, Holds, Semantics.Find, Semantics.Apply, Semantics.Invoke, StateOk;
      v := Zero(name);
      var c, _ := Lookup(name);
      if c.Some? {
        if c.value.isArray {
          Error();
          return false, v;
        }
        return true, c.value.v;
      }
      if name in env.builtins {
        if env.builtins[name].minArgs > 0 {
          Error();
          return false, v;
        }
        ok, v := Apply(name, []);
      } else if name in env.procs && env.procs[name].isFunction {
        ok := Enter(env.procs[name], 0);
        if ok {
          var locals := new VarTable();
          ok, v := Invoke(env.procs[name], locals);
        }
      } else {
        ok := true;
      }
    }

    method EvalCall(name: string, args: seq<Expr>) returns (ok: bool, v: Value)
      requires Valid() && Running() && ExprsOk(args)
      modifies this, Repr
      ensures fresh(Repr - old(Repr))
      ensures Is(ok, v, Semantics.EvalCall(env, old(Now()), name, args))
      decreases budget, MAX_CALL_DEPTH - |frames|, 1, args, 3
    {
      hide Linked, Holds, Semantics.Find, Semantics.Element, Semantics.CallProc, Semantics.CallBuiltin, StateOk;
      v := Zero(name);
      var c, _ := Lookup(name);
      if c.Some? && c.value.isArray {
        if |args| != 1 {
          Error();
          return false, v;
        }
        ok, v := Element(name, args[0]);
      } else if name in env.procs {
        if !env.procs[name].isFunction {
          Error();
          return false, v;
        }
        ok, v := CallProc(env.procs[name], args);
      } else if name in env.builtins {
        ok, v := CallBuiltin(name, args);
      } else {
        Error();
        ok := false;
      }
    }

    /** eval_index: the array is looked up before the index is evaluated. */
    method Index(name: string, e: Expr) returns (ok: bool, local: bool, i: int)
      requires Valid() && Running() && ExprOk(e)
      requires Find(name).Some? && Find(name).value.isArray
      modifies this, Repr
      ensures fresh(Repr - old(Repr))
      ensures var r := Semantics.Index(env, old(Now()), name, e);
        Valid() && Now() == r.s && ok == r.v.Some? && (ok ==> local == r.v.value.local && i == r.v.value.index)
      decreases budget, MAX_CALL_DEPTH - |frames|, 1, e, 3
    {
      hide Linked, Holds, Semantics.EvalInt;
      var c;
      c, local := Lookup(name);
      ok, i := EvalInt(e);
      if ok {
        var now, _ := Lookup(name);
        if i < 0 || i >= |now.value.elems| {
          Error();
          ok := false;
        }
      }
    }

    method Element(name: string, e: Expr) returns (ok: bool, v: Value)
      requires Valid() && Running() && ExprOk(e)
      requires Find(name).Some? && Find(name).value.isArray
      modifies this, Repr
      ensures fresh(Repr - old(Repr))
      ensures Is(ok, v, Semantics.Element(env, old(Now()), name, e))
      decreases budget, MAX_CALL_DEPTH - |frames|, 1, e, 4
    {
      hide Linked, Holds, Semantics.Index, StateOk;
      var local, i;
      v := Zero(name);
      ok, local, i := Index(name, e);
      if ok {
        var c, _ := Lookup(name);
        v := c.value.elems[i];
      }
    }

    // ---- built-in functions ----

    method Apply(name: string, args: seq<Value>) returns (ok: bool, v: Value)
      requires Valid() && Running() && name in env.builtins
      modifies this`hasError
      ensures Is(ok, v, Semantics.Apply(env, old(Now()), name, args))
    {
      v := Zero(name);
      var r := env.builtins[name].fn(args);
      if r == None {
        Error();
        return false, v;
      }
      if ValType(r.value) == NameType(name) {
        v := if r.value.IntV? then IntV(Wrap(r.value.i)) else r.value;
      }
      ok := true;
    }

    method CallBuiltin(name: string, args: seq<Expr>) returns (ok: bool, v: Value)
      requires Valid() && Running() && ExprsOk(args) && name in env.builtins
      modifies this, Repr
      ensures fresh(Repr - old(Repr))
      ensures Is(ok, v, Semantics.CallBuiltin(env, old(Now()), name, args))
      decreases budget, MAX_CALL_DEPTH - |frames|, 1, args, 2
    {
      hide Linked, Holds, Semantics.Arguments, Semantics.Apply, StateOk;
      v := Zero(name);
      var f := env.builtins[name];
      if |args| < f.minArgs || |args| > f.maxArgs || |args| > 16 {
        Error();
        return false, v;
      }
      var vals;
      ok, vals := Arguments(f.types, args);
      if ok {
        ok, v := Apply(name, vals);
      }
    }

    method Arguments(types: string, args: seq<Expr>) returns (ok: bool, vals: seq<Value>)
      requires Valid() && Running() && ExprsOk(args)
      modifies this, Repr
      ensures fresh(Repr - old(Repr))
      ensures Is(ok, vals, Semantics.Arguments(env, old(Now()), types, args, 0, []))
      decreases budget, MAX_CALL_DEPTH - |frames|, 1, args, 1
    {
      hide Linked, Holds, Semantics.Eval, StateOk, EnvOk;
      vals := [];
      ghost var start := Now();
      for i := 0 to |args|
        invariant Valid() && Running() && fresh(Repr - old(Repr)) && Now().budget <= old(budget) && frames == old(frames)
        invariant Semantics.Arguments(env, start, types, args, 0, []) == Semantics.Arguments(env, Now(), types, args, i, vals)
      {
        var t, x := ArgType(types, i), IntV(0);
        if t != 'a' {
          ok, x := Eval(args[i]);
          if !ok {
            return;
          }
          if (t == 's' && x.IntV?) || (t == 'n' && x.StrV?) {
            Error();
            return false, vals;
          }
        }
        vals := vals + [x];
      }
      ok := true;
    }

    // ---- procedures ----

    /** The checks before the arguments are evaluated. */
    method Enter(pr: Proc, nargs: nat) returns (ok: bool)
      requires Valid() && Running()
      modifies this`hasError
      ensures Has(ok, if CanEnter(old(Now()), pr, nargs) then old(Now()) else Failed(old(Now())))
    {
      if nargs != |pr.params| || callDepth >= MAX_CALL_DEPTH {
        Error();
        return false;
      }
      ok := true;
    }

    method CallProc(pr: Proc, args: seq<Expr>) returns (ok: bool, v: Value)
      requires Valid() && Running() && ExprsOk(args)
      requires pr.name in env.procs && env.procs[pr.name] == pr
      modifies this, Repr
      ensures fresh(Repr - old(Repr))
      ensures Is(ok, v, Semantics.CallProc(env, old(Now()), pr, args))
      decreases budget, MAX_CALL_DEPTH - |frames|, 1, args, 2
    {
      hide Linked, Holds, Semantics.Bind, Semantics.Invoke, StateOk;
      v := IntV(0);
      ok := Enter(pr, |args|);
      if !ok {
        return;
      }
      var locals;
      ok, locals := Bind(pr, args);
      if ok {
        ok, v := Invoke(pr, locals);
      }
    }

    method Bind(pr: Proc, args: seq<Expr>) returns (ok: bool, locals: VarTable)
      requires Valid() && Running() && ExprsOk(args) && |args| == |pr.params|
      modifies this, Repr
      ensures fresh(Repr - old(Repr))
      ensures Is(ok, locals.contents, Semantics.Bind(env, old(Now()), pr, args, 0, map[]))
      ensures locals.Valid() && fresh(locals) && fresh(locals.b) && {locals, locals.b} !! Repr
      decreases budget, MAX_CALL_DEPTH - |frames|, 1, args, 1
    {
      hide Linked, Holds, Semantics.Eval, StateOk, EnvOk, TableOk;
      locals := new VarTable();
      NoneOk();
      ghost var start := Now();
      for i := 0 to |args|
        invariant Valid() && Running() && fresh(Repr - old(Repr)) && Now().budget <= old(budget) && frames == old(frames)
        invariant locals.Valid() && fresh(locals) && fresh(locals.b) && {locals, locals.b} !! Repr && TableOk(locals.contents)
        invariant Semantics.Bind(env, start, pr, args, 0, map[]) == Semantics.Bind(env, Now(), pr, args, i, locals.contents)
      {
        var x;
        ok, x := Eval(args[i]);
        if !ok {
          return;
        }
        if ValType(x) != NameType(pr.params[i]) {
          Error();
          return false, locals;
        }
        TableUpdate(locals.contents, pr.params[i], Cell(false, x, []));
        locals.Put(pr.params[i], Cell(false, x, []));
      }
      ok := true;
    }

    /** Runs the body in a new frame and removes the frame, whatever the outcome. */
    method Invoke(pr: Proc, locals: VarTable) returns (ok: bool, v: Value)
      requires Valid() && Running() && TableOk(locals.contents) && |frames| < MAX_CALL_DEPTH
      requires pr.name in env.procs && env.procs[pr.name] == pr
      requires locals.Valid() && {locals, locals.b} !! Repr
      modifies this, Repr, locals, locals.b
      ensures fresh(Repr - old(Repr) - {locals, old(locals.b)})
      ensures Is(ok, v, Semantics.Invoke(env, old(Now()), pr, old(locals.contents)))
      decreases budget, MAX_CALL_DEPTH - |frames|, 0, 0
    {
      hide Linked, Holds, Semantics.ExecBlock;
      v := IntV(0);
      ghost var s, contents := Now(), locals.contents;
      Push(pr, locals);
      assert Now() == Entered(s, pr, contents);
      var x := ExecBlock(pr.body, true);
      ghost var t := Now();
      var ret := Pop();
      assert Now() == Left(s, pr, contents, t);
      if x == XError || x == XEnd {
        return false, v;
      }
      if x == XGoto || x.XExit? || x.XContinue? {
        Error();
        return false, v;
      }
      v := if ret.Some? then ret.value else Zero(pr.name);
      assert v == Returned(t, pr);
      if pr.isFunction && ValType(v) != NameType(pr.name) {
        Error();
        return false, v;
      }
      ok := true;
    }

    method Push(pr: Proc, locals: VarTable)
      requires Linked() && this !in Repr && callDepth == |frames|
      requires locals.Valid() && {locals, locals.b} !! Repr
      modifies this`stack, this`frames, this`callDepth, this`Repr
      ensures Linked() && this !in Repr && callDepth == |frames| && frames == old(frames) + [Frame(locals.contents, pr, None)]
      ensures fresh(Repr - old(Repr) - {locals, locals.b})
    {
      hide Holds;
      var top := new Activation(locals, pr);
      stack := stack + [top];
      frames := frames + [Frame(locals.contents, pr, None)];
      callDepth := callDepth + 1;
      Repr := Repr + {top, locals, locals.b};
    }

    /** Removes the current frame and gives its return value. */
    method Pop() returns (ret: Option<Value>)
      requires Linked() && frames != [] && callDepth == |frames|
      modifies this`stack, this`frames, this`callDepth
      ensures Linked() && callDepth == |frames| && frames == old(frames)[..|old(frames)| - 1]
      ensures ret == old(frames)[|old(frames)| - 1].ret
    {
      hide Holds;
      ret := stack[|stack| - 1].ret;
      callDepth := callDepth - 1;
      stack := stack[..|stack| - 1];
      frames := frames[..|frames| - 1];
    }

    // ---- statements ----

    /** Stores v in a variable or an array element of its type. */
    method AssignTo(target: Expr, v: Value) returns (ok: bool)
      requires Valid() && Running() && TargetOk(target) && ValueOk(v)
      modifies this, Repr
      ensures fresh(Repr - old(Repr))
      ensures Has(ok, Semantics.AssignTo(env, old(Now()), target, v))
      decreases budget, MAX_CALL_DEPTH - |frames|, 1, target, 5
    {
      hide Linked, Holds, Semantics.Index, Semantics.Store, Semantics.Find, Got, StateOk, EnvOk;
      var name := target.name;
      if ValType(v) != NameType(name) {
        Error();
        return false;
      }
      if target.Call? {
        var a, _ := Lookup(name);
        if a == None || !a.value.isArray {
          Error();
          return false;
        }
        var local, i;
        ok, local, i := Index(name, target.args[0]);
        if ok {
          var now, _ := Lookup(name);
          Store(local, name, now.value.(elems := now.value.elems[i := v]));
        }
        return;
      }
      if name in env.builtins || name in env.procs {
        Error();
        return false;
      }
      var c, local := Get(name);
      if c.isArray {
        Error();
        return false;
      }
      Store(local, name, c.(v := v));
      ok := true;
    }

    method ExecAssign(target: Expr, value: Expr) returns (x: Exec)
      requires Valid() && Running() && TargetOk(target) && ExprOk(value)
      modifies this, Repr
      ensures fresh(Repr - old(Repr))
      ensures Did(x, Semantics.ExecAssign(env, old(Now()), target, value))
      decreases budget, MAX_CALL_DEPTH - |frames|, 1, Assign(target, value), 0
    {
      hide Linked, Holds, Semantics.Eval, Semantics.AssignTo, StateOk, EnvOk;
      var ok, v := Eval(value);
      if ok {
        ok := AssignTo(target, v);
      }
      x := if ok then XOk else XError;
    }

    method ExecPrint(args: seq<Expr>) returns (x: Exec)
      requires Valid() && Running() && ExprsOk(args)
      modifies this, Repr
      ensures fresh(Repr - old(Repr))
      ensures Did(x, Semantics.ExecPrint(env, old(Now()), args, 0))
      decreases budget, MAX_CALL_DEPTH - |frames|, 1, args, 2
    {
      hide Linked, Holds, Semantics.Eval, EnvOk;
      ghost var start := Now();
      for i := 0 to |args|
        invariant Valid() && Running() && fresh(Repr - old(Repr)) && budget <= old(budget) && frames == old(frames)
        invariant Semantics.ExecPrint(env, start, args, 0) == Semantics.ExecPrint(env, Now(), args, i)
      {
        var ok, v := Eval(args[i]);
        if !ok {
          return XError;
        }
        out := out + [v];
      }
      x := XOk;
    }

    method Condition(e: Expr) returns (ok: bool, c: bool)
      requires Valid() && Running() && ExprOk(e)
      modifies this, Repr
      ensures fresh(Repr - old(Repr))
      ensures var r := Semantics.Eval(env, old(Now()), e);
        Valid() && Now() == r.s && ok == r.v.Some? && (ok ==> c == IsTrue(r.v.value))
      decreases budget, MAX_CALL_DEPTH - |frames|, 1, e, 2
    {
      hide Linked, Holds, Semantics.Eval, StateOk, EnvOk;
      var v;
      ok, v := Eval(e);
      c := if v.IntV? then v.i != 0 else v.s != "";
    }

    method ExecIf(s: Stmt, inProc: bool) returns (x: Exec)
      requires Valid() && Running() && s.If? && StmtOk(s, inProc) && (inProc ==> frames != [])
      modifies this, Repr
      ensures fresh(Repr - old(Repr))
      ensures Did(x, Semantics.ExecIf(env, old(Now()), s, inProc, 0))
      decreases budget, MAX_CALL_DEPTH - |frames|, 1, s, 0
    {
      hide Linked, Holds, Semantics.Eval, Semantics.ExecBlock, StateOk, EnvOk;
      ghost var start := Now();
      for i := 0 to |s.clauses|
        invariant Valid() && Running() && fresh(Repr - old(Repr)) && budget <= old(budget) && frames == old(frames)
        invariant Semantics.ExecIf(env, start, s, inProc, 0) == Semantics.ExecIf(env, Now(), s, inProc, i)
      {
        var c := true;
        if s.clauses[i].cond.Some? {
          var ok;
          ok, c := Condition(s.clauses[i].cond.value);
          if !ok {
            return XError;
          }
        }
        if c {
          x := ExecBlock(s.clauses[i].body, inProc);
          return;
        }
      }
      x := XOk;
    }

    /** The counter of a FOR loop: the variable, read again because the body may change it. */
    method ReadCounter(name: string) returns (i: int)
      requires Valid() && Running()
      modifies this`globals, this`Repr, Repr
      ensures fresh(Repr - old(Repr))
      ensures Valid() && Now() == Got(old(Now()), name) && Running() && i == Counter(Now(), name)
    {
      var c, local := Get(name);
      i := if c.v.IntV? then c.v.i else 0;
    }

    method SetCounter(name: string, i: int)
      requires Valid() && Running() && NameType(name) == IntT && Int64(i)
      modifies this`globals, this`frames, this`Repr, Repr
      ensures fresh(Repr - old(Repr))
      ensures Valid() && Now() == Semantics.SetCounter(old(Now()), name, i)
    {
      hide Linked, Holds, Semantics.Store, Got, Semantics.Find;
      var c, local := Get(name);
      Store(local, name, c.(v := IntV(i)));
    }

    method ExecFor(s: Stmt, inProc: bool) returns (x: Exec)
      requires Valid() && Running() && s.For? && StmtOk(s, inProc) && (inProc ==> frames != [])
      modifies this, Repr
      ensures fresh(Repr - old(Repr))
      ensures Did(x, Semantics.ExecFor(env, old(Now()), s, inProc))
      decreases budget, MAX_CALL_DEPTH - |frames|, 1, s, 2
    {
      hide Linked, Holds, Semantics.ForStart, ForRounds, StateOk, EnvOk;
      var ok, end, step := ForStart(s, inProc);
      if !ok {
        return XError;
      }
      x := ForRest(s, inProc, end, step);
    }

    method ForRest(s: Stmt, inProc: bool, end: int, step: int) returns (x: Exec)
      requires Valid() && Running() && s.For? && StmtOk(s, inProc) && (inProc ==> frames != []) && step != 0 && Int64(step)
      requires s.body.stmts == [] ==> Find(s.name).Some? && Find(s.name).value.v.IntV?
      modifies this, Repr
      ensures fresh(Repr - old(Repr))
      ensures Did(x, ForRounds(env, old(Now()), s, inProc, Bounds(end, step)))
      decreases budget, MAX_CALL_DEPTH - |frames|, 1, s, 1
    {
      hide Linked, Holds, Semantics.ForRound, StateOk, EnvOk;
      ghost var start := Now();
      ghost var b := Bounds(end, step);
      while true
        invariant Valid() && Running() && fresh(Repr - old(Repr)) && budget <= old(budget) && |frames| == |old(frames)|
        invariant s.body.stmts == [] ==> Find(s.name).Some? && Find(s.name).value.v.IntV?
        invariant ForRounds(env, start, s, inProc, b) == ForRounds(env, Now(), s, inProc, b)
        decreases budget, if s.body.stmts == [] then Distance(step, Find(s.name), end) else 0
      {
        var more;
        x, more := ForRound(s, inProc, end, step);
        if !more {
          return;
        }
      }
    }

    /** The bounds of a FOR loop, and its counter set to the first one. */
    method ForStart(s: Stmt, inProc: bool) returns (ok: bool, end: int, step: int)
      requires Valid() && Running() && s.For? && StmtOk(s, inProc)
      modifies this, Repr
      ensures fresh(Repr - old(Repr))
      ensures Is(ok, Bounds(end, step), Semantics.ForStart(env, old(Now()), s, inProc))
      decreases budget, MAX_CALL_DEPTH - |frames|, 1, s, 0
    {
      hide Linked, Holds, Semantics.EvalInt, Semantics.ForFirst, StateOk, EnvOk;
      var start;
      end, step := 0, 1;
      ok, start := EvalInt(s.start);
      if !ok {
        return;
      }
      ok, end := EvalInt(s.end);
      if !ok {
        return;
      }
      if s.step.Some? {
        ok, step := EvalInt(s.step.value);
        if !ok {
          return;
        }
      }
      ok := ForFirst(s.name, start, end, step);
    }

    method ForFirst(name: string, start: int, end: int, step: int) returns (ok: bool)
      requires Valid() && Running() && NameType(name) == IntT && Int64(start) && Int64(step)
      modifies this, Repr
      ensures fresh(Repr - old(Repr))
      ensures Is(ok, Bounds(end, step), Semantics.ForFirst(env, old(Now()), name, start, Bounds(end, step)))
    {
      hide Linked, Holds, Got, Semantics.SetCounter, Semantics.Find, StateOk, EnvOk;
      if step == 0 || name in env.builtins {
        Error();
        return false;
      }
      var c, local := Get(name);
      if c.isArray {
        Error();
        return false;
      }
      SetCounter(name, start);
      ok := true;
    }

    /** One round of a FOR loop: the body, unless the counter has passed the end, and the next value. */
    method ForRound(s: Stmt, inProc: bool, end: int, step: int) returns (x: Exec, more: bool)
      requires Valid() && Running() && s.For? && StmtOk(s, inProc) && (inProc ==> frames != []) && step != 0 && Int64(step)
      requires s.body.stmts == [] ==> Find(s.name).Some? && Find(s.name).value.v.IntV?
      modifies this, Repr
      ensures fresh(Repr - old(Repr))
      ensures Valid() && Round(Now(), x, more) == Semantics.ForRound(env, old(Now()), s, inProc, Bounds(end, step))
      decreases budget, MAX_CALL_DEPTH - |frames|, 1, s, 0
    {
      hide Linked, Holds, Semantics.ExecBlock, Semantics.ForNext, Got, Semantics.Find, Counter, StateOk, EnvOk;
      var i := ReadCounter(s.name);
      if if step > 0 then i > end else i < end {
        return XOk, false;
      }
      x := ExecBlock(s.body, inProc);
      if x == XExit(ForLoop) {
        return XOk, false;
      }
      if x != XOk && x != XContinue(ForLoop) {
        return x, false;
      }
      more := ForNext(s.name, end, step);
      x := XOk;
    }

    /** The counter takes its next value, unless that wraps around. */
    method ForNext(name: string, end: int, step: int) returns (more: bool)
      requires Valid() && Running() && NameType(name) == IntT && step != 0 && Int64(step)
      modifies this`globals, this`frames, this`Repr, Repr
      ensures fresh(Repr - old(Repr))
      ensures Valid() && Round(Now(), XOk, more) == Semantics.ForNext(old(Now()), name, Bounds(end, step))
    {
      hide Linked, Holds, Got, Semantics.SetCounter, Semantics.Find, Counter, StateOk, EnvOk;
      var i := ReadCounter(name);
      var next := Wrap(i + step);
      if (step > 0 && next < i) || (step < 0 && next > i) {
        return false;
      }
      SetCounter(name, next);
      more := true;
    }

    method ExecWhile(s: Stmt, inProc: bool) returns (x: Exec)
      requires Valid() && Running() && s.While? && StmtOk(s, inProc) && (inProc ==> frames != [])
      modifies this, Repr
      ensures fresh(Repr - old(Repr))
      ensures Did(x, Semantics.ExecWhile(env, old(Now()), s, inProc))
      decreases budget, MAX_CALL_DEPTH - |frames|, 1, s, 0
    {
      hide Linked, Holds, Semantics.Eval, Semantics.ExecBlock, Polled, StateOk, EnvOk;
      ghost var start := Now();
      while true
        invariant Valid() && Running() && fresh(Repr - old(Repr)) && budget <= old(budget) && |frames| == |old(frames)|
        invariant Semantics.ExecWhile(env, start, s, inProc) == Semantics.ExecWhile(env, Now(), s, inProc)
        decreases budget
      {
        var ok, c := Condition(s.cond);
        if !ok {
          return XError;
        }
        if !c {
          return XOk;
        }
        x := ExecBlock(s.body, inProc);
        if x == XExit(WhileLoop) {
          return XOk;
        }
        if x != XOk && x != XContinue(WhileLoop) {
          return;
        }
        ok := Poll();
        if !ok {
          return XError;
        }
      }
    }

    /** A DO condition: tells whether the loop goes on. */
    method GoesOn(c: Option<DoCond>) returns (ok: bool, more: bool)
      requires Valid() && Running() && CondOk(c)
      modifies this, Repr
      ensures fresh(Repr - old(Repr))
      ensures Is(ok, more, Semantics.GoesOn(env, old(Now()), c))
      decreases budget, MAX_CALL_DEPTH - |frames|, 1, c, 3
    {
      hide Linked, Holds, Semantics.Eval, StateOk, EnvOk;
      ok, more := true, true;
      if c.Some? {
        ok, more := Condition(c.value.e);
        if c.value.until {
          more := !more;
        }
      }
    }

    method ExecDo(s: Stmt, inProc: bool) returns (x: Exec)
      requires Valid() && Running() && s.Do? && StmtOk(s, inProc) && (inProc ==> frames != [])
      modifies this, Repr
      ensures fresh(Repr - old(Repr))
      ensures Did(x, Semantics.ExecDo(env, old(Now()), s, inProc))
      decreases budget, MAX_CALL_DEPTH - |frames|, 1, s, 1
    {
      hide Linked, Holds, Semantics.ExecDo, StateOk, EnvOk;
      ghost var start := Now();
      while true
        invariant Valid() && Running() && fresh(Repr - old(Repr)) && budget <= old(budget) && |frames| == |old(frames)|
        invariant Semantics.ExecDo(env, start, s, inProc) == Semantics.ExecDo(env, Now(), s, inProc)
        decreases budget
      {
        var more;
        x, more := DoRound(s, inProc);
        if !more {
          return;
        }
      }
    }

    /** One round of a DO loop, and whether there is another one. */
    method DoRound(s: Stmt, inProc: bool) returns (x: Exec, more: bool)
      requires Valid() && Running() && s.Do? && StmtOk(s, inProc) && (inProc ==> frames != [])
      modifies this, Repr
      ensures fresh(Repr - old(Repr))
      ensures Valid() && (more ==> Running() && budget < old(budget) && |frames| == |old(frames)|)
      ensures var d := Semantics.ExecDo(env, old(Now()), s, inProc);
        if more then d == Semantics.ExecDo(env, Now(), s, inProc) else Did(x, d)
      decreases budget, MAX_CALL_DEPTH - |frames|, 1, s, 0
    {
      hide Linked, Holds, Semantics.GoesOn, Semantics.ExecBlock, Polled, StateOk, EnvOk;
      var ok;
      ok, more := GoesOn(s.pre);
      if !ok {
        return XError, false;
      }
      if !more {
        return XOk, false;
      }
      x := ExecBlock(s.body, inProc);
      if x == XExit(DoLoop) {
        return XOk, false;
      }
      if x != XOk && x != XContinue(DoLoop) {
        return x, false;
      }
      ok, more := GoesOn(s.post);
      if !ok {
        return XError, false;
      }
      if !more {
        return XOk, false;
      }
      more := Poll();
      x := XError;
    }

    /** A CASE value; its type must be that of the selected value. */
    method CaseValue(e: Expr, sel: Value) returns (ok: bool, v: Value)
      requires Valid() && Running() && ExprOk(e)
      modifies this, Repr
      ensures fresh(Repr - old(Repr))
      ensures Is(ok, v, Semantics.CaseValue(env, old(Now()), e, sel))
      decreases budget, MAX_CALL_DEPTH - |frames|, 1, e, 2
    {
      hide Linked, Holds, Semantics.Eval, StateOk, EnvOk;
      ok, v := Eval(e);
      if ok && ValType(v) != ValType(sel) {
        Error();
        ok := false;
      }
    }

    method ItemMatches(it: CaseItem, sel: Value) returns (ok: bool, m: bool)
      requires Valid() && Running() && ItemOk(it)
      modifies this, Repr
      ensures fresh(Repr - old(Repr))
      ensures Is(ok, m, Semantics.ItemMatches(env, old(Now()), it, sel))
      decreases budget, MAX_CALL_DEPTH - |frames|, 1, it, 3
    {
      hide Linked, Holds, Semantics.CaseValue, Semantics.RangeMatches, Compare, OrderValue, StateOk, EnvOk;
      m := false;
      match it
      case One(e) =>
        var v;
        ok, v := CaseValue(e, sel);
        m := ok && OrderValue(sel, v) == 0;
      case Is(op, e) =>
        var v;
        ok, v := CaseValue(e, sel);
        if ok {
          var c := OrderValue(sel, v);
          m := if Compare(op, c).Some? then Compare(op, c).value else c >= 0;
        }
      case Range(lo, hi) =>
        ok, m := RangeMatches(it, sel);
    }

    /** Both bounds are evaluated before their types are compared. */
    method RangeMatches(it: CaseItem, sel: Value) returns (ok: bool, m: bool)
      requires Valid() && Running() && ItemOk(it) && it.Range?
      modifies this, Repr
      ensures fresh(Repr - old(Repr))
      ensures Is(ok, m, Semantics.RangeMatches(env, old(Now()), it, sel))
      decreases budget, MAX_CALL_DEPTH - |frames|, 1, it, 2
    {
      hide Linked, Holds, Semantics.Eval, OrderValue, StateOk, EnvOk;
      m := false;
      var a, b;
      ok, a := Eval(it.lo);
      if !ok {
        return;
      }
      ok, b := Eval(it.hi);
      if !ok {
        return;
      }
      if ValType(a) != ValType(sel) || ValType(b) != ValType(sel) {
        Error();
        return false, false;
      }
      m := OrderValue(sel, a) >= 0 && OrderValue(sel, b) <= 0;
    }

    method ClauseMatches(cl: CaseClause, sel: Value) returns (ok: bool, m: bool)
      requires Valid() && Running() && forall j :: 0 <= j < |cl.items| ==> ItemOk(cl.items[j])
      modifies this, Repr
      ensures fresh(Repr - old(Repr))
      ensures Is(ok, m, Semantics.ClauseMatches(env, old(Now()), cl, sel, 0))
      decreases budget, MAX_CALL_DEPTH - |frames|, 1, cl, 4
    {
      hide Linked, Holds, Semantics.ItemMatches, StateOk, EnvOk;
      ghost var start := Now();
      ok, m := true, cl.isElse;
      for j := 0 to |cl.items|
        invariant Valid() && Running() && fresh(Repr - old(Repr)) && ok && budget <= old(budget) && frames == old(frames)
        invariant m ==> Is(ok, m, Semantics.ClauseMatches(env, start, cl, sel, 0))
        invariant !m ==> !cl.isElse && Semantics.ClauseMatches(env, start, cl, sel, 0) == Semantics.ClauseMatches(env, Now(), cl, sel, j)
      {
        if m {
          return;
        }
        ok, m := ItemMatches(cl.items[j], sel);
        if !ok {
          return;
        }
      }
    }

    method ExecSelect(s: Stmt, inProc: bool) returns (x: Exec)
      requires Valid() && Running() && s.Select? && StmtOk(s, inProc) && (inProc ==> frames != [])
      modifies this, Repr
      ensures fresh(Repr - old(Repr))
      ensures Did(x, Semantics.ExecSelect(env, old(Now()), s, inProc))
      decreases budget, MAX_CALL_DEPTH - |frames|, 1, s, 1
    {
      hide Linked, Holds, Semantics.Eval, SelectFrom, StateOk, EnvOk;
      var ok, sel := Eval(s.e);
      if !ok {
        return XError;
      }
      x := SelectCase(s, inProc, sel);
    }

    method SelectCase(s: Stmt, inProc: bool, sel: Value) returns (x: Exec)
      requires Valid() && Running() && s.Select? && StmtOk(s, inProc) && (inProc ==> frames != [])
      modifies this, Repr
      ensures fresh(Repr - old(Repr))
      ensures Did(x, SelectFrom(env, old(Now()), s, inProc, sel, 0))
      decreases budget, MAX_CALL_DEPTH - |frames|, 1, s, 0
    {
      hide Linked, Holds, Semantics.ClauseMatches, Semantics.ExecBlock, StateOk, EnvOk;
      ghost var start := Now();
      for i := 0 to |s.cases|
        invariant Valid() && Running() && fresh(Repr - old(Repr)) && budget <= old(budget) && frames == old(frames)
        invariant SelectFrom(env, start, s, inProc, sel, 0) == SelectFrom(env, Now(), s, inProc, sel, i)
      {
        var ok, m := ClauseMatches(s.cases[i], sel);
        if !ok {
          return XError;
        }
        if m {
          x := ExecBlock(s.cases[i].body, inProc);
          return;
        }
      }
      x := XOk;
    }

    /** One declaration of DIM, REDIM or LOCAL. */
    method Declare(d: Decl, redim: bool, local: bool) returns (ok: bool)
      requires Valid() && Running() && OptOk(d.size) && (local ==> frames != [])
      modifies this, Repr
      ensures fresh(Repr - old(Repr))
      ensures Has(ok, Semantics.Declare(env, old(Now()), d, redim, local))
      decreases budget, MAX_CALL_DEPTH - |frames|, 1, d, 3
    {
      hide Linked, Holds, Semantics.EvalInt, Semantics.Resize, Semantics.Declared, StateOk, EnvOk;
      var c, isLocal := Lookup(d.name);
      var inFrame := local || isLocal;
      if d.name in env.builtins || (local && isLocal) {
        Error();
        return false;
      }
      Declared(d.name, inFrame, if inFrame then isLocal else c.Some?);
      if d.size.Some? {
        var ub;
        ok, ub := EvalInt(d.size.value);
        if !ok {
          return;
        }
        ok := Resize(d.name, ub, redim, local, inFrame);
        return;
      }
      var now, _ := Lookup(d.name);
      if now.value.isArray {
        Error();
        return false;
      }
      ok := true;
    }

    /** The variable a declaration is about is made unless it exists. */
    method Declared(name: string, inFrame: bool, known: bool)
      requires Valid() && Running() && (inFrame ==> frames != [])
      requires known == if inFrame then name in Locals() else name in globals
      modifies this`globals, this`frames, this`Repr, Repr
      ensures fresh(Repr - old(Repr))
      ensures Valid() && Now() == Semantics.Declared(old(Now()), name, inFrame)
    {
      hide Linked, Holds, Semantics.Store;
      if !known {
        Store(inFrame, name, Cell(false, Zero(name), []));
      }
    }

    method Resize(name: string, ub: int, redim: bool, local: bool, inFrame: bool) returns (ok: bool)
      requires Valid() && Running() && Find(name).Some? && inFrame == IsLocal(name)
      modifies this, Repr
      ensures fresh(Repr - old(Repr))
      ensures Has(ok, Semantics.Resize(old(Now()), name, ub, redim, local, inFrame))
    {
      hide Linked, Holds, Semantics.Store;
      var found, _ := Lookup(name);
      var c := found.value;
      if ub < -1 || ub > 10000000 || (c.isArray && !redim && !local) {
        Error();
        return false;
      }
      Store(inFrame, name, Cell(true, IntV(0), Resized(name, if c.isArray then c.elems else [], ub + 1, redim)));
      ok := true;
    }

    method ExecDeclare(ds: seq<Decl>, redim: bool, local: bool) returns (x: Exec)
      requires Valid() && Running() && DeclsOk(ds) && (local ==> frames != [])
      modifies this, Repr
      ensures fresh(Repr - old(Repr))
      ensures Did(x, Semantics.ExecDeclare(env, old(Now()), ds, redim, local, 0))
      decreases budget, MAX_CALL_DEPTH - |frames|, 1, ds, 4
    {
      hide Linked, Holds, Semantics.Declare, StateOk, EnvOk;
      ghost var start := Now();
      for i := 0 to |ds|
        invariant Valid() && Running() && fresh(Repr - old(Repr)) && budget <= old(budget) && |frames| == |old(frames)|
        invariant Semantics.ExecDeclare(env, start, ds, redim, local, 0) == Semantics.ExecDeclare(env, Now(), ds, redim, local, i)
      {
        var ok := Declare(ds[i], redim, local);
        if !ok {
          return XError;
        }
      }
      x := XOk;
    }

    method ExecCall(name: string, args: seq<Expr>) returns (x: Exec)
      requires Valid() && Running() && ExprsOk(args)
      modifies this, Repr
      ensures fresh(Repr - old(Repr))
      ensures Did(x, Semantics.ExecCall(env, old(Now()), name, args))
      decreases budget, MAX_CALL_DEPTH - |frames|, 1, args, 4
    {
      hide Linked, Holds, Semantics.CallProc, Semantics.CallBuiltin, StateOk;
      var ok, v;
      if name in env.procs {
        ok, v := CallProc(env.procs[name], args);
        if !ok {
          return if ended then XEnd else XError;
        }
        return XOk;
      }
      if name in env.builtins {
        ok, v := CallBuiltin(name, args);
        return if ok then XOk else XError;
      }
      Error();
      x := XError;
    }

    method ExecReturn(e: Option<Expr>) returns (x: Exec)
      requires Valid() && Running() && OptOk(e)
      modifies this, Repr
      ensures fresh(Repr - old(Repr))
      ensures Did(x, Semantics.ExecReturn(env, old(Now()), e))
      decreases budget, MAX_CALL_DEPTH - |frames|, 1, e, 2
    {
      hide Linked, Holds, Semantics.Eval, StateOk, EnvOk;
      var pr := Current();
      if pr == None {
        Error();
        return XError;
      }
      if e.Some? {
        if !pr.value.isFunction {
          Error();
          return XError;
        }
        var ok, v := Eval(e.value);
        if !ok {
          return XError;
        }
        SetReturn(v);
      }
      x := XReturn;
    }

    /** The procedure that runs. */
    method Current() returns (pr: Option<Proc>)
      requires Linked()
      ensures pr == if frames == [] then None else Some(frames[|frames| - 1].proc)
    {
      pr := if stack == [] then None else Some(stack[|stack| - 1].proc);
    }

    method SetReturn(v: Value)
      requires Linked() && this !in Repr && frames != [] && ValueOk(v)
      modifies this`frames, Repr
      ensures Linked() && frames == Returning(old(frames), v)
    {
      hide Holds;
      stack[|stack| - 1].ret := Some(v);
      frames := Returning(frames, v);
    }

    /** END: from here on nothing more is executed, printed or stored. */
    method ExecEnd(e: Option<Expr>) returns (x: Exec)
      requires Valid() && Running() && OptOk(e)
      modifies this, Repr
      ensures fresh(Repr - old(Repr))
      ensures Did(x, Semantics.ExecEnd(env, old(Now()), e))
      decreases budget, MAX_CALL_DEPTH - |frames|, 1, e, 4
    {
      hide Linked, Holds, Semantics.EvalInt, EnvOk;
      var ok, code := true, 0;
      if e.Some? {
        ok, code := EvalInt(e.value);
        if !ok {
          return XError;
        }
      }
      ended := true;
      endCode := Int32(code);
      atEnd := Snapshot(steps, globals, out, endCode);
      x := XEnd;
    }

    method Tick()
      requires Valid() && Running()
      modifies this`steps
      ensures Valid() && Now() == old(Now()).(steps := old(steps) + 1)
    {
      hide Linked, EnvOk;
      steps := steps + 1;
    }

    method Jump(name: string)
      requires Valid() && Running()
      modifies this`gotoLabel
      ensures Valid() && Now() == old(Now()).(gotoLabel := name)
    {
      hide Linked, EnvOk;
      gotoLabel := name;
    }

    method ExecStmt(s: Stmt, inProc: bool) returns (x: Exec)
      requires Valid() && Running() && StmtOk(s, inProc) && (inProc ==> frames != [])
      modifies this, Repr
      ensures fresh(Repr - old(Repr))
      ensures Did(x, Semantics.ExecStmt(env, old(Now()), s, inProc))
      decreases budget, MAX_CALL_DEPTH - |frames|, 1, s, 3
    {
      hide Linked, Holds, Semantics.ExecAssign, Semantics.ExecPrint, Semantics.ExecIf, Semantics.ExecFor, Semantics.ExecWhile,
        Semantics.ExecDo, Semantics.ExecSelect, Semantics.ExecCall, Semantics.ExecReturn, Semantics.ExecEnd, Semantics.ExecDeclare,
        StateOk, EnvOk;
      Tick();
      match s
      case Assign(target, value) =>
        x := ExecAssign(target, value);
      case Print(args) =>
        x := ExecPrint(args);
      case If(_) =>
        x := ExecIf(s, inProc);
      case For(_, _, _, _, _) =>
        x := ExecFor(s, inProc);
      case While(_, _) =>
        x := ExecWhile(s, inProc);
      case Do(_, _, _) =>
        x := ExecDo(s, inProc);
      case Select(_, _) =>
        x := ExecSelect(s, inProc);
      case Exit(kind) =>
        x := XExit(kind);
      case Continue(kind) =>
        x := XContinue(kind);
      case Goto(name) =>
        Jump(name);
        x := XGoto;
      case CallStmt(name, args) =>
        x := ExecCall(name, args);
      case Return(e) =>
        x := ExecReturn(e);
      case End(e) =>
        x := ExecEnd(e);
      case Dim(ds, redim) =>
        x := ExecDeclare(ds, redim, false);
      case Local(ds) =>
        x := ExecDeclare(ds, false, true);
    }

    /** Executes a block; GOTO to one of its labels stays inside. */
    method ExecBlock(b: Block, inProc: bool) returns (x: Exec)
      requires Valid() && Running() && BlockOk(b, inProc) && (inProc ==> frames != [])
      modifies this, Repr
      ensures fresh(Repr - old(Repr))
      ensures Did(x, Semantics.ExecBlock(env, old(Now()), b, inProc, 0))
      decreases budget, MAX_CALL_DEPTH - |frames|, 1, b, 0
    {
      hide Linked, Holds, Semantics.ExecStmt, Polled, Semantics.Target, StateOk, EnvOk;
      ghost var start := Now();
      var i := 0;
      while i < |b.stmts|
        invariant 0 <= i <= |b.stmts| && Valid() && Running() && fresh(Repr - old(Repr)) && budget <= old(budget) && |frames| == |old(frames)|
        invariant Semantics.ExecBlock(env, start, b, inProc, 0) == Semantics.ExecBlock(env, Now(), b, inProc, i)
        decreases budget
      {
        var ok := Poll();
        if !ok {
          return XError;
        }
        x := ExecStmt(b.stmts[i], inProc);
        if x == XError && ended && !hasError {
          x := XEnd;
        }
        var target := if x == XGoto then Target(b.labels, gotoLabel) else None;
        if x == XOk {
          i := i + 1;
        } else if target.Some? {
          i := target.value;
        } else {
          return;
        }
      }
      x := XOk;
    }

    // ---- the whole program ----

    /** interp_run: executes the main block and tells the exit code: END's, or 0; after an error 1, and 130
        after Ctrl-C. After END the variables, the output and the number of executed statements are as they
        were at END. */
    method Run(main: Block) returns (rc: int)
      requires Valid() && Running() && frames == [] && BlockOk(main, false)
      modifies this, Repr
      ensures fresh(Repr - old(Repr))
      ensures frames == [] && callDepth == 0 && !hasError
      ensures ended ==> atEnd == Snapshot(steps, globals, out, rc)
      ensures var d := Semantics.ExecBlock(env, old(Now()), main, false, 0);
        rc == if d.s.ended then d.s.endCode else if d.x == XOk then 0 else if d.s.budget == 0 then 130 else 1
    {
      hide Linked, Holds, Semantics.ExecBlock;
      var x := ExecBlock(main, false);
      if x == XGoto || x.XExit? || x.XContinue? || x == XReturn {
        Error();
        x := XError;
      }
      if x == XError || (hasError && !ended) {
        var brk := budget == 0;
        hasError := false;
        stack, frames, callDepth := [], [], 0;
        return if brk then 130 else 1;
      }
      rc := if ended then endCode else 0;
    }
  }

  lemma NoneOk()
    ensures TableOk(map[])
  {
  }
}
