/** Laws about single constructs of NESH BASIC: what an assignment changes, what a name means. */
module BasicLaws {
  import opened ExprSyntax
  import opened BasicValues
  import opened BasicSyntax
  import opened Semantics
  import opened Optional

  /** Storing where a name was found changes what that name means, and no other. */
  lemma StoreFind(s: State, name: string, c: Cell)
    requires StateOk(s) && Running(s) && CellOk(name, c)
    requires var t := if IsLocal(s, name) then Locals(s) else s.globals; name in t && t[name].isArray ==> c.isArray
    ensures var t := Store(s, IsLocal(s, name), name, c);
      Find(t, name) == Some(c) && IsLocal(t, name) == IsLocal(s, name) && forall m :: m != name ==> Find(t, m) == Find(s, m)
  {
    hide StateOk, CellOk;
    var t := Store(s, IsLocal(s, name), name, c);
    if IsLocal(s, name) {
      assert Locals(t) == Locals(s)[name := c];
    }
  }

  lemma GotFind(s: State, name: string)
    requires StateOk(s) && Running(s)
    ensures forall m :: m != name ==> Find(Got(s, name), m) == Find(s, m)
  {
    hide Store, StateOk;
    if Find(s, name) == None {
      StoreFind(s, name, Cell(false, Zero(name), []));
    }
  }

  /** A variable can be given a value when the type is right and nothing else has the name. */
  predicate Assignable(env: Env, s: State, name: string, v: Value)
    requires StateOk(s)
  {
    && ValType(v) == NameType(name) && name !in env.builtins && name !in env.procs
    && (Find(s, name).Some? ==> !Find(s, name).value.isArray)
  }

  /** A variable read after an assignment has the assigned value; no other name, local or global,
      means anything else than before. */
  lemma AssignThenRead(env: Env, s: State, name: string, v: Value)
    requires EnvOk(env) && StateOk(s) && Running(s) && ValueOk(v)
    ensures var t := AssignTo(env, s, Var(name), v);
      && (Running(t) <==> Assignable(env, s, name, v))
      && (Running(t) ==> Eval(env, t, Var(name)) == Out(t, Some(v)) && IsLocal(t, name) == IsLocal(s, name))
      && (Running(t) ==> forall m :: m != name ==> Find(t, m) == Find(s, m))
  {
    hide Store, StateOk, Got, Invoke, Apply;
    if Assignable(env, s, name, v) {
      var g := Got(s, name);
      GotFind(s, name);
      StoreFind(g, name, Find(g, name).value.(v := v));
    }
  }

  /** An assignment to an element changes that element, at the index found first, and nothing else. */
  lemma AssignElement(env: Env, s: State, name: string, e: Expr, v: Value)
    requires EnvOk(env) && StateOk(s) && Running(s) && ExprOk(e) && ValueOk(v) && ValType(v) == NameType(name)
    requires Find(s, name).Some? && Find(s, name).value.isArray
    ensures var p := Index(env, s, name, e);
      var t := AssignTo(env, s, Call(name, [e]), v);
      && (p.v.None? ==> t == p.s)
      && (p.v.Some? ==>
        && Running(t) && Find(t, name).Some? && Find(t, name).value.isArray
        && Find(t, name).value.elems == Find(p.s, name).value.elems[p.v.value.index := v]
        && forall m :: m != name ==> Find(t, m) == Find(p.s, m))
  {
    hide Index, Store, StateOk, Find, IsLocal;
    var p := Index(env, s, name, e);
    if p.v.Some? {
      var c := Find(p.s, name).value;
      StoreElement(p.s, name, p.v.value.index, v);
    }
  }

  lemma StoreElement(s: State, name: string, i: nat, v: Value)
    requires StateOk(s) && Running(s) && ValueOk(v) && ValType(v) == NameType(name)
    requires Find(s, name).Some? && Find(s, name).value.isArray && i < |Find(s, name).value.elems|
    ensures var c := Find(s, name).value;
      var d := c.(elems := c.elems[i := v]);
      && CellOk(name, d) && (IsLocal(s, name) ==> s.frames != [])
      && (var t := Store(s, IsLocal(s, name), name, d);
        Find(t, name) == Some(d) && forall m :: m != name ==> Find(t, m) == Find(s, m))
  {
    hide Store, StateOk;
    var c := Find(s, name).value;
    StoreFind(s, name, c.(elems := c.elems[i := v]));
  }

  /** A variable hides every function and procedure of its name. */
  lemma VariableHides(env: Env, other: Env, s: State, name: string)
    requires EnvOk(env) && EnvOk(other) && StateOk(s) && Running(s) && Find(s, name).Some?
    ensures Eval(env, s, Var(name)) == Eval(other, s, Var(name))
    ensures !Find(s, name).value.isArray ==> Eval(env, s, Var(name)) == Out(s, Some(Find(s, name).value.v))
  {
    hide Invoke, Apply;
  }

  /** A local variable hides the global one. */
  lemma LocalHides(env: Env, s: State, name: string, globals: Table)
    requires EnvOk(env) && StateOk(s) && Running(s) && IsLocal(s, name) && TableOk(globals)
    ensures StateOk(s.(globals := globals)) && Eval(env, s.(globals := globals), Var(name)).v == Eval(env, s, Var(name)).v
  {
    hide Invoke, Apply;
  }

  /** name and name() are the same call, unless both a built-in and a procedure have the name: a bare
      name prefers the built-in, a call the procedure. */
  lemma BareCall(env: Env, s: State, name: string)
    requires EnvOk(env) && StateOk(s) && Running(s) && Find(s, name).None?
    requires if name in env.procs then env.procs[name].isFunction && name !in env.builtins else name in env.builtins
    ensures Eval(env, s, Var(name)) == Eval(env, s, Call(name, []))
  {
    hide Invoke, Apply;
    BareCalls(env, s, name);
    assert Eval(env, s, Var(name)) == EvalVar(env, s, name);
    assert Eval(env, s, Call(name, [])) == EvalCall(env, s, name, []);
  }

  lemma BareCalls(env: Env, s: State, name: string)
    requires EnvOk(env) && StateOk(s) && Running(s) && Find(s, name).None?
    requires if name in env.procs then env.procs[name].isFunction && name !in env.builtins else name in env.builtins
    ensures EvalVar(env, s, name) == EvalCall(env, s, name, [])
  {
    hide Invoke, Apply;
    if name in env.procs {
      var pr := env.procs[name];
      assert pr.name == name;
      if pr.params == [] {
        assert Bind(env, s, pr, [], 0, map[]) == Out(s, Some(map[]));
      }
    } else {
      assert Arguments(env, s, env.builtins[name].types, [], 0, []) == Out(s, Some([]));
    }
  }
}
