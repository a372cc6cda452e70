/** NESH BASIC statements and procedures, and what the statement parser guarantees about them. */
module BasicSyntax {
  import opened ExprSyntax
  import opened BasicValues
  import opened Optional

  datatype LoopKind = ForLoop | WhileLoop | DoLoop

  datatype CaseItem = One(e: Expr) | Range(lo: Expr, hi: Expr) | Is(op: Token, e: Expr)

  /** cond is None for ELSE. */
  datatype IfClause = IfClause(cond: Option<Expr>, body: Block)

  datatype CaseClause = CaseClause(items: seq<CaseItem>, isElse: bool, body: Block)

  /** A DO loop condition: WHILE, or UNTIL when until is set. */
  datatype DoCond = DoCond(e: Expr, until: bool)

  /** name, or name(size). */
  datatype Decl = Decl(name: string, size: Option<Expr>)

  datatype Stmt =
    | Assign(target: Expr, value: Expr)
    | Print(args: seq<Expr>)
    | If(clauses: seq<IfClause>)
    | For(name: string, start: Expr, end: Expr, step: Option<Expr>, body: Block)
    | While(cond: Expr, body: Block)
    | Do(pre: Option<DoCond>, body: Block, post: Option<DoCond>)
    | Select(e: Expr, cases: seq<CaseClause>)
    | Exit(kind: LoopKind)
    | Continue(kind: LoopKind)
    | Goto(name: string)
    | CallStmt(name: string, args: seq<Expr>)
    | Return(result: Option<Expr>)
    | End(code: Option<Expr>)
    | Dim(decls: seq<Decl>, redim: bool)
    | Local(decls: seq<Decl>)

  datatype Label = Label(name: string, index: nat)

  datatype Block = Block(stmts: seq<Stmt>, labels: seq<Label>)

  datatype Proc = Proc(name: string, isFunction: bool, params: seq<string>, body: Block)

  // ---- well-formed programs ----

  predicate ExprOk(e: Expr) {
    match e
    case Number(n) => Int64(n)
    case Call(_, args) => forall i :: 0 <= i < |args| ==> ExprOk(args[i])
    case Neg(x) => ExprOk(x)
    case Invert(x) => ExprOk(x)
    case Binary(_, a, b) => ExprOk(a) && ExprOk(b)
    case _ => true
  }

  predicate ExprsOk(es: seq<Expr>) {
    forall i :: 0 <= i < |es| ==> ExprOk(es[i])
  }

  predicate OptOk(e: Option<Expr>) {
    e.Some? ==> ExprOk(e.value)
  }

  predicate ItemOk(it: CaseItem) {
    match it
    case One(e) => ExprOk(e)
    case Range(lo, hi) => ExprOk(lo) && ExprOk(hi)
    case Is(_, e) => ExprOk(e)
  }

  predicate CondOk(c: Option<DoCond>) {
    c.Some? ==> ExprOk(c.value.e)
  }

  predicate DeclsOk(ds: seq<Decl>) {
    forall i :: 0 <= i < |ds| ==> OptOk(ds[i].size)
  }

  /** An assignment goes to a variable or to an array element with one index. */
  predicate TargetOk(t: Expr) {
    ExprOk(t) && (t.Var? || (t.Call? && |t.args| == 1))
  }

  /** LOCAL occurs only in procedures, and FOR variables are numeric. */
  predicate StmtOk(s: Stmt, inProc: bool)
    decreases s
  {
    match s
    case Assign(t, v) => TargetOk(t) && ExprOk(v)
    case Print(args) => ExprsOk(args)
    case If(cs) => forall i :: 0 <= i < |cs| ==> OptOk(cs[i].cond) && BlockOk(cs[i].body, inProc)
    case For(name, a, b, c, body) =>
      NameType(name) == IntT && ExprOk(a) && ExprOk(b) && OptOk(c) && BlockOk(body, inProc)
    case While(c, body) => ExprOk(c) && BlockOk(body, inProc)
    case Do(pre, body, post) => CondOk(pre) && CondOk(post) && BlockOk(body, inProc)
    case Select(e, cs) =>
      ExprOk(e) && forall i :: 0 <= i < |cs| ==>
        BlockOk(cs[i].body, inProc) && forall j :: 0 <= j < |cs[i].items| ==> ItemOk(cs[i].items[j])
    case CallStmt(_, args) => ExprsOk(args)
    case Return(e) => OptOk(e)
    case End(e) => OptOk(e)
    case Dim(ds, _) => DeclsOk(ds)
    case Local(ds) => inProc && DeclsOk(ds)
    case _ => true
  }

  predicate BlockOk(b: Block, inProc: bool)
    decreases b
  {
    && (forall i :: 0 <= i < |b.stmts| ==> StmtOk(b.stmts[i], inProc))
    && (forall i :: 0 <= i < |b.labels| ==> b.labels[i].index <= |b.stmts|)
  }

  predicate ProcOk(p: Proc) {
    BlockOk(p.body, true)
  }
}
