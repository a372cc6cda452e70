/** NESH BASIC expressions: tokens, trees, the grammar as a function, and a printer that writes
    parentheses only where the grammar needs them. */
module ExprSyntax {

  datatype Token =
    | Eof | Newline | Num(num: int) | Str(text: string) | Ident(name: string)
    | Plus | Minus | Star | Slash | Backslash | Caret | Eq | Ne | Lt | Gt | Le | Ge
    | LParen | RParen | Comma | Semi | Colon
    | And | Or | Xor | Not | Mod | Shl | Shr | Keyword(word: string)

  /** op of a Binary node is the token of the operator. */
  datatype Expr =
    | Number(n: int)
    | Text(s: string)
    | Var(name: string)
    | Call(name: string, args: seq<Expr>)
    | Neg(e: Expr)
    | Invert(e: Expr)
    | Binary(op: Token, a: Expr, b: Expr)

  datatype Parsed = Fail | Ok(e: Expr, rest: seq<Token>)

  datatype ParsedArgs = FailArgs | OkArgs(args: seq<Expr>, rest: seq<Token>)

  const MAX_EXPR_DEPTH: nat := 64

  // Precedence levels, loosest first; NOT, unary minus, '^' and primaries have levels of their own.
  const OR_LEVEL: nat := 0
  const AND_LEVEL: nat := 1
  const NOT_LEVEL: nat := 2
  const CMP_LEVEL: nat := 3
  const SHIFT_LEVEL: nat := 4
  const ADD_LEVEL: nat := 5
  const MUL_LEVEL: nat := 6
  const UNARY_LEVEL: nat := 7
  const POWER_LEVEL: nat := 8
  const PRIMARY_LEVEL: nat := 9

  /** The level of a binary operator; 10 for any other token. */
  function OpLevel(t: Token): nat {
    match t
    case Or | Xor => OR_LEVEL
    case And => AND_LEVEL
    case Eq | Ne | Lt | Gt | Le | Ge => CMP_LEVEL
    case Shl | Shr => SHIFT_LEVEL
    case Plus | Minus => ADD_LEVEL
    case Star | Slash | Backslash | Mod => MUL_LEVEL
    case Caret => POWER_LEVEL
    case _ => 10
  }

  function Head(ts: seq<Token>): Token {
    if ts == [] then Eof else ts[0]
  }

  function LowerChar(c: char): char {
    if 'A' <= c <= 'Z' then c - 'A' + 'a' else c
  }

  function Lower(s: string): string {
    seq(|s|, i requires 0 <= i < |s| => LowerChar(s[i]))
  }

  // ---- the grammar ----

  /** An expression whose operators have at least level l; d counts the nesting so far. */
  function ParseLevel(l: nat, ts: seq<Token>, d: nat): (r: Parsed)
    requires l <= PRIMARY_LEVEL
    ensures r.Ok? ==> |r.rest| < |ts|
    decreases |ts|, 10 - l, 1
  {
    if l == NOT_LEVEL then
      if Head(ts) == Not then
        if d + 1 > MAX_EXPR_DEPTH then Fail
        else
          match ParseLevel(NOT_LEVEL, ts[1..], d + 1)
          case Fail => Fail
          case Ok(e, rest) => Ok(Invert(e), rest)
      else ParseLevel(CMP_LEVEL, ts, d)
    else if l == UNARY_LEVEL then
      if Head(ts) == Minus || Head(ts) == Plus then
        if d + 1 > MAX_EXPR_DEPTH then Fail
        else
          match ParseLevel(UNARY_LEVEL, ts[1..], d + 1)
          case Fail => Fail
          case Ok(e, rest) => Ok(if Head(ts) == Plus then e else Neg(e), rest)
      else ParseLevel(POWER_LEVEL, ts, d)
    else if l == POWER_LEVEL then
      match ParseLevel(PRIMARY_LEVEL, ts, d)
      case Fail => Fail
      case Ok(a, rest) =>
        if Head(rest) == Caret then
          match ParseLevel(POWER_LEVEL, rest[1..], d)
          case Fail => Fail
          case Ok(b, rest2) => Ok(Binary(Caret, a, b), rest2)
        else Ok(a, rest)
    else if l == PRIMARY_LEVEL then ParsePrimary(ts, d)
    else
      match ParseLevel(l + 1, ts, d)
      case Fail => Fail
      case Ok(a, rest) => ParseLoop(l, a, rest, d)
  }

  /** The operators of level l that follow operand a, from left to right. */
  function ParseLoop(l: nat, a: Expr, ts: seq<Token>, d: nat): (r: Parsed)
    requires l <= MUL_LEVEL
    ensures r.Ok? ==> |r.rest| <= |ts|
    decreases |ts|, 0, 0
  {
    if OpLevel(Head(ts)) == l then
      match ParseLevel(l + 1, ts[1..], d)
      case Fail => Fail
      case Ok(b, rest) => ParseLoop(l, Binary(ts[0], a, b), rest, d)
    else Ok(a, ts)
  }

  function ParseExpr(ts: seq<Token>, d: nat): (r: Parsed)
    ensures r.Ok? ==> |r.rest| < |ts|
    decreases |ts|, 11, 0
  {
    if d + 1 > MAX_EXPR_DEPTH then Fail else ParseLevel(OR_LEVEL, ts, d + 1)
  }

  function ParsePrimary(ts: seq<Token>, d: nat): (r: Parsed)
    ensures r.Ok? ==> |r.rest| < |ts|
    decreases |ts|, 1, 0
  {
    match Head(ts)
    case Num(n) => Ok(Number(n), ts[1..])
    case Str(s) => Ok(Text(s), ts[1..])
    case Ident(name) =>
      if Head(ts[1..]) == LParen then
        (match ParseArgs(ts[2..], d)
         case FailArgs => Fail
         case OkArgs(args, rest) => Ok(Call(Lower(name), args), rest))
      else Ok(Var(Lower(name)), ts[1..])
    case LParen =>
      (match ParseExpr(ts[1..], d)
       case Fail => Fail
       case Ok(e, rest) => if Head(rest) == RParen then Ok(e, rest[1..]) else Fail)
    case _ => Fail
  }

  /** Arguments after '(' and the closing ')'. */
  function ParseArgs(ts: seq<Token>, d: nat): (r: ParsedArgs)
    ensures r.OkArgs? ==> |r.rest| < |ts|
    decreases |ts|, 12, 1
  {
    if Head(ts) == RParen then OkArgs([], ts[1..]) else ParseArgList(ts, d)
  }

  function ParseArgList(ts: seq<Token>, d: nat): (r: ParsedArgs)
    ensures r.OkArgs? ==> |r.rest| < |ts| && r.args != []
    decreases |ts|, 12, 0
  {
    match ParseExpr(ts, d)
    case Fail => FailArgs
    case Ok(e, rest) =>
      if Head(rest) == Comma then
        match ParseArgList(rest[1..], d)
        case FailArgs => FailArgs
        case OkArgs(args, rest2) => OkArgs([e] + args, rest2)
      else if Head(rest) == RParen then OkArgs([e], rest[1..])
      else FailArgs
  }

  // ---- the printer ----

  function ExprLevel(e: Expr): nat {
    match e
    case Binary(op, _, _) => OpLevel(op)
    case Invert(_) => NOT_LEVEL
    case Neg(_) => UNARY_LEVEL
    case _ => PRIMARY_LEVEL
  }

  /** Trees the parser can produce: names in lower case, operators that are operators. */
  predicate WellFormed(e: Expr) {
    match e
    case Var(name) => Lower(name) == name
    case Call(name, args) => Lower(name) == name && forall i :: 0 <= i < |args| ==> WellFormed(args[i])
    case Neg(x) => WellFormed(x)
    case Invert(x) => WellFormed(x)
    case Binary(op, a, b) => OpLevel(op) < 10 && WellFormed(a) && WellFormed(b)
    case _ => true
  }

  /** e as an operand at level l: in parentheses if its own operator is looser. */
  function Print(e: Expr, l: nat): (ts: seq<Token>)
    ensures ts != []
    decreases e, 1
  {
    if ExprLevel(e) >= l then PrintBare(e) else [LParen] + PrintBare(e) + [RParen]
  }

  function PrintBare(e: Expr): (ts: seq<Token>)
    ensures ts != []
    decreases e, 0
  {
    match e
    case Number(n) => [Num(n)]
    case Text(s) => [Str(s)]
    case Var(name) => [Ident(name)]
    case Call(name, args) => [Ident(name), LParen] + PrintArgs(args)
    case Neg(x) => [Minus] + Print(x, UNARY_LEVEL)
    case Invert(x) => [Not] + Print(x, NOT_LEVEL)
    case Binary(op, a, b) => Print(a, LeftLevel(op)) + ([op] + Print(b, RightLevel(op)))
  }

  /** '^' groups to the right, all the others to the left. */
  function LeftLevel(op: Token): nat {
    if op == Caret then PRIMARY_LEVEL else OpLevel(op)
  }

  function RightLevel(op: Token): nat {
    if op == Caret then POWER_LEVEL else OpLevel(op) + 1
  }

  /** The arguments and the closing ')'. */
  function PrintArgs(args: seq<Expr>): (ts: seq<Token>)
    ensures ts != []
    decreases args
  {
    if args == [] then [RParen]
    else if |args| == 1 then Print(args[0], OR_LEVEL) + [RParen]
    else Print(args[0], OR_LEVEL) + ([Comma] + PrintArgs(args[1..]))
  }

  function Max(a: nat, b: nat): nat {
    if a < b then b else a
  }

  /** How many levels of nesting the printed form of e has at level l. */
  function Nesting(e: Expr, l: nat): nat
    decreases e, 1
  {
    (if ExprLevel(e) >= l then 0 else 1) + NestingBare(e)
  }

  function NestingBare(e: Expr): nat
    decreases e, 0
  {
    match e
    case Call(_, args) => NestingArgs(args)
    case Neg(x) => 1 + Nesting(x, UNARY_LEVEL)
    case Invert(x) => 1 + Nesting(x, NOT_LEVEL)
    case Binary(op, a, b) => Max(Nesting(a, LeftLevel(op)), Nesting(b, RightLevel(op)))
    case _ => 0
  }

  function NestingArgs(args: seq<Expr>): nat
    decreases args
  {
    if args == [] then 0 else Max(1 + Nesting(args[0], OR_LEVEL), NestingArgs(args[1..]))
  }
}
