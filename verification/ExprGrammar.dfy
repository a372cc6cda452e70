/** The grammar of NESH BASIC expressions, rule by rule, with the tokens of each rule written out. A tree
    keeps everything of its text, also parentheses and plus signs that change nothing. */
module ExprGrammar {
  import opened ExprSyntax

  datatype Tree =
    | Numeral(n: int)
    | Quoted(s: string)
    | Name(name: string)
    | Apply(name: string, args: seq<Tree>)
    | Paren(x: Tree)
    | Negative(x: Tree)
    | Positive(x: Tree)
    | Negation(x: Tree)
    | Op(a: Tree, op: Token, b: Tree)

  // ---- the rules, loosest first ----

  predicate IsOr(t: Tree)
    decreases t, 9
  {
    (t.Op? && t.op in {Or, Xor} && IsOr(t.a) && IsAnd(t.b)) || IsAnd(t)
  }

  predicate IsAnd(t: Tree)
    decreases t, 8
  {
    (t.Op? && t.op == And && IsAnd(t.a) && IsNot(t.b)) || IsNot(t)
  }

  predicate IsNot(t: Tree)
    decreases t, 7
  {
    (t.Negation? && IsNot(t.x)) || IsComparison(t)
  }

  predicate IsComparison(t: Tree)
    decreases t, 6
  {
    (t.Op? && t.op in {Eq, Ne, Lt, Gt, Le, Ge} && IsComparison(t.a) && IsShift(t.b)) || IsShift(t)
  }

  predicate IsShift(t: Tree)
    decreases t, 5
  {
    (t.Op? && t.op in {Shl, Shr} && IsShift(t.a) && IsSum(t.b)) || IsSum(t)
  }

  predicate IsSum(t: Tree)
    decreases t, 4
  {
    (t.Op? && t.op in {Plus, Minus} && IsSum(t.a) && IsProduct(t.b)) || IsProduct(t)
  }

  predicate IsProduct(t: Tree)
    decreases t, 3
  {
    (t.Op? && t.op in {Star, Slash, Backslash, Mod} && IsProduct(t.a) && IsUnary(t.b)) || IsUnary(t)
  }

  predicate IsUnary(t: Tree)
    decreases t, 2
  {
    ((t.Negative? || t.Positive?) && IsUnary(t.x)) || IsPower(t)
  }

  predicate IsPower(t: Tree)
    decreases t, 1
  {
    (t.Op? && t.op == Caret && IsPrimary(t.a) && IsPower(t.b)) || IsPrimary(t)
  }

  predicate IsPrimary(t: Tree)
    decreases t, 0
  {
    match t
    case Numeral(_) => true
    case Quoted(_) => true
    case Name(_) => true
    case Apply(_, args) => forall i :: 0 <= i < |args| ==> IsOr(args[i])
    case Paren(x) => IsOr(x)
    case _ => false
  }

  // ---- text and meaning ----

  function Words(t: Tree): (ts: seq<Token>)
    ensures ts != []
    decreases t
  {
    match t
    case Numeral(n) => [Num(n)]
    case Quoted(s) => [Str(s)]
    case Name(name) => [Ident(name)]
    case Apply(name, args) => [Ident(name), LParen] + ArgWords(args)
    case Paren(x) => [LParen] + (Words(x) + [RParen])
    case Negative(x) => [Minus] + Words(x)
    case Positive(x) => [Plus] + Words(x)
    case Negation(x) => [Not] + Words(x)
    case Op(a, op, b) => Words(a) + ([op] + Words(b))
  }

  /** The arguments, with commas between them, and the closing parenthesis. */
  function ArgWords(args: seq<Tree>): (ts: seq<Token>)
    ensures ts != []
    decreases args
  {
    if args == [] then [RParen]
    else if |args| == 1 then Words(args[0]) + [RParen]
    else Words(args[0]) + ([Comma] + ArgWords(args[1..]))
  }

  /** A name without regard to the case of its letters. */
  function SmallLetters(s: string): (r: string)
    ensures |r| == |s| && forall i :: 0 <= i < |s| ==> r[i] == if 'A' <= s[i] <= 'Z' then s[i] + 32 as char else s[i]
  {
    seq(|s|, i requires 0 <= i < |s| => if 'A' <= s[i] <= 'Z' then s[i] + 32 as char else s[i])
  }

  /** Parentheses and plus signs leave no trace. */
  function Meaning(t: Tree): Expr
    decreases t
  {
    match t
    case Numeral(n) => Number(n)
    case Quoted(s) => Text(s)
    case Name(name) => Var(SmallLetters(name))
    case Apply(name, args) => Call(SmallLetters(name), Meanings(args))
    case Paren(x) => Meaning(x)
    case Negative(x) => Neg(Meaning(x))
    case Positive(x) => Meaning(x)
    case Negation(x) => Invert(Meaning(x))
    case Op(a, op, b) => Binary(op, Meaning(a), Meaning(b))
  }

  function Meanings(args: seq<Tree>): (es: seq<Expr>)
    ensures |es| == |args|
    decreases args
  {
    if args == [] then [] else [Meaning(args[0])] + Meanings(args[1..])
  }

  /** How deep parentheses, arguments and signs are nested. */
  function Depth(t: Tree): nat
    decreases t
  {
    match t
    case Apply(_, args) => ArgDepth(args)
    case Paren(x) => 1 + Depth(x)
    case Negative(x) => 1 + Depth(x)
    case Positive(x) => 1 + Depth(x)
    case Negation(x) => 1 + Depth(x)
    case Op(a, _, b) => if Depth(a) < Depth(b) then Depth(b) else Depth(a)
    case _ => 0
  }

  function ArgDepth(args: seq<Tree>): nat
    decreases args
  {
    if args == [] then 0
    else
      var d, more := 1 + Depth(args[0]), ArgDepth(args[1..]);
      if d < more then more else d
  }

  /** The tokens that can continue an expression. */
  const CONTINUE: set<Token> := {Or, Xor, And, Eq, Ne, Lt, Gt, Le, Ge, Shl, Shr, Plus, Minus, Star, Slash, Backslash, Mod, Caret, LParen}

  predicate Ends(rest: seq<Token>) {
    rest != [] ==> rest[0] !in CONTINUE
  }
}
