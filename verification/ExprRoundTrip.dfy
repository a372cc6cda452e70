/** The parser inverts the printer, exactly up to the nesting limit; and parse, print, parse is
    stable on every text that parses. */
module ExprRoundTrip {
  import opened ExprSyntax

  /** Token t cannot continue an expression whose operators have at least level l. */
  predicate Stops(t: Token, l: nat) {
    t != LParen && (OpLevel(t) < l || OpLevel(t) == 10)
  }

  /** Only the level of '^' looks at operators of its own level before it returns. */
  function StopLevel(l: nat): nat {
    if l == POWER_LEVEL then l else l + 1
  }

  predicate HasLoop(l: nat) {
    l <= MUL_LEVEL && l != NOT_LEVEL
  }

  /** What parsing the printed form of e at level l yields when ts follows. */
  function Expected(e: Expr, l: nat, ts: seq<Token>, d: nat): Parsed
    requires l <= PRIMARY_LEVEL
  {
    if d + Nesting(e, l) > MAX_EXPR_DEPTH then Fail
    else if HasLoop(l) then ParseLoop(l, e, ts, d)
    else Ok(e, ts)
  }

  lemma ExpectedTight(e: Expr, l: nat, ts: seq<Token>, d: nat)
    requires l <= PRIMARY_LEVEL && Stops(Head(ts), l)
    ensures Expected(e, l, ts, d) == if d + Nesting(e, l) > MAX_EXPR_DEPTH then Fail else Ok(e, ts)
  {
  }

  lemma HeadOfConcat(a: seq<Token>, b: seq<Token>)
    requires a != []
    ensures Head(a + b) == a[0] && (a + b)[1..] == a[1..] + b
  {
  }

  /** The first token of a printed operand. */
  lemma {:induction false} FirstToken(e: Expr, l: nat)
    requires WellFormed(e)
    ensures Print(e, l)[0] !in {RParen, Comma, Eof}
    ensures l > NOT_LEVEL ==> Print(e, l)[0] != Not
    ensures l > UNARY_LEVEL ==> Print(e, l)[0] != Minus && Print(e, l)[0] != Plus
    decreases e
  {
    if ExprLevel(e) >= l && e.Binary? {
      FirstToken(e.a, LeftLevel(e.op));
      HeadOfConcat(Print(e.a, LeftLevel(e.op)), [e.op] + Print(e.b, RightLevel(e.op)));
    }
  }

  // ---- one level of the grammar ----

  lemma LoopLevel(l: nat, ts: seq<Token>, d: nat)
    requires HasLoop(l)
    ensures ParseLevel(l, ts, d) ==
      match ParseLevel(l + 1, ts, d)
      case Fail => Fail
      case Ok(a, rest) => ParseLoop(l, a, rest, d)
  {
  }

  lemma PlainLevel(l: nat, ts: seq<Token>, d: nat)
    requires (l == NOT_LEVEL && Head(ts) != Not) || (l == UNARY_LEVEL && Head(ts) !in {Minus, Plus})
    ensures ParseLevel(l, ts, d) == ParseLevel(l + 1, ts, d)
  {
  }

  lemma PrefixLevel(l: nat, ts: seq<Token>, d: nat)
    requires (l == NOT_LEVEL && Head(ts) == Not) || (l == UNARY_LEVEL && Head(ts) == Minus)
    ensures ParseLevel(l, ts, d) ==
      if d + 1 > MAX_EXPR_DEPTH then Fail
      else
        match ParseLevel(l, ts[1..], d + 1)
        case Fail => Fail
        case Ok(e, rest) => Ok(if l == NOT_LEVEL then Invert(e) else Neg(e), rest)
  {
  }

  lemma PowerLevel(ts: seq<Token>, d: nat)
    ensures ParseLevel(POWER_LEVEL, ts, d) ==
      match ParsePrimary(ts, d)
      case Fail => Fail
      case Ok(a, rest) =>
        if Head(rest) == Caret then
          match ParseLevel(POWER_LEVEL, rest[1..], d)
          case Fail => Fail
          case Ok(b, rest2) => Ok(Binary(Caret, a, b), rest2)
        else Ok(a, rest)
  {
  }

  lemma SamePrint(e: Expr, l: nat)
    requires ExprLevel(e) != l
    ensures Print(e, l) == Print(e, l + 1) && Nesting(e, l) == Nesting(e, l + 1)
  {
  }

  lemma PrimaryLevel(ts: seq<Token>, d: nat)
    ensures ParseLevel(PRIMARY_LEVEL, ts, d) == ParsePrimary(ts, d)
  {
  }

  /** What level l makes of an operand that the next level parsed, when no prefix operator of level l leads. */
  lemma OneUp(e: Expr, l: nat, all: seq<Token>, ts: seq<Token>, d: nat, ok: bool)
    requires l < PRIMARY_LEVEL && Stops(Head(ts), StopLevel(l))
    requires ParseLevel(l + 1, all, d) == if ok then Ok(e, ts) else Fail
    requires (l == NOT_LEVEL ==> Head(all) != Not) && (l == UNARY_LEVEL ==> Head(all) !in {Minus, Plus})
    ensures ParseLevel(l, all, d) == if !ok then Fail else if HasLoop(l) then ParseLoop(l, e, ts, d) else Ok(e, ts)
  {
    hide ParseLevel, ParseLoop, ParsePrimary;
    if HasLoop(l) {
      LoopLevel(l, all, d);
    } else if l == POWER_LEVEL {
      PrimaryLevel(all, d);
      PowerLevel(all, d);
    } else {
      PlainLevel(l, all, d);
    }
  }

  /** An operand that is not of level l is parsed by the next level. */
  lemma OtherLevel(e: Expr, l: nat, ts: seq<Token>, d: nat)
    requires d <= MAX_EXPR_DEPTH
    requires WellFormed(e) && l < PRIMARY_LEVEL && ExprLevel(e) != l && Stops(Head(ts), StopLevel(l))
    requires ParseLevel(l + 1, Print(e, l + 1) + ts, d) == Expected(e, l + 1, ts, d)
    ensures ParseLevel(l, Print(e, l) + ts, d) == Expected(e, l, ts, d)
  {
    hide Print, Nesting, ParseLevel, WellFormed, ParseLoop, ExprLevel;
    SamePrint(e, l);
    FirstToken(e, l + 1);
    HeadOfConcat(Print(e, l), ts);
    if l < POWER_LEVEL {
      ExpectedTight(e, l + 1, ts, d);
    }
    OneUp(e, l, Print(e, l) + ts, ts, d, d + Nesting(e, l) <= MAX_EXPR_DEPTH);
  }

  lemma PrintPrefix(e: Expr)
    requires e.Neg? || e.Invert?
    ensures Print(e, ExprLevel(e)) == [if e.Neg? then Minus else Not] + Print(e.e, ExprLevel(e))
    ensures Nesting(e, ExprLevel(e)) == 1 + Nesting(e.e, ExprLevel(e))
  {
  }

  lemma PrintBinary(e: Expr)
    requires e.Binary?
    ensures Print(e, ExprLevel(e)) == Print(e.a, LeftLevel(e.op)) + ([e.op] + Print(e.b, RightLevel(e.op)))
    ensures Nesting(e, ExprLevel(e)) == Max(Nesting(e.a, LeftLevel(e.op)), Nesting(e.b, RightLevel(e.op)))
  {
  }

  lemma Assoc(a: seq<Token>, b: seq<Token>, c: seq<Token>)
    ensures (a + b) + c == a + (b + c)
  {
  }

  // ---- the round trip ----

  /** Parsing the printed form of e at level l, followed by ts, gives e back. */
  lemma {:induction false} LevelRoundTrip(e: Expr, l: nat, ts: seq<Token>, d: nat)
    requires d <= MAX_EXPR_DEPTH
    requires WellFormed(e) && l <= PRIMARY_LEVEL && Stops(Head(ts), StopLevel(l))
    ensures ParseLevel(l, Print(e, l) + ts, d) == Expected(e, l, ts, d)
    decreases e, if ExprLevel(e) < l then 2 else 1, 10 - l
  {
    if l < PRIMARY_LEVEL && ExprLevel(e) != l {
      LevelRoundTrip(e, l + 1, ts, d);
      OtherLevel(e, l, ts, d);
    } else if ExprLevel(e) < l {
      ParenRoundTrip(e, ts, d);
    } else if e.Binary? {
      BinaryRoundTrip(e, ts, d);
    } else if e.Neg? || e.Invert? {
      PrefixRoundTrip(e, ts, d);
    } else {
      PrimaryRoundTrip(e, ts, d);
    }
  }

  lemma {:induction false} ParenRoundTrip(e: Expr, ts: seq<Token>, d: nat)
    requires d <= MAX_EXPR_DEPTH
    requires WellFormed(e) && ExprLevel(e) < PRIMARY_LEVEL
    ensures ParseLevel(PRIMARY_LEVEL, Print(e, PRIMARY_LEVEL) + ts, d) == Expected(e, PRIMARY_LEVEL, ts, d)
    decreases e, 2, 0
  {
    hide PrintBare, NestingBare, ParseLevel, WellFormed, ParseLoop;
    var inner, all := [RParen] + ts, Print(e, PRIMARY_LEVEL) + ts;
    assert all == [LParen] + (PrintBare(e) + inner);
    assert all[1..] == PrintBare(e) + inner;
    PrimaryLevel(all, d);
    if d + 1 <= MAX_EXPR_DEPTH {
      LevelRoundTrip(e, OR_LEVEL, inner, d + 1);
      ExpectedTight(e, OR_LEVEL, inner, d + 1);
    }
    assert inner[1..] == ts;
  }

  lemma {:induction false} PrefixRoundTrip(e: Expr, ts: seq<Token>, d: nat)
    requires d <= MAX_EXPR_DEPTH
    requires WellFormed(e) && (e.Neg? || e.Invert?)
    requires Stops(Head(ts), ExprLevel(e) + 1)
    ensures ParseLevel(ExprLevel(e), Print(e, ExprLevel(e)) + ts, d) == Expected(e, ExprLevel(e), ts, d)
    decreases e, 1, 0
  {
    hide ParseLevel, ParseLoop, Print, Nesting;
    var l, x, t := ExprLevel(e), e.e, if e.Neg? then Minus else Not;
    var all := Print(e, l) + ts;
    PrintPrefix(e);
    Assoc([t], Print(x, l), ts);
    HeadOfConcat([t], Print(x, l) + ts);
    assert all[1..] == Print(x, l) + ts;
    PrefixLevel(l, all, d);
    if d + 1 <= MAX_EXPR_DEPTH {
      LevelRoundTrip(x, l, ts, d + 1);
    }
  }

  lemma {:induction false} BinaryRoundTrip(e: Expr, ts: seq<Token>, d: nat)
    requires d <= MAX_EXPR_DEPTH
    requires WellFormed(e) && e.Binary? && Stops(Head(ts), StopLevel(ExprLevel(e)))
    ensures ParseLevel(ExprLevel(e), Print(e, ExprLevel(e)) + ts, d) == Expected(e, ExprLevel(e), ts, d)
    decreases e, 1, 0
  {
    hide ParseLevel, ParsePrimary, Print, Nesting;
    var l, op := ExprLevel(e), e.op;
    var right := Print(e.b, RightLevel(op)) + ts;
    var all := Print(e, l) + ts;
    PrintBinary(e);
    Assoc(Print(e.a, LeftLevel(op)), [op] + Print(e.b, RightLevel(op)), ts);
    Assoc([op], Print(e.b, RightLevel(op)), ts);
    HeadOfConcat([op], right);
    assert ([op] + right)[1..] == right;
    LevelRoundTrip(e.a, LeftLevel(op), [op] + right, d);
    LevelRoundTrip(e.b, RightLevel(op), ts, d);
    if op == Caret {
      PrimaryLevel(all, d);
      PowerLevel(all, d);
    } else {
      ExpectedTight(e.b, l + 1, ts, d);
    }
  }

  lemma {:induction false} PrimaryRoundTrip(e: Expr, ts: seq<Token>, d: nat)
    requires d <= MAX_EXPR_DEPTH
    requires WellFormed(e) && ExprLevel(e) == PRIMARY_LEVEL && Head(ts) != LParen
    ensures ParseLevel(PRIMARY_LEVEL, Print(e, PRIMARY_LEVEL) + ts, d) == Expected(e, PRIMARY_LEVEL, ts, d)
    decreases e, 1, 0
  {
    hide ParseLevel, ParseArgs;
    var all := PrintBare(e) + ts;
    assert Print(e, PRIMARY_LEVEL) == PrintBare(e) && Nesting(e, PRIMARY_LEVEL) == NestingBare(e);
    PrimaryLevel(all, d);
    if e.Call? {
      CallTokens(e.name, PrintArgs(e.args), ts);
      ArgsRoundTrip(e.args, ts, d);
      assert Head(all) == Ident(e.name) && Head(all[1..]) == LParen;
      assert ParsePrimary(all, d) == if d + NestingArgs(e.args) > MAX_EXPR_DEPTH then Fail else Ok(e, ts);
    } else {
      assert all[1..] == ts;
      assert ParsePrimary(all, d) == Ok(e, ts);
      assert NestingBare(e) == 0;
    }
  }

  lemma CallTokens(name: string, args: seq<Token>, ts: seq<Token>)
    ensures var all := [Ident(name), LParen] + args + ts;
      Head(all) == Ident(name) && Head(all[1..]) == LParen && all[2..] == args + ts
  {
  }

  lemma {:induction false} ArgsRoundTrip(args: seq<Expr>, ts: seq<Token>, d: nat)
    requires d <= MAX_EXPR_DEPTH
    requires forall i :: 0 <= i < |args| ==> WellFormed(args[i])
    ensures ParseArgs(PrintArgs(args) + ts, d) ==
      if d + NestingArgs(args) > MAX_EXPR_DEPTH then FailArgs else OkArgs(args, ts)
    decreases args, 3, 0
  {
    if args == [] {
      assert ([RParen] + ts)[1..] == ts;
    } else {
      ArgListRoundTrip(args, ts, d);
      FirstToken(args[0], OR_LEVEL);
      HeadOfConcat(PrintArgs(args), ts);
    }
  }

  lemma {:induction false} ArgListRoundTrip(args: seq<Expr>, ts: seq<Token>, d: nat)
    requires d <= MAX_EXPR_DEPTH
    requires args != [] && forall i :: 0 <= i < |args| ==> WellFormed(args[i])
    ensures ParseArgList(PrintArgs(args) + ts, d) ==
      if d + NestingArgs(args) > MAX_EXPR_DEPTH then FailArgs else OkArgs(args, ts)
    decreases args, 2, 0
  {
    hide ParseLevel, ParseLoop;
    var e, more := args[0], args[1..];
    var next := if |args| == 1 then [RParen] + ts else [Comma] + (PrintArgs(more) + ts);
    assert PrintArgs(args) + ts == Print(e, OR_LEVEL) + next;
    if d + 1 <= MAX_EXPR_DEPTH {
      LevelRoundTrip(e, OR_LEVEL, next, d + 1);
      ExpectedTight(e, OR_LEVEL, next, d + 1);
    }
    assert next[1..] == if |args| == 1 then ts else PrintArgs(more) + ts;
    if |args| > 1 {
      ArgListRoundTrip(more, ts, d);
      assert [e] + more == args;
    } else {
      assert NestingArgs(more) == 0;
      assert args == [e];
    }
  }

  /** The printed form of an expression is parsed back to it, and nothing after it is used; it fails
      exactly when the nesting limit is exceeded. */
  lemma RoundTrip(e: Expr, ts: seq<Token>, d: nat)
    requires d <= MAX_EXPR_DEPTH
    requires WellFormed(e) && Stops(Head(ts), OR_LEVEL)
    ensures ParseExpr(Print(e, OR_LEVEL) + ts, d) ==
      if d + 1 + Nesting(e, OR_LEVEL) > MAX_EXPR_DEPTH then Fail else Ok(e, ts)
  {
    if d + 1 <= MAX_EXPR_DEPTH {
      LevelRoundTrip(e, OR_LEVEL, ts, d + 1);
      ExpectedTight(e, OR_LEVEL, ts, d + 1);
    }
  }
}
