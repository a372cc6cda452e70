/** The recursive-descent parser: a cursor over the tokens and a nesting counter. */
module ExprParser {
  import opened ExprSyntax
  import opened ExprRoundTrip
  import opened ExprGrammar
  import opened ExprParsing
  import opened Optional

  class Parser {
    const toks: seq<Token>
    var pos: nat
    var depth: nat

    constructor (toks: seq<Token>)
      ensures this.toks == toks && pos == 0 && depth == 0
    {
      this.toks := toks;
      pos, depth := 0, 0;
    }

    ghost function Left(): seq<Token>
      requires pos <= |toks|
      reads this`pos
    {
      toks[pos..]
    }

    /** The parse result r, found at nesting d, is returned as e. The counter is restored; only behind
        a step over the limit it stays one too high. */
    ghost predicate Returns(r: Parsed, e: Option<Expr>, d: nat)
      reads this
    {
      pos <= |toks| && match r
      case Fail => e == None && d <= depth <= d + 1
      case Ok(x, rest) => e == Some(x) && Left() == rest && depth == d
    }

    function Tok(): Token
      requires pos <= |toks|
      reads this`pos
      ensures Tok() == Head(Left())
    {
      if pos < |toks| then toks[pos] else Eof
    }

    method Adv()
      requires pos < |toks|
      modifies this`pos
      ensures pos == old(pos) + 1 && Left() == old(Left())[1..]
    {
      pos := pos + 1;
    }

    /** parse_expr: an expression of any level, one nesting level deeper. In front of a token that cannot
        continue it, every text of the grammar gives its meaning, unless it is nested too deep; and what is
        given is the meaning of the text that was read. */
    method Expression() returns (e: Option<Expr>)
      requires pos <= |toks|
      modifies this`pos, this`depth
      ensures old(pos) <= pos
      ensures Returns(ParseExpr(old(Left()), old(depth)), e, old(depth))
      ensures old(depth) <= 64 ==> forall t, rest :: IsOr(t) && Ends(rest) && old(Left()) == Words(t) + rest ==>
        if old(depth) + 1 + Depth(t) > 64 then e == None else e == Some(Meaning(t)) && Left() == rest
      ensures old(depth) <= 64 && e.Some? ==>
        exists t :: IsOr(t) && old(Left()) == Words(t) + Left() && e == Some(Meaning(t)) && old(depth) + 1 + Depth(t) <= 64
      decreases |toks| - pos, 11
    {
      hide ParseLevel, IsOr, Words, Meaning, Depth, Ends;
      if depth <= 64 {
        ParsesExactly(Left(), depth);
      }
      depth := depth + 1;
      if depth > MAX_EXPR_DEPTH {
        return None;
      }
      e := LeftAssociative(OR_LEVEL);
      depth := depth - 1;
    }

    method Level(l: nat) returns (e: Option<Expr>)
      requires pos <= |toks| && l <= PRIMARY_LEVEL
      modifies this`pos, this`depth
      ensures old(pos) <= pos
      ensures Returns(ParseLevel(l, old(Left()), old(depth)), e, old(depth))
      decreases |toks| - pos, 10 - l, 1
    {
      hide ParseLevel;
      if l == NOT_LEVEL || l == UNARY_LEVEL {
        e := Prefix(l);
      } else if l == POWER_LEVEL {
        e := Power();
      } else if l == PRIMARY_LEVEL {
        PrimaryLevel(Left(), depth);
        e := Primary();
      } else {
        e := LeftAssociative(l);
      }
    }

    /** parse_expr's loop, parse_and, parse_cmp, parse_shift, parse_add and parse_mul. */
    method LeftAssociative(l: nat) returns (e: Option<Expr>)
      requires pos <= |toks| && HasLoop(l)
      modifies this`pos, this`depth
      ensures old(pos) <= pos
      ensures Returns(ParseLevel(l, old(Left()), old(depth)), e, old(depth))
      decreases |toks| - pos, 10 - l, 0
    {
      hide ParseLevel;
      ghost var d, start := depth, pos;
      LoopLevel(l, Left(), d);
      e := Level(l + 1);
      ghost var goal := ParseLevel(l, old(Left()), d);
      while e.Some? && OpLevel(Tok()) == l
        invariant start <= pos <= |toks|
        invariant e.Some? ==> depth == d && pos > start && ParseLoop(l, e.value, Left(), d) == goal
        invariant e.None? ==> d <= depth <= d + 1 && goal == Fail
        decreases |toks| - pos
      {
        var op := Tok();
        Adv();
        var b := Level(l + 1);
        e := if b.Some? then Some(Binary(op, e.value, b.value)) else None;
      }
    }

    /** parse_not and parse_unary. */
    method Prefix(l: nat) returns (e: Option<Expr>)
      requires pos <= |toks| && l in {NOT_LEVEL, UNARY_LEVEL}
      modifies this`pos, this`depth
      ensures old(pos) <= pos
      ensures Returns(ParseLevel(l, old(Left()), old(depth)), e, old(depth))
      decreases |toks| - pos, 10 - l, 0
    {
      var op := Tok();
      if if l == NOT_LEVEL then op == Not else op == Minus || op == Plus {
        Adv();
        depth := depth + 1;
        if depth > MAX_EXPR_DEPTH {
          return None;
        }
        e := Level(l);
        depth := depth - 1;
        if e.Some? && op != Plus {
          e := Some(if op == Not then Invert(e.value) else Neg(e.value));
        }
      } else {
        PlainLevel(l, Left(), depth);
        e := Level(l + 1);
      }
    }

    /** parse_power: '^' groups to the right. */
    method Power() returns (e: Option<Expr>)
      requires pos <= |toks|
      modifies this`pos, this`depth
      ensures old(pos) <= pos
      ensures Returns(ParseLevel(POWER_LEVEL, old(Left()), old(depth)), e, old(depth))
      decreases |toks| - pos, 10 - POWER_LEVEL, 0
    {
      hide ParseLevel, ParsePrimary;
      PowerLevel(Left(), depth);
      e := Primary();
      if e.Some? && Tok() == Caret {
        Adv();
        var b := Power();
        e := if b.Some? then Some(Binary(Caret, e.value, b.value)) else None;
      }
    }

    method Primary() returns (e: Option<Expr>)
      requires pos <= |toks|
      modifies this`pos, this`depth
      ensures old(pos) <= pos
      ensures Returns(ParsePrimary(old(Left()), old(depth)), e, old(depth))
      ensures e.Some? ==> old(pos) < pos
      decreases |toks| - pos, 1, 0
    {
      hide ParseExpr, ParseArgs;
      match Tok()
      case Num(n) =>
        Adv();
        e := Some(Number(n));
      case Str(s) =>
        Adv();
        e := Some(Text(s));
      case Ident(name) =>
        Adv();
        if Tok() == LParen {
          Adv();
          assert Left() == old(Left())[2..];
          var args := Arguments();
          e := if args.Some? then Some(Call(Lower(name), args.value)) else None;
        } else {
          e := Some(Var(Lower(name)));
        }
      case LParen =>
        Adv();
        e := Expression();
        if e.Some? {
          if Tok() == RParen {
            Adv();
          } else {
            e := None;
          }
        }
      case _ =>
        e := None;
    }

    ghost predicate ReturnsArgs(r: ParsedArgs, args: Option<seq<Expr>>, d: nat)
      reads this
    {
      pos <= |toks| && match r
      case FailArgs => args == None && d <= depth <= d + 1
      case OkArgs(x, rest) => args == Some(x) && Left() == rest && depth == d
    }

    /** parse_paren_args after '('. */
    method Arguments() returns (args: Option<seq<Expr>>)
      requires pos <= |toks|
      modifies this`pos, this`depth
      ensures old(pos) <= pos
      ensures ReturnsArgs(ParseArgs(old(Left()), old(depth)), args, old(depth))
      decreases |toks| - pos, 12, 1
    {
      hide ParseExpr;
      if Tok() == RParen {
        Adv();
        return Some([]);
      }
      ghost var d, start, goal := depth, pos, ParseArgList(Left(), depth);
      var list: seq<Expr> := [];
      while true
        invariant start <= pos <= |toks| && depth == d
        invariant goal == Prepend(list, ParseArgList(Left(), d))
        decreases |toks| - pos
      {
        ghost var ts := Left();
        var e := Expression();
        if e == None {
          return None;
        }
        var before := list;
        list := list + [e.value];
        if Tok() == Comma {
          Adv();
          PrependTwice(before, e.value, ParseArgList(Left(), d));
        } else if Tok() == RParen {
          Adv();
          return Some(list);
        } else {
          return None;
        }
      }
    }

    static function Prepend(list: seq<Expr>, r: ParsedArgs): ParsedArgs {
      match r
      case FailArgs => FailArgs
      case OkArgs(args, rest) => OkArgs(list + args, rest)
    }

    static lemma PrependTwice(list: seq<Expr>, e: Expr, r: ParsedArgs)
      ensures Prepend(list + [e], r) == Prepend(list, Prepend([e], r))
    {
      if r.OkArgs? {
        assert list + [e] + r.args == list + ([e] + r.args);
      }
    }
  }
}
