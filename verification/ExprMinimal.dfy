/** The printed form is the shortest and the least nested text of an expression: whatever text
    parses to e uses at least as many tokens and at least as much nesting. */
module ExprMinimal {
  import opened ExprSyntax
  import opened ExprRoundTrip

  /** Reading e at level l used up the tokens of its printed form or more, within the nesting limit. */
  ghost predicate Enough(e: Expr, l: nat, used: int, d: nat) {
    WellFormed(e) && |Print(e, l)| <= used && d + Nesting(e, l) <= MAX_EXPR_DEPTH
  }

  /** A successful parse of n tokens used enough of them. */
  ghost predicate EnoughFor(r: Parsed, l: nat, n: int, d: nat) {
    r.Ok? ==> Enough(r.e, l, n - |r.rest|, d)
  }

  lemma EnoughBelow(e: Expr, l: nat, m: nat, used: int, d: nat)
    requires Enough(e, l, used, d) && m <= l
    ensures Enough(e, m, used, d)
  {
  }

  lemma EnoughInParens(e: Expr, used: int, d: nat)
    requires Enough(e, OR_LEVEL, used - 2, d + 1)
    ensures Enough(e, PRIMARY_LEVEL, used, d)
  {
    hide PrintBare, NestingBare, WellFormed;
  }

  lemma EnoughBinary(op: Token, a: Expr, b: Expr, usedA: int, usedB: int, d: nat)
    requires OpLevel(op) < 10
    requires Enough(a, LeftLevel(op), usedA, d) && Enough(b, RightLevel(op), usedB, d)
    ensures Enough(Binary(op, a, b), OpLevel(op), usedA + 1 + usedB, d)
  {
    PrintBinary(Binary(op, a, b));
  }

  lemma EnoughPrefix(e: Expr, used: int, d: nat)
    requires e.Neg? || e.Invert?
    requires Enough(e.e, ExprLevel(e), used, d + 1)
    ensures Enough(e, ExprLevel(e), used + 1, d)
  {
    PrintPrefix(e);
  }

  lemma LowerTwice(s: string)
    ensures Lower(Lower(s)) == Lower(s)
  {
  }

  lemma EnoughLeaf(e: Expr, d: nat)
    requires (e.Number? || e.Text? || e.Var?) && WellFormed(e) && d <= MAX_EXPR_DEPTH
    ensures Enough(e, PRIMARY_LEVEL, 1, d)
  {
  }

  lemma {:induction false} LevelMinimal(l: nat, ts: seq<Token>, d: nat)
    requires l <= PRIMARY_LEVEL && d <= MAX_EXPR_DEPTH
    ensures EnoughFor(ParseLevel(l, ts, d), l, |ts|, d)
    decreases |ts|, 10 - l, 1
  {
    hide Enough;
    if l == PRIMARY_LEVEL {
      PrimaryLevel(ts, d);
      PrimaryMinimal(ts, d);
    } else if (l == NOT_LEVEL && Head(ts) == Not) || (l == UNARY_LEVEL && Head(ts) in {Minus, Plus}) {
      PrefixMinimal(l, ts, d);
    } else {
      LevelMinimal(l + 1, ts, d);
      if HasLoop(l) {
        LoopLevel(l, ts, d);
        var r := ParseLevel(l + 1, ts, d);
        if r.Ok? {
          EnoughBelow(r.e, l + 1, l, |ts| - |r.rest|, d);
          LoopMinimal(l, r.e, r.rest, d, |ts| - |r.rest|);
        }
      } else if l == POWER_LEVEL {
        PowerMinimal(ts, d);
      } else {
        PlainLevel(l, ts, d);
        var r := ParseLevel(l, ts, d);
        if r.Ok? {
          EnoughBelow(r.e, l + 1, l, |ts| - |r.rest|, d);
        }
      }
    }
  }

  lemma {:induction false} PrefixMinimal(l: nat, ts: seq<Token>, d: nat)
    requires d <= MAX_EXPR_DEPTH
    requires (l == NOT_LEVEL && Head(ts) == Not) || (l == UNARY_LEVEL && Head(ts) in {Minus, Plus})
    ensures EnoughFor(ParseLevel(l, ts, d), l, |ts|, d)
    decreases |ts|, 0, 0
  {
    hide Print, Nesting;
    if d + 1 <= MAX_EXPR_DEPTH {
      LevelMinimal(l, ts[1..], d + 1);
      var r := ParseLevel(l, ts[1..], d + 1);
      if r.Ok? && Head(ts) != Plus {
        EnoughPrefix(if l == NOT_LEVEL then Invert(r.e) else Neg(r.e), |ts| - 1 - |r.rest|, d);
      }
    }
  }

  lemma {:induction false} PowerMinimal(ts: seq<Token>, d: nat)
    requires d <= MAX_EXPR_DEPTH
    ensures EnoughFor(ParseLevel(POWER_LEVEL, ts, d), POWER_LEVEL, |ts|, d)
    decreases |ts|, 1, 2
  {
    hide Enough, ParseLevel;
    PowerLevel(ts, d);
    PrimaryMinimal(ts, d);
    var r := ParsePrimary(ts, d);
    if r.Ok? && Head(r.rest) == Caret {
      LevelMinimal(POWER_LEVEL, r.rest[1..], d);
      var q := ParseLevel(POWER_LEVEL, r.rest[1..], d);
      if q.Ok? {
        EnoughBinary(Caret, r.e, q.e, |ts| - |r.rest|, |r.rest| - 1 - |q.rest|, d);
      }
    } else if r.Ok? {
      EnoughBelow(r.e, PRIMARY_LEVEL, POWER_LEVEL, |ts| - |r.rest|, d);
    }
  }

  lemma {:induction false} LoopMinimal(l: nat, a: Expr, ts: seq<Token>, d: nat, used: int)
    requires HasLoop(l) && d <= MAX_EXPR_DEPTH && Enough(a, l, used, d)
    ensures EnoughFor(ParseLoop(l, a, ts, d), l, used + |ts|, d)
    decreases |ts|, 0, 0
  {
    hide Enough, ParseLevel;
    if OpLevel(Head(ts)) == l {
      LevelMinimal(l + 1, ts[1..], d);
      var r := ParseLevel(l + 1, ts[1..], d);
      if r.Ok? {
        EnoughBinary(ts[0], a, r.e, used, |ts| - 1 - |r.rest|, d);
        LoopMinimal(l, Binary(ts[0], a, r.e), r.rest, d, used + |ts| - |r.rest|);
      }
    }
  }

  lemma {:induction false} ExprMinimalAt(ts: seq<Token>, d: nat)
    ensures EnoughFor(ParseExpr(ts, d), OR_LEVEL, |ts|, d + 1)
    decreases |ts|, 11, 0
  {
    hide Enough, ParseLevel;
    if d + 1 <= MAX_EXPR_DEPTH {
      LevelMinimal(OR_LEVEL, ts, d + 1);
    }
  }

  lemma {:induction false} PrimaryMinimal(ts: seq<Token>, d: nat)
    requires d <= MAX_EXPR_DEPTH
    ensures EnoughFor(ParsePrimary(ts, d), PRIMARY_LEVEL, |ts|, d)
    decreases |ts|, 1, 0
  {
    hide ParseExpr, ParseArgs;
    if Head(ts) == LParen {
      ExprMinimalAt(ts[1..], d);
      var r := ParseExpr(ts[1..], d);
      if r.Ok? && Head(r.rest) == RParen {
        EnoughInParens(r.e, |ts| - |r.rest[1..]|, d);
      }
    } else if Head(ts).Ident? {
      LowerTwice(Head(ts).name);
      if Head(ts[1..]) == LParen {
        ArgsMinimal(ts[2..], d);
        var r := ParseArgs(ts[2..], d);
        if r.OkArgs? {
          EnoughCall(Lower(Head(ts).name), r.args, |ts| - 2 - |r.rest|, d);
          assert ParsePrimary(ts, d) == Ok(Call(Lower(Head(ts).name), r.args), r.rest);
        }
      } else {
        assert ParsePrimary(ts, d) == Ok(Var(Lower(Head(ts).name)), ts[1..]);
        EnoughLeaf(Var(Lower(Head(ts).name)), d);
      }
    } else if ParsePrimary(ts, d).Ok? {
      EnoughLeaf(ParsePrimary(ts, d).e, d);
    }
  }

  /** The same for an argument list with its closing parenthesis. */
  ghost predicate EnoughArgs(args: seq<Expr>, used: int, d: nat) {
    && (forall i :: 0 <= i < |args| ==> WellFormed(args[i]))
    && |PrintArgs(args)| <= used && d + NestingArgs(args) <= MAX_EXPR_DEPTH
  }

  ghost predicate EnoughForArgs(r: ParsedArgs, n: int, d: nat) {
    r.OkArgs? ==> EnoughArgs(r.args, n - |r.rest|, d)
  }

  lemma EnoughCall(name: string, args: seq<Expr>, used: int, d: nat)
    requires Lower(name) == name && EnoughArgs(args, used, d)
    ensures Enough(Call(name, args), PRIMARY_LEVEL, used + 2, d)
  {
  }

  lemma EnoughCons(e: Expr, args: seq<Expr>, usedE: int, used: int, d: nat)
    requires Enough(e, OR_LEVEL, usedE, d + 1) && EnoughArgs(args, used, d) && args != []
    ensures EnoughArgs([e] + args, usedE + 1 + used, d)
  {
    var all := [e] + args;
    assert all[0] == e && all[1..] == args;
    assert PrintArgs(all) == Print(e, OR_LEVEL) + ([Comma] + PrintArgs(args));
    assert NestingArgs(all) == Max(1 + Nesting(e, OR_LEVEL), NestingArgs(args));
  }

  lemma EnoughOne(e: Expr, used: int, d: nat)
    requires Enough(e, OR_LEVEL, used, d + 1)
    ensures EnoughArgs([e], used + 1, d)
  {
    assert NestingArgs([e][1..]) == 0;
  }

  lemma {:induction false} ArgsMinimal(ts: seq<Token>, d: nat)
    requires d <= MAX_EXPR_DEPTH
    ensures EnoughForArgs(ParseArgs(ts, d), |ts|, d)
    decreases |ts|, 12, 1
  {
    if Head(ts) != RParen {
      ArgListMinimal(ts, d);
    }
  }

  lemma {:induction false} ArgListMinimal(ts: seq<Token>, d: nat)
    requires d <= MAX_EXPR_DEPTH
    ensures EnoughForArgs(ParseArgList(ts, d), |ts|, d)
    decreases |ts|, 12, 0
  {
    hide Enough, EnoughArgs, ParseExpr;
    ExprMinimalAt(ts, d);
    var r := ParseExpr(ts, d);
    if r.Ok? && Head(r.rest) == Comma {
      ArgListMinimal(r.rest[1..], d);
      var q := ParseArgList(r.rest[1..], d);
      if q.OkArgs? {
        EnoughCons(r.e, q.args, |ts| - |r.rest|, |r.rest| - 1 - |q.rest|, d);
      }
    } else if r.Ok? && Head(r.rest) == RParen {
      EnoughOne(r.e, |ts| - |r.rest|, d);
    }
  }

  /** Every text that parses to e has at least as many tokens as the printed form of e, and printing
      and parsing again gives e. */
  lemma ParsePrintParse(ts: seq<Token>, d: nat, e: Expr, rest: seq<Token>)
    requires d < MAX_EXPR_DEPTH && ParseExpr(ts, d) == Ok(e, rest)
    ensures WellFormed(e) && |Print(e, OR_LEVEL)| <= |ts| - |rest|
    ensures ParseExpr(Print(e, OR_LEVEL), d) == Ok(e, [])
  {
    ExprMinimalAt(ts, d);
    RoundTrip(e, [], d);
    assert Print(e, OR_LEVEL) + [] == Print(e, OR_LEVEL);
  }
}
