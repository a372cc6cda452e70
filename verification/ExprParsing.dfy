/** The parser reads exactly the grammar: every text of a tree is parsed to its meaning, and whatever is
    parsed is the text of a tree. */
module ExprParsing {
  import opened ExprSyntax
  import opened ExprRoundTrip
  import opened ExprGrammar

  /** The rule of each level. */
  predicate In(l: nat, t: Tree) {
    if l == OR_LEVEL then IsOr(t)
    else if l == AND_LEVEL then IsAnd(t)
    else if l == NOT_LEVEL then IsNot(t)
    else if l == CMP_LEVEL then IsComparison(t)
    else if l == SHIFT_LEVEL then IsShift(t)
    else if l == ADD_LEVEL then IsSum(t)
    else if l == MUL_LEVEL then IsProduct(t)
    else if l == UNARY_LEVEL then IsUnary(t)
    else if l == POWER_LEVEL then IsPower(t)
    else IsPrimary(t)
  }

  /** What a tree of level l is that is not one of level l + 1. */
  predicate Own(l: nat, t: Tree) {
    if HasLoop(l) then t.Op? && OpLevel(t.op) == l && In(l, t.a) && In(l + 1, t.b)
    else if l == NOT_LEVEL then t.Negation? && In(l, t.x)
    else if l == UNARY_LEVEL then (t.Negative? || t.Positive?) && In(l, t.x)
    else if l == POWER_LEVEL then t.Op? && t.op == Caret && In(PRIMARY_LEVEL, t.a) && In(POWER_LEVEL, t.b)
    else IsPrimary(t)
  }

  lemma InIs(l: nat, t: Tree)
    requires l < PRIMARY_LEVEL
    ensures In(l, t) <==> Own(l, t) || In(l + 1, t)
  {
  }

  lemma PrimaryIs(t: Tree)
    ensures In(PRIMARY_LEVEL, t) <==> IsPrimary(t)
  {
  }

  lemma SameLetters(s: string)
    ensures SmallLetters(s) == Lower(s)
  {
    forall i | 0 <= i < |s| ensures SmallLetters(s)[i] == Lower(s)[i] {
    }
  }

  /** What parsing the text of t at level l yields when ts follows. */
  function Yields(t: Tree, l: nat, ts: seq<Token>, d: nat): Parsed
    requires l <= PRIMARY_LEVEL
  {
    if d + Depth(t) > MAX_EXPR_DEPTH then Fail
    else if HasLoop(l) then ParseLoop(l, Meaning(t), ts, d)
    else Ok(Meaning(t), ts)
  }

  lemma YieldsTight(t: Tree, l: nat, ts: seq<Token>, d: nat)
    requires l <= PRIMARY_LEVEL && Stops(Head(ts), l)
    ensures Yields(t, l, ts, d) == if d + Depth(t) > MAX_EXPR_DEPTH then Fail else Ok(Meaning(t), ts)
  {
  }

  lemma {:induction false} FirstWord(t: Tree, l: nat)
    requires In(l, t) && l <= PRIMARY_LEVEL
    ensures Words(t)[0] !in {RParen, Comma, Eof}
    ensures l > NOT_LEVEL ==> Words(t)[0] != Not
    ensures l > UNARY_LEVEL ==> Words(t)[0] != Minus && Words(t)[0] != Plus
    decreases t, 10 - l
  {
    if l < PRIMARY_LEVEL {
      InIs(l, t);
      hide In;
      if !Own(l, t) {
        FirstWord(t, l + 1);
      } else if t.Op? {
        FirstWord(t.a, if l == POWER_LEVEL then PRIMARY_LEVEL else l);
      }
    }
  }

  // ---- texts are parsed ----

  lemma {:induction false} TreeParsed(t: Tree, l: nat, ts: seq<Token>, d: nat)
    requires d <= MAX_EXPR_DEPTH && l <= PRIMARY_LEVEL && In(l, t) && Stops(Head(ts), StopLevel(l))
    ensures ParseLevel(l, Words(t) + ts, d) == Yields(t, l, ts, d)
    decreases t, 1, 10 - l
  {
    hide ParseLevel, ParseLoop, Words, Meaning, Depth, In;
    if l == PRIMARY_LEVEL {
      PrimaryIs(t);
      PrimaryParsed(t, ts, d);
    } else {
      InIs(l, t);
      if !Own(l, t) {
        TreeParsed(t, l + 1, ts, d);
        FirstWord(t, l + 1);
        HeadOfConcat(Words(t), ts);
        if l < POWER_LEVEL {
          YieldsTight(t, l + 1, ts, d);
        }
        OneUp(Meaning(t), l, Words(t) + ts, ts, d, d + Depth(t) <= MAX_EXPR_DEPTH);
      } else if t.Op? {
        OpParsed(t, l, ts, d);
      } else {
        SignParsed(t, l, ts, d);
      }
    }
  }

  lemma OpWords(t: Tree, ts: seq<Token>)
    requires t.Op?
    ensures Words(t) + ts == Words(t.a) + ([t.op] + (Words(t.b) + ts))
    ensures ([t.op] + (Words(t.b) + ts))[1..] == Words(t.b) + ts
    ensures Depth(t) == Max(Depth(t.a), Depth(t.b)) && Meaning(t) == Binary(t.op, Meaning(t.a), Meaning(t.b))
  {
    Assoc(Words(t.a), [t.op] + Words(t.b), ts);
    Assoc([t.op], Words(t.b), ts);
  }

  lemma {:induction false} OpParsed(t: Tree, l: nat, ts: seq<Token>, d: nat)
    requires d <= MAX_EXPR_DEPTH && l < PRIMARY_LEVEL && Own(l, t) && t.Op? && Stops(Head(ts), StopLevel(l))
    ensures ParseLevel(l, Words(t) + ts, d) == Yields(t, l, ts, d)
    decreases t, 0, 0
  {
    hide ParseLevel, ParsePrimary, Words, Meaning, Depth, In;
    var right := Words(t.b) + ts;
    OpWords(t, ts);
    TreeParsed(t.a, if l == POWER_LEVEL then PRIMARY_LEVEL else l, [t.op] + right, d);
    TreeParsed(t.b, if l == POWER_LEVEL then POWER_LEVEL else l + 1, ts, d);
    if l == POWER_LEVEL {
      PrimaryLevel(Words(t) + ts, d);
      PowerLevel(Words(t) + ts, d);
    } else {
      YieldsTight(t.b, l + 1, ts, d);
    }
  }

  lemma SignLevel(l: nat, ts: seq<Token>, d: nat)
    requires (l == NOT_LEVEL && Head(ts) == Not) || (l == UNARY_LEVEL && Head(ts) in {Minus, Plus})
    ensures ParseLevel(l, ts, d) ==
      if d + 1 > MAX_EXPR_DEPTH then Fail
      else
        match ParseLevel(l, ts[1..], d + 1)
        case Fail => Fail
        case Ok(e, rest) => Ok(if l == NOT_LEVEL then Invert(e) else if Head(ts) == Plus then e else Neg(e), rest)
  {
  }

  lemma SignWords(t: Tree, ts: seq<Token>)
    requires t.Negation? || t.Negative? || t.Positive?
    ensures Head(Words(t) + ts) == if t.Negation? then Not else if t.Negative? then Minus else Plus
    ensures (Words(t) + ts)[1..] == Words(t.x) + ts && Depth(t) == 1 + Depth(t.x)
    ensures Meaning(t) == if t.Negation? then Invert(Meaning(t.x)) else if t.Negative? then Neg(Meaning(t.x)) else Meaning(t.x)
  {
  }

  lemma {:induction false} SignParsed(t: Tree, l: nat, ts: seq<Token>, d: nat)
    requires d <= MAX_EXPR_DEPTH && l in {NOT_LEVEL, UNARY_LEVEL} && Own(l, t) && Stops(Head(ts), StopLevel(l))
    ensures ParseLevel(l, Words(t) + ts, d) == Yields(t, l, ts, d)
    decreases t, 0, 0
  {
    hide ParseLevel, ParseLoop, Words, Depth, In, Meaning;
    SignWords(t, ts);
    SignLevel(l, Words(t) + ts, d);
    if d + 1 <= MAX_EXPR_DEPTH {
      TreeParsed(t.x, l, ts, d + 1);
    }
  }

  lemma {:induction false} PrimaryParsed(t: Tree, ts: seq<Token>, d: nat)
    requires d <= MAX_EXPR_DEPTH && IsPrimary(t) && Head(ts) != LParen
    ensures ParseLevel(PRIMARY_LEVEL, Words(t) + ts, d) == Yields(t, PRIMARY_LEVEL, ts, d)
    decreases t, 0, 0
  {
    hide ParseLevel, ParseArgs, ParseExpr, IsOr;
    var all := Words(t) + ts;
    PrimaryLevel(all, d);
    match t {
      case Paren(x) =>
        var inner := [RParen] + ts;
        assert all[1..] == Words(x) + inner && inner[1..] == ts;
        InnerParsed(x, inner, d);
      case Apply(name, args) =>
        CallTokens(name, ArgWords(args), ts);
        ArgsParsed(args, ts, d);
        SameLetters(name);
        assert Head(all) == Ident(name) && Head(all[1..]) == LParen;
      case Name(name) =>
        SameLetters(name);
        assert all[1..] == ts;
      case Numeral(_) =>
        assert all[1..] == ts;
      case Quoted(_) =>
        assert all[1..] == ts;
      case _ =>
    }
  }

  /** An expression one level deeper. */
  lemma {:induction false} InnerParsed(t: Tree, ts: seq<Token>, d: nat)
    requires d <= MAX_EXPR_DEPTH && IsOr(t) && Stops(Head(ts), OR_LEVEL)
    ensures ParseExpr(Words(t) + ts, d) == if d + 1 + Depth(t) > MAX_EXPR_DEPTH then Fail else Ok(Meaning(t), ts)
    decreases t, 2, 0
  {
    hide ParseLevel, IsOr, Words, Depth, Meaning;
    if d + 1 <= MAX_EXPR_DEPTH {
      TreeParsed(t, OR_LEVEL, ts, d + 1);
      YieldsTight(t, OR_LEVEL, ts, d + 1);
    }
  }

  lemma {:induction false} ArgsParsed(args: seq<Tree>, ts: seq<Token>, d: nat)
    requires d <= MAX_EXPR_DEPTH && forall i :: 0 <= i < |args| ==> IsOr(args[i])
    ensures ParseArgs(ArgWords(args) + ts, d) ==
      if d + ArgDepth(args) > MAX_EXPR_DEPTH then FailArgs else OkArgs(Meanings(args), ts)
    decreases args, 3, 0
  {
    if args == [] {
      assert ([RParen] + ts)[1..] == ts;
    } else {
      ArgListParsed(args, ts, d);
      FirstWord(args[0], OR_LEVEL);
      HeadOfConcat(ArgWords(args), ts);
    }
  }

  lemma {:induction false} ArgListParsed(args: seq<Tree>, ts: seq<Token>, d: nat)
    requires d <= MAX_EXPR_DEPTH && args != [] && forall i :: 0 <= i < |args| ==> IsOr(args[i])
    ensures ParseArgList(ArgWords(args) + ts, d) ==
      if d + ArgDepth(args) > MAX_EXPR_DEPTH then FailArgs else OkArgs(Meanings(args), ts)
    decreases args, 2, 0
  {
    hide ParseExpr, IsOr, Words, Meaning, Depth;
    var more := args[1..];
    var next := if |args| == 1 then [RParen] + ts else [Comma] + (ArgWords(more) + ts);
    assert ArgWords(args) + ts == Words(args[0]) + next;
    InnerParsed(args[0], next, d);
    assert next[1..] == if |args| == 1 then ts else ArgWords(more) + ts;
    if |args| > 1 {
      ArgListParsed(more, ts, d);
    } else {
      assert more == [];
    }
  }

  /** Every text of the grammar is parsed to its meaning, and nothing behind it is used; unless
      parentheses, arguments and signs are nested too deep. */
  lemma TextParsed(t: Tree, rest: seq<Token>, d: nat)
    requires IsOr(t) && Ends(rest) && d <= 64
    ensures ParseExpr(Words(t) + rest, d) == if d + 1 + Depth(t) > 64 then Fail else Ok(Meaning(t), rest)
  {
    InnerParsed(t, rest, d);
  }

  // ---- what is parsed is a text ----

  /** Tree t of level l stands in front of rest in ts and means e, within the nesting limit. */
  ghost predicate Reads(t: Tree, l: nat, ts: seq<Token>, e: Expr, rest: seq<Token>, d: nat) {
    In(l, t) && ts == Words(t) + rest && Meaning(t) == e && d + Depth(t) <= MAX_EXPR_DEPTH
  }

  lemma {:induction false} ParsedReads(l: nat, ts: seq<Token>, d: nat) returns (t: Tree)
    requires l <= PRIMARY_LEVEL && d <= MAX_EXPR_DEPTH && ParseLevel(l, ts, d).Ok?
    ensures var r := ParseLevel(l, ts, d); Reads(t, l, ts, r.e, r.rest, d)
    decreases |ts|, 10 - l, 1
  {
    hide ParseLevel, ParseLoop, ParsePrimary, Reads, In;
    if l == PRIMARY_LEVEL {
      PrimaryLevel(ts, d);
      t := PrimaryReads(ts, d);
    } else if HasLoop(l) {
      LoopLevel(l, ts, d);
      var a := ParsedReads(l + 1, ts, d);
      var r := ParseLevel(l + 1, ts, d);
      InUp(a, l, ts, r.e, r.rest, d);
      t := LoopReads(l, ts, a, r.e, r.rest, d);
    } else if l == POWER_LEVEL {
      t := PowerReads(ts, d);
    } else {
      t := SignReads(l, ts, d);
    }
  }

  lemma InUp(t: Tree, l: nat, ts: seq<Token>, e: Expr, rest: seq<Token>, d: nat)
    requires l < PRIMARY_LEVEL && Reads(t, l + 1, ts, e, rest, d)
    ensures Reads(t, l, ts, e, rest, d)
  {
    InIs(l, t);
  }

  lemma OpReads(l: nat, a: Tree, op: Token, b: Tree, ts: seq<Token>, x: Expr, rest: seq<Token>, y: Expr, rest2: seq<Token>, d: nat)
    requires l < PRIMARY_LEVEL && rest != [] && rest[0] == op
    requires if l == POWER_LEVEL then op == Caret else HasLoop(l) && OpLevel(op) == l
    requires Reads(a, if l == POWER_LEVEL then PRIMARY_LEVEL else l, ts, x, rest, d)
    requires Reads(b, if l == POWER_LEVEL then POWER_LEVEL else l + 1, rest[1..], y, rest2, d)
    ensures Reads(Op(a, op, b), l, ts, Binary(op, x, y), rest2, d)
  {
    hide In;
    var t := Op(a, op, b);
    InIs(l, t);
    OpWords(t, rest2);
    assert rest == [op] + rest[1..];
  }

  lemma {:induction false} LoopReads(l: nat, ts: seq<Token>, a: Tree, x: Expr, rest: seq<Token>, d: nat) returns (t: Tree)
    requires HasLoop(l) && d <= MAX_EXPR_DEPTH && Reads(a, l, ts, x, rest, d) && ParseLoop(l, x, rest, d).Ok? && |rest| < |ts|
    ensures var r := ParseLoop(l, x, rest, d); Reads(t, l, ts, r.e, r.rest, d)
    decreases |rest|, 0, 0
  {
    hide ParseLevel, Reads;
    if OpLevel(Head(rest)) == l {
      var b := ParsedReads(l + 1, rest[1..], d);
      var r := ParseLevel(l + 1, rest[1..], d);
      OpReads(l, a, rest[0], b, ts, x, rest, r.e, r.rest, d);
      t := LoopReads(l, ts, Op(a, rest[0], b), Binary(rest[0], x, r.e), r.rest, d);
    } else {
      t := a;
    }
  }

  lemma {:induction false} PowerReads(ts: seq<Token>, d: nat) returns (t: Tree)
    requires d <= MAX_EXPR_DEPTH && ParseLevel(POWER_LEVEL, ts, d).Ok?
    ensures var r := ParseLevel(POWER_LEVEL, ts, d); Reads(t, POWER_LEVEL, ts, r.e, r.rest, d)
    decreases |ts|, 10 - POWER_LEVEL, 0
  {
    hide ParseLevel, ParsePrimary, Reads;
    PowerLevel(ts, d);
    var a := PrimaryReads(ts, d);
    var r := ParsePrimary(ts, d);
    if Head(r.rest) == Caret {
      var b := ParsedReads(POWER_LEVEL, r.rest[1..], d);
      var q := ParseLevel(POWER_LEVEL, r.rest[1..], d);
      OpReads(POWER_LEVEL, a, Caret, b, ts, r.e, r.rest, q.e, q.rest, d);
      t := Op(a, Caret, b);
    } else {
      t := a;
      InUp(t, POWER_LEVEL, ts, r.e, r.rest, d);
    }
  }

  lemma {:induction false} SignReads(l: nat, ts: seq<Token>, d: nat) returns (t: Tree)
    requires l in {NOT_LEVEL, UNARY_LEVEL} && d <= MAX_EXPR_DEPTH && ParseLevel(l, ts, d).Ok?
    ensures var r := ParseLevel(l, ts, d); Reads(t, l, ts, r.e, r.rest, d)
    decreases |ts|, 10 - l, 0
  {
    hide ParseLevel, Reads, In;
    if (l == NOT_LEVEL && Head(ts) == Not) || (l == UNARY_LEVEL && Head(ts) in {Minus, Plus}) {
      SignLevel(l, ts, d);
      var x := ParsedReads(l, ts[1..], d + 1);
      var r := ParseLevel(l, ts[1..], d + 1);
      t := if l == NOT_LEVEL then Negation(x) else if Head(ts) == Plus then Positive(x) else Negative(x);
      SignIs(l, ts, x, r.e, r.rest, d, t);
    } else {
      PlainLevel(l, ts, d);
      t := ParsedReads(l + 1, ts, d);
      var r := ParseLevel(l + 1, ts, d);
      InUp(t, l, ts, r.e, r.rest, d);
    }
  }

  lemma SignIs(l: nat, ts: seq<Token>, x: Tree, e: Expr, rest: seq<Token>, d: nat, t: Tree)
    requires (l == NOT_LEVEL && Head(ts) == Not) || (l == UNARY_LEVEL && Head(ts) in {Minus, Plus})
    requires Reads(x, l, ts[1..], e, rest, d + 1)
    requires t == if l == NOT_LEVEL then Negation(x) else if Head(ts) == Plus then Positive(x) else Negative(x)
    ensures Reads(t, l, ts, if l == NOT_LEVEL then Invert(e) else if Head(ts) == Plus then e else Neg(e), rest, d)
  {
    InIs(l, t);
    hide In;
    assert ts == [ts[0]] + ts[1..];
    assert Words(t) + rest == [ts[0]] + (Words(x) + rest);
  }

  lemma {:induction false} PrimaryReads(ts: seq<Token>, d: nat) returns (t: Tree)
    requires d <= MAX_EXPR_DEPTH && ParsePrimary(ts, d).Ok?
    ensures var r := ParsePrimary(ts, d); Reads(t, PRIMARY_LEVEL, ts, r.e, r.rest, d)
    decreases |ts|, 1, 0
  {
    hide ParseExpr, ParseArgs, IsOr;
    var r := ParsePrimary(ts, d);
    match Head(ts) {
      case Num(n) =>
        t := Numeral(n);
        assert ts == [ts[0]] + ts[1..];
      case Str(s) =>
        t := Quoted(s);
        assert ts == [ts[0]] + ts[1..];
      case Ident(name) =>
        SameLetters(name);
        if Head(ts[1..]) == LParen {
          var args := ArgsRead(ts[2..], d);
          t := Apply(name, args);
          assert ts == [Ident(name), LParen] + ts[2..];
          Assoc([Ident(name), LParen], ArgWords(args), r.rest);
        } else {
          t := Name(name);
          assert ts == [ts[0]] + ts[1..];
        }
      case LParen =>
        var x := InnerReads(ts[1..], d);
        var q := ParseExpr(ts[1..], d);
        t := Paren(x);
        assert ts == [LParen] + ts[1..] && q.rest == [RParen] + r.rest;
        Assoc(Words(x), [RParen], r.rest);
        Assoc([LParen], Words(x) + [RParen], r.rest);
      case _ =>
    }
  }

  lemma {:induction false} InnerReads(ts: seq<Token>, d: nat) returns (t: Tree)
    requires d <= MAX_EXPR_DEPTH && ParseExpr(ts, d).Ok?
    ensures var r := ParseExpr(ts, d); IsOr(t) && ts == Words(t) + r.rest && Meaning(t) == r.e && d + 1 + Depth(t) <= MAX_EXPR_DEPTH
    decreases |ts|, 11, 0
  {
    hide ParseLevel;
    t := ParsedReads(OR_LEVEL, ts, d + 1);
  }

  lemma {:induction false} ArgsRead(ts: seq<Token>, d: nat) returns (args: seq<Tree>)
    requires d <= MAX_EXPR_DEPTH && ParseArgs(ts, d).OkArgs?
    ensures var r := ParseArgs(ts, d); (forall i :: 0 <= i < |args| ==> IsOr(args[i])) && ts == ArgWords(args) + r.rest
    ensures Meanings(args) == ParseArgs(ts, d).args && d + ArgDepth(args) <= MAX_EXPR_DEPTH
    decreases |ts|, 12, 1
  {
    hide ParseArgList, IsOr;
    if Head(ts) == RParen {
      args := [];
      assert ts == [RParen] + ts[1..];
    } else {
      args := ArgListRead(ts, d);
    }
  }

  lemma {:induction false} ArgListRead(ts: seq<Token>, d: nat) returns (args: seq<Tree>)
    requires d <= MAX_EXPR_DEPTH && ParseArgList(ts, d).OkArgs?
    ensures var r := ParseArgList(ts, d); args != [] && (forall i :: 0 <= i < |args| ==> IsOr(args[i])) && ts == ArgWords(args) + r.rest
    ensures Meanings(args) == ParseArgList(ts, d).args && d + ArgDepth(args) <= MAX_EXPR_DEPTH
    decreases |ts|, 12, 0
  {
    hide ParseExpr, IsOr, Words, Meaning, Depth;
    var r := ParseArgList(ts, d);
    var x := InnerReads(ts, d);
    var q := ParseExpr(ts, d);
    if Head(q.rest) == Comma {
      var more := ArgListRead(q.rest[1..], d);
      args := [x] + more;
      assert args[1..] == more;
      assert q.rest == [Comma] + q.rest[1..];
      assert Words(x) + ([Comma] + (ArgWords(more) + r.rest)) == (Words(x) + ([Comma] + ArgWords(more))) + r.rest;
    } else {
      args := [x];
      assert args[1..] == [];
      assert q.rest == [RParen] + r.rest;
      assert Words(x) + ([RParen] + r.rest) == (Words(x) + [RParen]) + r.rest;
    }
  }

  /** Whatever is parsed begins with a text of the grammar, and its meaning is the result. */
  lemma ParsedIsText(ts: seq<Token>, d: nat) returns (t: Tree)
    requires d <= 64 && ParseExpr(ts, d).Ok?
    ensures var r := ParseExpr(ts, d); IsOr(t) && ts == Words(t) + r.rest && Meaning(t) == r.e && d + 1 + Depth(t) <= 64
  {
    t := InnerReads(ts, d);
  }

  /** All of this at once, for the tokens ts. */
  lemma ParsesExactly(ts: seq<Token>, d: nat)
    requires d <= 64
    ensures forall t, rest :: IsOr(t) && Ends(rest) && ts == Words(t) + rest ==>
      ParseExpr(ts, d) == if d + 1 + Depth(t) > 64 then Fail else Ok(Meaning(t), rest)
    ensures var r := ParseExpr(ts, d); r.Ok? ==>
      exists t :: IsOr(t) && ts == Words(t) + r.rest && Meaning(t) == r.e && d + 1 + Depth(t) <= 64
  {
    hide ParseExpr, IsOr, Words, Meaning, Depth, Ends;
    forall t, rest | IsOr(t) && Ends(rest) && ts == Words(t) + rest
      ensures ParseExpr(ts, d) == if d + 1 + Depth(t) > 64 then Fail else Ok(Meaning(t), rest)
    {
      TextParsed(t, rest, d);
    }
    if ParseExpr(ts, d).Ok? {
      var t := ParsedIsText(ts, d);
    }
  }
}
