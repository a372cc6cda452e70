/** How operators group, with their classes written out, loosest first. */
module ExprChains {
  import opened ExprSyntax
  import opened ExprRoundTrip
  import opened ExprGrammar
  import opened ExprParsing

  const CLASSES: seq<set<Token>> :=
    [{Or, Xor}, {And}, {Eq, Ne, Lt, Gt, Le, Ge}, {Shl, Shr}, {Plus, Minus}, {Star, Slash, Backslash, Mod}, {Caret}]

  /** In a p b q c the operator p takes b: its class is tighter, or the same and not that of '^'. */
  ghost predicate LeftFirst(p: Token, q: Token) {
    exists i, j :: 0 <= i < 7 && 0 <= j < 7 && p in CLASSES[i] && q in CLASSES[j] && (i > j || (i == j && i != 6))
  }

  ghost predicate IsOperator(p: Token) {
    exists i :: 0 <= i < 7 && p in CLASSES[i]
  }

  lemma ClassLevel(p: Token, i: nat)
    requires i < 7 && p in CLASSES[i]
    ensures OpLevel(p) == [0, 1, 3, 4, 5, 6, 8][i]
  {
  }

  lemma {:induction false} Up(t: Tree, l: nat, k: nat)
    requires k <= l <= PRIMARY_LEVEL && In(l, t)
    ensures In(k, t)
    decreases l - k
  {
    hide In;
    if k < l {
      InIs(l - 1, t);
      Up(t, l - 1, k);
    }
  }

  /** a p b is of the level of p when its operands fit. */
  lemma OpIn(a: Tree, p: Token, b: Tree)
    requires p != Caret && HasLoop(OpLevel(p)) && In(OpLevel(p), a) && In(OpLevel(p) + 1, b)
    ensures In(OpLevel(p), Op(a, p, b))
  {
    hide In;
    InIs(OpLevel(p), Op(a, p, b));
  }

  lemma PowerIn(a: Tree, b: Tree)
    requires IsPrimary(a) && In(POWER_LEVEL, b)
    ensures In(POWER_LEVEL, Op(a, Caret, b))
  {
    PrimaryIs(a);
    InIs(POWER_LEVEL, Op(a, Caret, b));
  }

  lemma PairIn(a: Tree, p: Token, b: Tree)
    requires IsOperator(p) && IsPrimary(a) && IsPrimary(b)
    ensures OpLevel(p) <= POWER_LEVEL && In(OpLevel(p), Op(a, p, b))
  {
    hide In, IsPrimary;
    PrimaryIs(a);
    PrimaryIs(b);
    var i :| 0 <= i < 7 && p in CLASSES[i];
    ClassLevel(p, i);
    if p == Caret {
      Up(b, PRIMARY_LEVEL, POWER_LEVEL);
      PowerIn(a, b);
    } else {
      Up(a, PRIMARY_LEVEL, OpLevel(p));
      Up(b, PRIMARY_LEVEL, OpLevel(p) + 1);
      OpIn(a, p, b);
    }
  }

  lemma OneClass(p: Token, i: nat, k: nat)
    requires i < 7 && k < 7 && p in CLASSES[i] && p in CLASSES[k]
    ensures i == k
  {
    ClassLevel(p, i);
    ClassLevel(p, k);
  }

  lemma LeftFirstIs(p: Token, q: Token, i: nat, j: nat)
    requires i < 7 && j < 7 && p in CLASSES[i] && q in CLASSES[j]
    ensures LeftFirst(p, q) <==> i > j || (i == j && i != 6)
  {
    if LeftFirst(p, q) {
      var k, m :| 0 <= k < 7 && 0 <= m < 7 && p in CLASSES[k] && q in CLASSES[m] && (k > m || (k == m && k != 6));
      OneClass(p, i, k);
      OneClass(q, j, m);
    }
  }

  lemma LeftLevels(p: Token, q: Token, i: nat, j: nat)
    requires i < 7 && j < 7 && p in CLASSES[i] && q in CLASSES[j]
    ensures HasLoop(OpLevel(p)) || (p == Caret && i == 6)
    ensures HasLoop(OpLevel(q)) || (q == Caret && j == 6)
    ensures if LeftFirst(p, q) then OpLevel(q) <= OpLevel(p) && q != Caret else OpLevel(p) < OpLevel(q) || (p == Caret && q == Caret)
  {
    LeftFirstIs(p, q, i, j);
    hide LeftFirst;
    ClassLevel(p, i);
    ClassLevel(q, j);
  }

  /** The tree of a p b q c. */
  ghost function Grouped(a: Tree, p: Token, b: Tree, q: Token, c: Tree): Tree {
    if LeftFirst(p, q) then Op(Op(a, p, b), q, c) else Op(a, p, Op(b, q, c))
  }

  lemma LeftIn(a: Tree, p: Token, b: Tree, q: Token, c: Tree)
    requires HasLoop(OpLevel(q)) && q != Caret && OpLevel(q) <= OpLevel(p) <= POWER_LEVEL
    requires In(OpLevel(p), Op(a, p, b)) && IsPrimary(c)
    ensures In(OR_LEVEL, Op(Op(a, p, b), q, c))
  {
    hide In, IsPrimary;
    PrimaryIs(c);
    Up(Op(a, p, b), OpLevel(p), OpLevel(q));
    Up(c, PRIMARY_LEVEL, OpLevel(q) + 1);
    OpIn(Op(a, p, b), q, c);
    Up(Op(Op(a, p, b), q, c), OpLevel(q), OR_LEVEL);
  }

  lemma RightIn(a: Tree, p: Token, r: Tree, q: Token)
    requires IsPrimary(a) && OpLevel(q) <= POWER_LEVEL && In(OpLevel(q), r)
    requires if p == Caret then q == Caret else HasLoop(OpLevel(p)) && OpLevel(p) < OpLevel(q)
    ensures In(OR_LEVEL, Op(a, p, r))
  {
    hide In, IsPrimary;
    PrimaryIs(a);
    if p == Caret {
      PowerIn(a, r);
      Up(Op(a, p, r), POWER_LEVEL, OR_LEVEL);
    } else {
      Up(a, PRIMARY_LEVEL, OpLevel(p));
      Up(r, OpLevel(q), OpLevel(p) + 1);
      OpIn(a, p, r);
      Up(Op(a, p, r), OpLevel(p), OR_LEVEL);
    }
  }

  lemma GroupedIn(a: Tree, p: Token, b: Tree, q: Token, c: Tree)
    requires IsOperator(p) && IsOperator(q) && IsPrimary(a) && IsPrimary(b) && IsPrimary(c)
    ensures IsOr(Grouped(a, p, b, q, c))
  {
    hide In, IsPrimary, IsOr, LeftFirst;
    var i :| 0 <= i < 7 && p in CLASSES[i];
    var j :| 0 <= j < 7 && q in CLASSES[j];
    LeftLevels(p, q, i, j);
    PairIn(a, p, b);
    PairIn(b, q, c);
    hide IsOperator;
    if LeftFirst(p, q) {
      LeftIn(a, p, b, q, c);
    } else {
      RightIn(a, p, Op(b, q, c), q);
    }
    OrIs(Grouped(a, p, b, q, c));
  }

  lemma OrIs(t: Tree)
    ensures In(OR_LEVEL, t) <==> IsOr(t)
  {
  }

  lemma GroupedWords(a: Tree, p: Token, b: Tree, q: Token, c: Tree)
    ensures Words(Grouped(a, p, b, q, c)) == Words(a) + ([p] + (Words(b) + ([q] + Words(c))))
    ensures Depth(Grouped(a, p, b, q, c)) == Max(Depth(a), Max(Depth(b), Depth(c)))
  {
    hide LeftFirst;
    if LeftFirst(p, q) {
      var l := Op(a, p, b);
      assert Words(l) == Words(a) + ([p] + Words(b)) && Words(Op(l, q, c)) == Words(l) + ([q] + Words(c));
      hide Words;
      Assoc(Words(a), [p] + Words(b), [q] + Words(c));
      Assoc([p], Words(b), [q] + Words(c));
    } else {
      var r := Op(b, q, c);
      assert Words(r) == Words(b) + ([q] + Words(c)) && Words(Op(a, p, r)) == Words(a) + ([p] + Words(r));
    }
  }

  /** Two operators in a row, between primaries: numbers, texts, names, calls and parentheses. */
  lemma Chain(a: Tree, p: Token, b: Tree, q: Token, c: Tree, rest: seq<Token>, d: nat)
    requires IsOperator(p) && IsOperator(q) && IsPrimary(a) && IsPrimary(b) && IsPrimary(c) && Ends(rest)
    requires d + 1 + Depth(a) <= 64 && d + 1 + Depth(b) <= 64 && d + 1 + Depth(c) <= 64
    ensures ParseExpr(Words(a) + ([p] + (Words(b) + ([q] + Words(c)))) + rest, d) ==
      Ok(if LeftFirst(p, q) then Binary(q, Binary(p, Meaning(a), Meaning(b)), Meaning(c))
         else Binary(p, Meaning(a), Binary(q, Meaning(b), Meaning(c))), rest)
  {
    hide IsPrimary, IsOr, Words, Depth, Meaning, LeftFirst, ParseExpr, Grouped;
    GroupedIn(a, p, b, q, c);
    GroupedWords(a, p, b, q, c);
    GroupedMeaning(a, p, b, q, c);
    TextParsed(Grouped(a, p, b, q, c), rest, d);
  }

  lemma GroupedMeaning(a: Tree, p: Token, b: Tree, q: Token, c: Tree)
    ensures Meaning(Grouped(a, p, b, q, c)) ==
      if LeftFirst(p, q) then Binary(q, Binary(p, Meaning(a), Meaning(b)), Meaning(c))
      else Binary(p, Meaning(a), Binary(q, Meaning(b), Meaning(c)))
  {
    hide LeftFirst;
  }

  /** A number, a text or a name. */
  predicate Atom(x: Token) {
    x.Num? || x.Str? || x.Ident?
  }

  function AtomTree(x: Token): Tree
    requires Atom(x)
  {
    match x
    case Num(n) => Numeral(n)
    case Str(s) => Quoted(s)
    case Ident(name) => Name(name)
  }

  function AtomExpr(x: Token): Expr
    requires Atom(x)
  {
    match x
    case Num(n) => Number(n)
    case Str(s) => Text(s)
    case Ident(name) => Var(SmallLetters(name))
  }

  lemma AtomIs(x: Token)
    requires Atom(x)
    ensures IsPrimary(AtomTree(x)) && Words(AtomTree(x)) == [x] && Meaning(AtomTree(x)) == AtomExpr(x) && Depth(AtomTree(x)) == 0
  {
  }

  /** The five tokens a p b q c. */
  lemma FiveTokens(a: Token, p: Token, b: Token, q: Token, c: Token, rest: seq<Token>, d: nat)
    requires Atom(a) && Atom(b) && Atom(c) && IsOperator(p) && IsOperator(q) && Ends(rest) && d < 64
    ensures ParseExpr([a, p, b, q, c] + rest, d) ==
      Ok(if LeftFirst(p, q) then Binary(q, Binary(p, AtomExpr(a), AtomExpr(b)), AtomExpr(c))
         else Binary(p, AtomExpr(a), Binary(q, AtomExpr(b), AtomExpr(c))), rest)
  {
    AtomIs(a);
    AtomIs(b);
    AtomIs(c);
    hide AtomTree, AtomExpr, IsPrimary, LeftFirst, ParseExpr, Words, Meaning;
    assert [a] + ([p] + ([b] + ([q] + [c]))) == [a, p, b, q, c];
    Chain(AtomTree(a), p, AtomTree(b), q, AtomTree(c), rest, d);
  }

  /** NOT takes a whole comparison with everything tighter; AND, OR and XOR end it. */
  lemma NotBefore(a: Tree, p: Token, b: Tree, rest: seq<Token>, d: nat)
    requires IsOperator(p) && IsPrimary(a) && IsPrimary(b) && Ends(rest) && d + 2 + Depth(a) <= 64 && d + 2 + Depth(b) <= 64
    ensures ParseExpr([Not] + (Words(a) + ([p] + Words(b))) + rest, d) ==
      Ok(if p in {And, Or, Xor} then Binary(p, Invert(Meaning(a)), Meaning(b)) else Invert(Binary(p, Meaning(a), Meaning(b))), rest)
  {
    hide In, IsPrimary, IsOr, Words, Meaning, Depth, ParseExpr;
    var i :| 0 <= i < 7 && p in CLASSES[i];
    ClassLevel(p, i);
    PairIn(a, p, b);
    PrimaryIs(a);
    PrimaryIs(b);
    var t := if p in {And, Or, Xor} then Op(Negation(a), p, b) else Negation(Op(a, p, b));
    if p in {And, Or, Xor} {
      Up(a, PRIMARY_LEVEL, NOT_LEVEL);
      InIs(NOT_LEVEL, Negation(a));
      Up(Negation(a), NOT_LEVEL, OpLevel(p));
      Up(b, PRIMARY_LEVEL, OpLevel(p) + 1);
      OpIn(Negation(a), p, b);
      Up(t, OpLevel(p), OR_LEVEL);
    } else {
      Up(Op(a, p, b), OpLevel(p), NOT_LEVEL);
      InIs(NOT_LEVEL, t);
      Up(t, NOT_LEVEL, OR_LEVEL);
    }
    OrIs(t);
    NotWords(a, p, b, t);
    TextParsed(t, rest, d);
  }

  lemma NotWords(a: Tree, p: Token, b: Tree, t: Tree)
    requires t == if p in {And, Or, Xor} then Op(Negation(a), p, b) else Negation(Op(a, p, b))
    ensures Words(t) == [Not] + (Words(a) + ([p] + Words(b))) && Depth(t) <= 1 + Max(Depth(a), Depth(b))
    ensures Meaning(t) == if p in {And, Or, Xor} then Binary(p, Invert(Meaning(a)), Meaning(b)) else Invert(Binary(p, Meaning(a), Meaning(b)))
  {
    assert ([Not] + Words(a)) + ([p] + Words(b)) == [Not] + (Words(a) + ([p] + Words(b)));
  }

  /** A minus sign takes a power, and nothing looser; a plus sign likewise, and leaves no trace. */
  lemma SignBefore(a: Tree, p: Token, b: Tree, rest: seq<Token>, d: nat)
    requires IsOperator(p) && IsPrimary(a) && IsPrimary(b) && Ends(rest) && d + 2 + Depth(a) <= 64 && d + 2 + Depth(b) <= 64
    ensures ParseExpr([Minus] + (Words(a) + ([p] + Words(b))) + rest, d) ==
      Ok(if p == Caret then Neg(Binary(p, Meaning(a), Meaning(b))) else Binary(p, Neg(Meaning(a)), Meaning(b)), rest)
    ensures ParseExpr([Plus] + (Words(a) + ([p] + Words(b))) + rest, d) == Ok(Binary(p, Meaning(a), Meaning(b)), rest)
  {
    hide Words, Meaning, Depth, ParseExpr, SignTree, IsOr;
    SignTreeIn(false, a, p, b);
    SignTreeIn(true, a, p, b);
    SignTreeWords(false, a, p, b);
    SignTreeWords(true, a, p, b);
    TextParsed(SignTree(false, a, p, b), rest, d);
    TextParsed(SignTree(true, a, p, b), rest, d);
  }

  function Signed(plus: bool, t: Tree): Tree {
    if plus then Positive(t) else Negative(t)
  }

  function SignTree(plus: bool, a: Tree, p: Token, b: Tree): Tree {
    if p == Caret then Signed(plus, Op(a, p, b)) else Op(Signed(plus, a), p, b)
  }

  lemma SignTreeIn(plus: bool, a: Tree, p: Token, b: Tree)
    requires IsOperator(p) && IsPrimary(a) && IsPrimary(b)
    ensures IsOr(SignTree(plus, a, p, b))
  {
    hide In, IsPrimary, IsOr;
    var i :| 0 <= i < 7 && p in CLASSES[i];
    ClassLevel(p, i);
    PairIn(a, p, b);
    PrimaryIs(a);
    PrimaryIs(b);
    var t := SignTree(plus, a, p, b);
    if p == Caret {
      Up(Op(a, p, b), POWER_LEVEL, UNARY_LEVEL);
      InIs(UNARY_LEVEL, t);
      Up(t, UNARY_LEVEL, OR_LEVEL);
    } else {
      Up(a, PRIMARY_LEVEL, UNARY_LEVEL);
      InIs(UNARY_LEVEL, Signed(plus, a));
      Up(Signed(plus, a), UNARY_LEVEL, OpLevel(p));
      Up(b, PRIMARY_LEVEL, OpLevel(p) + 1);
      OpIn(Signed(plus, a), p, b);
      Up(t, OpLevel(p), OR_LEVEL);
    }
    OrIs(t);
  }

  lemma SignTreeWords(plus: bool, a: Tree, p: Token, b: Tree)
    ensures Words(SignTree(plus, a, p, b)) == [if plus then Plus else Minus] + (Words(a) + ([p] + Words(b)))
    ensures Depth(SignTree(plus, a, p, b)) <= 1 + Max(Depth(a), Depth(b))
    ensures Meaning(SignTree(plus, a, p, b)) ==
      if plus then Binary(p, Meaning(a), Meaning(b))
      else if p == Caret then Neg(Binary(p, Meaning(a), Meaning(b))) else Binary(p, Neg(Meaning(a)), Meaning(b))
  {
    var s := [if plus then Plus else Minus];
    var x, y := Signed(plus, a), Op(a, p, b);
    assert Words(x) == s + Words(a) && Words(y) == Words(a) + ([p] + Words(b));
    if p == Caret {
      assert Words(Signed(plus, y)) == s + Words(y);
    } else {
      assert Words(Op(x, p, b)) == Words(x) + ([p] + Words(b));
      hide Words;
      Assoc(s, Words(a), [p] + Words(b));
    }
  }

  /** 1 + 2 * 3 */
  lemma SumOfProduct()
    ensures ParseExpr([Num(1), Plus, Num(2), Star, Num(3)], 0) == Ok(Binary(Plus, Number(1), Binary(Star, Number(2), Number(3))), [])
  {
    LeftFirstIs(Plus, Star, 4, 5);
    assert Plus in CLASSES[4] && Star in CLASSES[5];
    hide LeftFirst, ParseExpr;
    FiveTokens(Num(1), Plus, Num(2), Star, Num(3), [], 0);
    assert [Num(1), Plus, Num(2), Star, Num(3)] + [] == [Num(1), Plus, Num(2), Star, Num(3)];
  }

  /** 8 - 3 - 2 */
  lemma TwoDifferences()
    ensures ParseExpr([Num(8), Minus, Num(3), Minus, Num(2)], 0) == Ok(Binary(Minus, Binary(Minus, Number(8), Number(3)), Number(2)), [])
  {
    LeftFirstIs(Minus, Minus, 4, 4);
    assert Minus in CLASSES[4];
    hide LeftFirst, ParseExpr;
    FiveTokens(Num(8), Minus, Num(3), Minus, Num(2), [], 0);
    assert [Num(8), Minus, Num(3), Minus, Num(2)] + [] == [Num(8), Minus, Num(3), Minus, Num(2)];
  }

  /** 2 ^ 3 ^ 2 */
  lemma TwoPowers()
    ensures ParseExpr([Num(2), Caret, Num(3), Caret, Num(2)], 0) == Ok(Binary(Caret, Number(2), Binary(Caret, Number(3), Number(2))), [])
  {
    LeftFirstIs(Caret, Caret, 6, 6);
    assert Caret in CLASSES[6];
    hide LeftFirst, ParseExpr;
    FiveTokens(Num(2), Caret, Num(3), Caret, Num(2), [], 0);
    assert [Num(2), Caret, Num(3), Caret, Num(2)] + [] == [Num(2), Caret, Num(3), Caret, Num(2)];
  }

  /** -2 ^ 2 */
  lemma MinusPower()
    ensures ParseExpr([Minus, Num(2), Caret, Num(2)], 0) == Ok(Neg(Binary(Caret, Number(2), Number(2))), [])
  {
    assert Caret in CLASSES[6];
    hide ParseExpr;
    SignBefore(Numeral(2), Caret, Numeral(2), [], 0);
    assert [Minus] + ([Num(2)] + ([Caret] + [Num(2)])) + [] == [Minus, Num(2), Caret, Num(2)];
  }

  lemma {:induction false} FailUp(l: nat, ts: seq<Token>, d: nat)
    requires l <= POWER_LEVEL && ParseLevel(POWER_LEVEL, ts, d) == Fail && Head(ts) !in {Not, Minus, Plus}
    ensures ParseLevel(l, ts, d) == Fail
    decreases POWER_LEVEL - l
  {
    hide ParseLevel;
    if l < POWER_LEVEL {
      FailUp(l + 1, ts, d);
      if HasLoop(l) {
        LoopLevel(l, ts, d);
      } else {
        PlainLevel(l, ts, d);
      }
    }
  }

  /** An exponent cannot begin with a sign: a ^ -b, a ^ +b and a ^ NOT b are no expressions. */
  lemma NoSignedExponent(a: Tree, s: Token, rest: seq<Token>, d: nat)
    requires IsPrimary(a) && s in {Minus, Plus, Not} && d < 64
    ensures ParseExpr(Words(a) + ([Caret] + ([s] + rest)), d) == Fail
  {
    hide ParseLevel, ParsePrimary, In, IsPrimary;
    var ts := Words(a) + ([Caret] + ([s] + rest));
    PrimaryIs(a);
    TreeParsed(a, PRIMARY_LEVEL, [Caret] + ([s] + rest), d + 1);
    PrimaryLevel(ts, d + 1);
    PowerLevel(ts, d + 1);
    assert ([Caret] + ([s] + rest))[1..] == [s] + rest;
    PowerLevel([s] + rest, d + 1);
    NoPrimary(s, rest, d + 1);
    FirstWord(a, PRIMARY_LEVEL);
    FailUp(OR_LEVEL, ts, d + 1);
  }

  lemma NoPrimary(s: Token, rest: seq<Token>, d: nat)
    requires s in {Minus, Plus, Not}
    ensures ParsePrimary([s] + rest, d) == Fail
  {
  }
}
