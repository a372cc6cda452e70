/** The decoder reads every file of the format, and reads it as the bytes the file stands for. */
module FormatDecoding {
  import opened Bits
  import opened Canonical
  import opened Trees
  import opened Headers
  import opened Runs
  import opened Lz
  import opened Blocks
  import opened Streams
  import opened Optional
  import Format

  // ---- bits ----

  lemma NumIsBits(v: nat, n: nat)
    ensures Format.Num(v, n) == BitsOf(v, n)
  {
    forall i | 0 <= i < n ensures Format.Num(v, n)[i] == BitsOf(v, n)[i] {
      BitsOfAt(v, n, i);
      ShrIsDiv(v, n - 1 - i);
    }
  }

  lemma BitsInBytes(s: seq<Byte>, b: seq<bool>)
    ensures Format.BitsIn(s, b) <==> b == BytesBits(s)
  {
    var c := BytesBits(s);
    forall i | 0 <= i < 8 * |s| ensures c[i] == (s[i / 8] / Pow2(7 - i % 8) % 2 == 1) {
      BytesBitsAt(s, i);
      ShrIsDiv(s[i / 8], 7 - i % 8);
    }
    hide BytesBits, Pow2;
    if Format.BitsIn(s, b) {
      assert forall i :: 0 <= i < |b| ==> b[i] == c[i];
    }
  }

  lemma WordIsLe32(s: seq<Byte>)
    requires |s| == 4
    ensures Format.Word(s) == Le32(s)
  {
  }

  // ---- lengths ----

  lemma {:induction false} Ones(n: nat)
    ensures OneBits(n) == seq(n, _ => true)
  {
  }

  lemma LengthIsLenBits(l: nat)
    ensures Format.Length(l) == LenBits(l)
  {
    if l <= 6 {
      NumIsBits(l, 3);
    } else {
      LongLenBits(l);
      assert OneBits(3) == [true, true, true];
    }
  }

  lemma ReadLength(l: nat, b: seq<bool>, pos: nat, n: nat, nn: nat, special: int, acc: seq<nat>)
    requires At(b, pos, Format.Length(l)) && |acc| < n <= nn && l <= 16 && special != |acc| + 1
    ensures ReadLens(b, pos, n, nn, special, acc) == ReadLens(b, pos + |Format.Length(l)|, n, nn, special, acc + [l])
  {
    hide At, Format.Length, ReadLen;
    LengthIsLenBits(l);
    LenRoundTrip(l, b, pos);
  }

  /** A list of lengths that the special position does not divide. */
  lemma {:induction false} ReadLengths(ls: seq<nat>, b: seq<bool>, pos: nat, n: nat, nn: nat, special: int, acc: seq<nat>)
    requires At(b, pos, Format.Lengths(ls)) && |acc| + |ls| <= n <= nn && (forall i :: 0 <= i < |ls| ==> ls[i] <= 16)
    requires special <= |acc| || |acc| + |ls| < special
    ensures ReadLens(b, pos, n, nn, special, acc) == ReadLens(b, pos + |Format.Lengths(ls)|, n, nn, special, acc + ls)
    decreases |ls|
  {
    hide At, Format.Length, ReadLens;
    if ls == [] {
      assert acc + ls == acc;
    } else {
      var x, rest := Format.Length(ls[0]), Format.Lengths(ls[1..]);
      AtConcat(b, pos, x, rest);
      ReadLength(ls[0], b, pos, n, nn, special, acc);
      ReadLengths(ls[1..], b, pos + |x|, n, nn, special, acc + [ls[0]]);
      assert acc + [ls[0]] + ls[1..] == acc + ls;
    }
  }

  // ---- codes ----

  lemma {:induction false} SpaceIsKraft(lens: seq<nat>, n: nat)
    requires n <= |lens| && forall i :: 0 <= i < |lens| ==> lens[i] <= 16
    ensures Format.Space(lens, n) == KraftUpTo(lens, MAXLEN, n)
  {
    if n > 0 {
      SpaceIsKraft(lens, n - 1);
    }
  }

  lemma FullIsComplete(lens: seq<nat>)
    ensures Format.Full(lens) <==> Complete(lens)
  {
    Pow2Values();
    if forall i :: 0 <= i < |lens| ==> lens[i] <= 16 {
      SpaceIsKraft(lens, |lens|);
    }
  }

  /** The space of the shorter codes below n, in units of 2^-l. */
  function Shorter(lens: seq<nat>, l: nat, n: nat): nat
    requires n <= |lens|
  {
    if n == 0 then 0 else Shorter(lens, l, n - 1) + (if 0 < lens[n - 1] < l then Pow2(l - lens[n - 1]) else 0)
  }

  lemma {:induction false} BeforeParts(lens: seq<nat>, s: nat, n: nat)
    requires s < |lens| && n <= |lens| && lens[s] > 0
    ensures Format.Before(lens, s, n) == Shorter(lens, lens[s], n) + Count(lens, lens[s], if n <= s then n else s)
  {
    if n > 0 {
      BeforeParts(lens, s, n - 1);
      assert Pow2(0) == 1;
    }
  }

  lemma {:induction false} ShorterStep(lens: seq<nat>, l: nat, n: nat)
    requires n <= |lens| && l > 0
    ensures Shorter(lens, l + 1, n) == 2 * (Shorter(lens, l, n) + Count(lens, l, n))
  {
    if n > 0 {
      ShorterStep(lens, l, n - 1);
      assert Pow2(1) == 2;
    }
  }

  lemma {:induction false} ShorterNone(lens: seq<nat>, n: nat)
    requires n <= |lens|
    ensures Shorter(lens, 1, n) == 0
  {
    if n > 0 {
      ShorterNone(lens, n - 1);
    }
  }

  lemma {:induction false} FirstIsShorter(lens: seq<nat>, l: nat)
    requires l > 0
    ensures First(lens, l) == Shorter(lens, l, |lens|)
  {
    if l == 1 {
      ShorterNone(lens, |lens|);
      assert First(lens, 1) == 2 * End(lens, 0);
    } else {
      FirstIsShorter(lens, l - 1);
      ShorterStep(lens, l - 1, |lens|);
    }
  }

  lemma CodeIsBits(lens: seq<nat>, s: nat)
    requires s < |lens| && lens[s] > 0
    ensures Format.Code(lens, s) == CodeBits(lens, s)
  {
    BeforeParts(lens, s, |lens|);
    FirstIsShorter(lens, lens[s]);
    NumIsBits(CodeVal(lens, s), lens[s]);
  }

  /** The tree of a table of size symbols. */
  function TreeOf(t: Format.Table, size: nat): Tree {
    match t
    case Listed(_, lens) => Tree(lens, -1)
    case Only(sym) => Tree(Zeros(size), sym)
  }

  lemma SymIsCode(t: Format.Table, size: nat, width: nat, s: nat)
    requires Format.TableOk(t, size, width)
    ensures Format.Usable(t, s) <==> Codes(TreeOf(t, size), s)
    ensures Format.Usable(t, s) ==> Format.Sym(t, s) == EncodeSym(TreeOf(t, size), s)
  {
    if t.Listed? {
      FullIsComplete(t.lens);
      if Format.Usable(t, s) {
        CodeIsBits(t.lens, s);
      }
    }
  }

  // ---- headers ----

  lemma NumRead(b: seq<bool>, pos: nat, v: nat, n: nat)
    requires At(b, pos, Format.Num(v, n)) && v < Pow2(n)
    ensures Peek(b, pos, n) == v
  {
    NumIsBits(v, n);
    PeekBitsOf(b, pos, v, n);
  }

  lemma OnlyRead(sym: nat, b: seq<bool>, pos: nat, nn: nat, nbit: nat, special: int)
    requires sym < Pow2(nbit) && At(b, pos, Format.Num(0, nbit) + Format.Num(sym, nbit))
    ensures ReadPt(b, pos, nn, nbit, special) == Got(Tree(Zeros(nn), sym), pos + 2 * nbit)
  {
    hide At, Peek;
    AtConcat(b, pos, Format.Num(0, nbit), Format.Num(sym, nbit));
    NumRead(b, pos, 0, nbit);
    NumRead(b, pos + nbit, sym, nbit);
  }

  lemma ZerosBehind(t: Format.Table, size: nat, width: nat)
    requires Format.TableOk(t, size, width) && t.Listed?
    ensures t.lens == t.lens[..t.n] + Zeros(size - t.n)
  {
  }

  lemma PRead(t: Format.Table, b: seq<bool>, pos: nat)
    requires Format.TableOk(t, 14, 4) && At(b, pos, Format.PText(t))
    ensures ReadPt(b, pos, NP, PBIT, -1) == Got(TreeOf(t, 14), pos + |Format.PText(t)|)
  {
    hide At, Peek, ReadLens, Format.Full, Complete, Format.Lengths, Format.Num;
    match t {
      case Only(sym) => OnlyRead(sym, b, pos, NP, PBIT, -1);
      case Listed(n, lens) =>
        var ls := lens[..n];
        AtConcat(b, pos, Format.Num(n, 4), Format.Lengths(ls));
        NumRead(b, pos, n, 4);
        LensBounded(lens);
        ReadLengths(ls, b, pos + 4, n, NP, -1, []);
        assert [] + ls == ls;
        ZerosBehind(t, 14, 4);
        FullIsComplete(lens);
        ReadDone(b, pos + 4 + |Format.Lengths(ls)|, n, NP, -1, ls);
        ReadPtLens(b, pos, Tree(lens, -1), PBIT, -1, n, pos + 4 + |Format.Lengths(ls)|);
    }
  }

  lemma LensBounded(lens: seq<nat>)
    requires Format.Full(lens)
    ensures forall i :: 0 <= i < |lens| ==> lens[i] <= 16
  {
  }

  lemma ReadDone(b: seq<bool>, pos: nat, n: nat, nn: nat, special: int, acc: seq<nat>)
    requires |acc| == n <= nn
    ensures ReadLens(b, pos, n, nn, special, acc) == (acc, pos)
  {
  }

  /** The third length and the two bits behind it. */
  lemma ReadThird(l: nat, skip: nat, b: seq<bool>, pos: nat, n: nat, acc: seq<nat>)
    requires At(b, pos, Format.Length(l) + Format.Num(skip, 2)) && |acc| == 2 && n >= 3 && n <= NT && l <= 16 && skip <= 3
    ensures ReadLens(b, pos, n, NT, 3, acc)
      == ReadLens(b, pos + |Format.Length(l)| + 2, n, NT, 3, acc + [l] + Zeros(skip))
  {
    hide At, Peek, ReadLen, Format.Length;
    AtConcat(b, pos, Format.Length(l), Format.Num(skip, 2));
    LengthIsLenBits(l);
    LenRoundTrip(l, b, pos);
    assert Pow2(2) == 4;
    NumRead(b, pos + |Format.Length(l)|, skip, 2);
  }

  lemma {:induction false} LengthsConcat(a: seq<nat>, c: seq<nat>)
    ensures Format.Lengths(a + c) == Format.Lengths(a) + Format.Lengths(c)
  {
    hide Format.Length;
    if a == [] {
      assert a + c == c;
    } else {
      assert (a + c)[1..] == a[1..] + c;
      LengthsConcat(a[1..], c);
      Assoc(Format.Length(a[0]), Format.Lengths(a[1..]), Format.Lengths(c));
    }
  }

  lemma LengthsOne(l: nat)
    ensures Format.Lengths([l]) == Format.Length(l)
  {
    assert [l][1..] == [];
  }

  /** Three lengths or more, with the skip. */
  lemma ReadSkipped(n: nat, lens: seq<nat>, skip: nat, b: seq<bool>, pos: nat)
    requires |lens| == NT && 3 + skip <= n <= NT && skip <= 3 && (forall i :: 0 <= i < NT ==> lens[i] <= 16)
    requires forall i :: 3 <= i < 3 + skip ==> lens[i] == 0
    requires At(b, pos, Format.Lengths(lens[..3]) + (Format.Num(skip, 2) + Format.Lengths(lens[3 + skip..n])))
    ensures ReadLens(b, pos, n, NT, 3, [])
      == (lens[..n], pos + |Format.Lengths(lens[..3])| + 2 + |Format.Lengths(lens[3 + skip..n])|)
  {
    hide At, ReadLens, Format.Length, Format.Lengths;
    var two, third, more := lens[..2], lens[2], lens[3 + skip..n];
    assert lens[..3] == two + [third];
    LengthsConcat(two, [third]);
    LengthsOne(third);
    var x, y, z, e := Format.Lengths(two), Format.Length(third), Format.Num(skip, 2), Format.Lengths(more);
    assert (x + y) + (z + e) == x + ((y + z) + e);
    AtConcat(b, pos, x, (y + z) + e);
    AtConcat(b, pos + |x|, y + z, e);
    ReadLengths(two, b, pos, n, NT, 3, []);
    assert [] + two == two;
    ReadThird(third, skip, b, pos + |x|, n, two);
    var acc := two + [third] + Zeros(skip);
    assert acc == lens[..3 + skip];
    ReadLengths(more, b, pos + |x| + |y| + 2, n, NT, 3, acc);
    assert acc + more == lens[..n];
    ReadDone(b, pos + |x| + |y| + 2 + |e|, n, NT, 3, lens[..n]);
  }

  lemma TRead(t: Format.Table, skip: nat, b: seq<bool>, pos: nat)
    requires Format.TableOk(t, 19, 5) && Format.SkipOk(t, skip) && At(b, pos, Format.TText(t, skip))
    ensures ReadPt(b, pos, NT, TBIT, 3) == Got(TreeOf(t, 19), pos + |Format.TText(t, skip)|)
  {
    hide At, Peek, ReadLens, Format.Full, Complete, Format.Lengths, Format.Num;
    match t {
      case Only(sym) => OnlyRead(sym, b, pos, NT, TBIT, 3);
      case Listed(n, lens) =>
        LensBounded(lens);
        FullIsComplete(lens);
        ZerosBehind(t, 19, 5);
        var end := pos + |Format.TText(t, skip)|;
        if n < 3 {
          var ls := lens[..n];
          AtConcat(b, pos, Format.Num(n, 5), Format.Lengths(ls));
          ReadLengths(ls, b, pos + 5, n, NT, 3, []);
          assert [] + ls == ls;
          ReadDone(b, end, n, NT, 3, ls);
        } else {
          AtConcat(b, pos, Format.Num(n, 5), Format.Lengths(lens[..3]) + (Format.Num(skip, 2) + Format.Lengths(lens[3 + skip..n])));
          ReadSkipped(n, lens, skip, b, pos + 5);
        }
        NumRead(b, pos, n, 5);
        ReadPtLens(b, pos, Tree(lens, -1), TBIT, 3, n, end);
    }
  }

  // ---- the C lengths ----

  function RunOf(x: Format.Item): Run {
    match x
    case OneZero => Zero
    case SomeZeros(z) => Short(z)
    case ManyZeros(z) => Long(z)
    case Len(l) => Run.Len(l)
  }

  function RunsOfItems(xs: seq<Format.Item>): (rs: seq<Run>)
    ensures |rs| == |xs|
  {
    if xs == [] then [] else [RunOf(xs[0])] + RunsOfItems(xs[1..])
  }

  lemma RunIsItem(x: Format.Item, t: Format.Table)
    requires Format.TableOk(t, 19, 5) && Format.ItemOk(x, t)
    ensures RunOk(RunOf(x)) && Codes(TreeOf(t, 19), RunSym(RunOf(x)))
    ensures RunBits(RunOf(x), TreeOf(t, 19)) == Format.ItemText(x, t) && RunLens(RunOf(x)) == Format.ItemLens(x)
  {
    hide Format.TableOk, Format.Usable, Format.Sym, Codes, EncodeSym, BitsOf, Format.Num;
    SymIsCode(t, 19, 5, RunSym(RunOf(x)));
    match x {
      case SomeZeros(z) => NumIsBits(z - 3, 4);
      case ManyZeros(z) => NumIsBits(z - 20, 9);
      case _ => assert Format.ItemText(x, t) + [] == Format.ItemText(x, t);
    }
  }

  lemma {:induction false} RunsAreItems(xs: seq<Format.Item>, t: Format.Table)
    requires Format.TableOk(t, 19, 5) && forall i :: 0 <= i < |xs| ==> Format.ItemOk(xs[i], t)
    ensures Coded(RunsOfItems(xs), TreeOf(t, 19))
    ensures RunsBits(RunsOfItems(xs), TreeOf(t, 19)) == Format.ItemsText(xs, t)
    ensures LensOfRuns(RunsOfItems(xs)) == Format.ItemsLens(xs)
  {
    hide Format.TableOk, Format.ItemOk, RunOk, Codes, RunBits, RunLens, Format.ItemText, Format.ItemLens;
    if xs != [] {
      RunIsItem(xs[0], t);
      RunsAreItems(xs[1..], t);
      assert RunsOfItems(xs)[1..] == RunsOfItems(xs[1..]);
    }
  }

  lemma ReadCLens(b: seq<bool>, pos: nat, tt: Tree, lens: seq<nat>, n: nat, end: nat)
    requires 0 < n == Peek(b, pos, CBIT) && n <= NC == |lens| && Complete(lens)
    requires ReadRuns(b, pos + CBIT, n, tt, []) == Got(lens[..n], end) && lens == lens[..n] + Zeros(NC - n)
    ensures ReadC(b, pos, tt) == Got(Tree(lens, -1), end)
  {
    hide Complete, Peek, ReadRuns;
  }

  lemma CRead(c: Format.Table, xs: seq<Format.Item>, t: Format.Table, b: seq<bool>, pos: nat)
    requires Format.TableOk(c, 510, 9) && Format.TableOk(t, 19, 5) && Format.ItemsOk(c, xs, t)
    requires At(b, pos, Format.CText(c, xs, t))
    ensures ReadC(b, pos, TreeOf(t, 19)) == Got(TreeOf(c, 510), pos + |Format.CText(c, xs, t)|)
  {
    hide At, Peek, ReadRuns, Format.Full, Complete, RunsBits, LensOfRuns, Format.ItemsText, Coded, Format.ItemOk, Format.Num;
    match c {
      case Only(sym) =>
        AtConcat(b, pos, Format.Num(0, 9), Format.Num(sym, 9));
        NumRead(b, pos, 0, 9);
        NumRead(b, pos + 9, sym, 9);
      case Listed(n, lens) =>
        AtConcat(b, pos, Format.Num(n, 9), Format.ItemsText(xs, t));
        NumRead(b, pos, n, 9);
        RunsAreItems(xs, t);
        FullIsComplete(lens);
        RunsRoundTrip(RunsOfItems(xs), TreeOf(t, 19), b, pos + 9, n, []);
        assert [] + lens[..n] == lens[..n];
        ZerosBehind(c, 510, 9);
        ReadCLens(b, pos, TreeOf(t, 19), lens, n, pos + 9 + |Format.ItemsText(xs, t)|);
    }
  }

  // ---- tokens ----

  function TokOf(x: Format.Token): Tok {
    match x
    case Literal(c) => Tok(c, 0)
    case Copy(len, dist, _) => Tok(len + 253, if dist > 0 then dist - 1 else 0)
  }

  function ToksOf(xs: seq<Format.Token>): (ts: seq<Tok>)
    ensures |ts| == |xs|
  {
    if xs == [] then [] else [TokOf(xs[0])] + ToksOf(xs[1..])
  }

  lemma {:induction false} ClassIs(d: nat, k: nat)
    requires if k == 0 then d == 0 else Pow2(k - 1) <= d < Pow2(k)
    ensures PosClass(d) == k
  {
    if k > 1 {
      ClassIs(d / 2, k - 1);
    }
  }

  lemma TokIsToken(x: Format.Token, c: Format.Table, p: Format.Table)
    requires Format.TableOk(c, 510, 9) && Format.TableOk(p, 14, 4) && Format.TokenOk(x, c, p)
    ensures TokCoded(TokOf(x), TreeOf(c, 510), TreeOf(p, 14))
    ensures TokBits(TokOf(x), TreeOf(c, 510), TreeOf(p, 14)) == Format.TokenText(x, c, p)
  {
    hide Format.TableOk, Format.Usable, Format.Sym, Codes, EncodeSym, BitsOf, Format.Num, PosClass;
    SymIsCode(c, 510, 9, TokOf(x).sym);
    match x {
      case Literal(b) => assert Format.TokenText(x, c, p) + [] == Format.TokenText(x, c, p);
      case Copy(len, dist, k) =>
        ClassIs(dist - 1, k);
        SymIsCode(p, 14, 4, k);
        if k >= 2 {
          NumIsBits(dist - 1 - Pow2(k - 1), k - 1);
        }
    }
  }

  lemma {:induction false} ToksAreTokens(xs: seq<Format.Token>, c: Format.Table, p: Format.Table)
    requires Format.TableOk(c, 510, 9) && Format.TableOk(p, 14, 4) && forall i :: 0 <= i < |xs| ==> Format.TokenOk(xs[i], c, p)
    ensures AllCoded(ToksOf(xs), TreeOf(c, 510), TreeOf(p, 14))
    ensures ToksBits(ToksOf(xs), TreeOf(c, 510), TreeOf(p, 14)) == Format.TokensText(xs, c, p)
  {
    hide Format.TableOk, Format.TokenOk, TokCoded, TokBits, Format.TokenText;
    if xs != [] {
      TokIsToken(xs[0], c, p);
      ToksAreTokens(xs[1..], c, p);
      assert ToksOf(xs)[1..] == ToksOf(xs[1..]);
    }
  }

  lemma SpellsMatch(s: seq<Byte>, at: nat, dist: nat, len: nat)
    requires 1 <= dist <= at && at + len <= |s| && forall k :: at <= k < at + len ==> s[k] == s[k - dist]
    ensures TrueMatch(s, at, dist, len)
  {
  }

  lemma TokExpands(x: Format.Token, s: seq<Byte>, at: nat)
    requires Format.Spells(x, s, at) && (x.Copy? ==> x.len >= 3)
    ensures at + Format.Size(x) <= |s| && Expandable(s[..at], TokOf(x))
    ensures ExpandTok(s[..at], TokOf(x)) == s[..at + Format.Size(x)]
  {
    match x
    case Literal(c) => assert s[..at + 1] == s[..at] + [c];
    case Copy(len, dist, _) =>
      SpellsMatch(s, at, dist, len);
      RepeatMatch(s, at, dist, len);
  }

  lemma {:induction false} ToksExpand(xs: seq<Format.Token>, s: seq<Byte>, at: nat, end: nat)
    requires Format.SpellAll(xs, s, at, end) && at <= |s| && forall i :: 0 <= i < |xs| ==> (xs[i].Copy? ==> xs[i].len >= 3)
    ensures at <= end <= |s| && Expands(s[..at], ToksOf(xs), s[..end])
    ensures |xs| > 0 ==> at < end
    decreases |xs|
  {
    hide ExpandTok, Expandable, Format.Spells;
    if xs != [] {
      TokExpands(xs[0], s, at);
      ToksExpand(xs[1..], s, at + Format.Size(xs[0]), end);
      assert ToksOf(xs)[1..] == ToksOf(xs[1..]);
    }
  }

  // ---- blocks and files ----

  lemma FiveParts(b: seq<bool>, pos: nat, n: seq<bool>, t: seq<bool>, c: seq<bool>, p: seq<bool>, x: seq<bool>)
    requires At(b, pos, n + (t + (c + (p + x))))
    ensures At(b, pos, n) && At(b, pos + |n|, t) && At(b, pos + |n| + |t|, c)
    ensures At(b, pos + |n| + |t| + |c|, p) && At(b, pos + |n| + |t| + |c| + |p|, x)
  {
    hide At;
    AtConcat(b, pos, n, t + (c + (p + x)));
    AtConcat(b, pos + |n|, t, c + (p + x));
    AtConcat(b, pos + |n| + |t|, c, p + x);
    AtConcat(b, pos + |n| + |t| + |c|, p, x);
  }

  lemma HeadRead(k: Format.Block, b: seq<bool>, pos: nat, t: seq<bool>, c: seq<bool>, p: seq<bool>)
    requires |k.tokens| < 65536 && Format.TableOk(k.t, 19, 5) && Format.SkipOk(k.t, k.skip) && Format.TableOk(k.c, 510, 9)
    requires Format.TableOk(k.p, 14, 4) && Format.ItemsOk(k.c, k.items, k.t)
    requires t == Format.TText(k.t, k.skip) && c == Format.CText(k.c, k.items, k.t) && p == Format.PText(k.p)
    requires At(b, pos, Format.Num(|k.tokens|, 16)) && At(b, pos + 16, t) && At(b, pos + 16 + |t|, c) && At(b, pos + 16 + |t| + |c|, p)
    ensures ReadHead(b, pos) == Got(Head(|k.tokens|, TreeOf(k.c, 510), TreeOf(k.p, 14)), pos + 16 + |t| + |c| + |p|)
  {
    hide At, Peek, ReadPt, ReadC, Format.Num, Format.TableOk, Format.SkipOk, Format.ItemsOk, Format.TText, Format.CText, Format.PText, TreeOf;
    Pow2Values();
    NumRead(b, pos, |k.tokens|, 16);
    TRead(k.t, k.skip, b, pos + 16);
    CRead(k.c, k.items, k.t, b, pos + 16 + |t|);
    PRead(k.p, b, pos + 16 + |t| + |c|);
  }

  lemma LongCopies(k: Format.Block)
    requires Format.BlockOk(k)
    ensures forall i :: 0 <= i < |k.tokens| ==> (k.tokens[i].Copy? ==> k.tokens[i].len >= 3)
  {
  }

  lemma BlockSplit(k: Format.Block, b: seq<bool>, pos: nat)
    returns (t: seq<bool>, c: seq<bool>, p: seq<bool>, x: seq<bool>)
    requires Format.BlockOk(k) && At(b, pos, Format.BlockText(k))
    ensures t == Format.TText(k.t, k.skip) && c == Format.CText(k.c, k.items, k.t) && p == Format.PText(k.p)
    ensures x == Format.TokensText(k.tokens, k.c, k.p) && |Format.BlockText(k)| == 16 + |t| + |c| + |p| + |x|
    ensures At(b, pos, Format.Num(|k.tokens|, 16)) && At(b, pos + 16, t) && At(b, pos + 16 + |t|, c)
    ensures At(b, pos + 16 + |t| + |c|, p) && At(b, pos + 16 + |t| + |c| + |p|, x)
  {
    hide At, Format.TText, Format.CText, Format.PText, Format.TokensText, Format.Num, Format.TokenOk, Format.ItemOk, Format.Full, Format.ItemsLens;
    t, c, p := Format.TText(k.t, k.skip), Format.CText(k.c, k.items, k.t), Format.PText(k.p);
    x := Format.TokensText(k.tokens, k.c, k.p);
    assert Format.BlockText(k) == Format.Num(|k.tokens|, 16) + (t + (c + (p + x)));
    FiveParts(b, pos, Format.Num(|k.tokens|, 16), t, c, p, x);
  }

  lemma BlockRead(k: Format.Block, b: seq<bool>, pos: nat, s: seq<Byte>, at: nat, end: nat)
    requires Format.BlockOk(k) && At(b, pos, Format.BlockText(k)) && at <= |s| && Format.SpellAll(k.tokens, s, at, end)
    ensures at < end <= |s| && ReadBlock(b, pos, s[..at], |s|) == Got(s[..end], pos + |Format.BlockText(k)|)
  {
    hide *;
    LongCopies(k);
    BlockParts(k);
    var t, c, p, x := BlockSplit(k, b, pos);
    HeadRead(k, b, pos, t, c, p);
    ToksAreTokens(k.tokens, k.c, k.p);
    ToksExpand(k.tokens, s, at, end);
    var h := pos + 16 + |t| + |c| + |p|;
    ToksRoundTrip(ToksOf(k.tokens), TreeOf(k.c, 510), TreeOf(k.p, 14), b, h, s[..at], s[..end], |s|);
    ReadParts(b, pos, |k.tokens|, TreeOf(k.c, 510), TreeOf(k.p, 14), h, s[..at], |s|);
  }

  lemma BlockParts(k: Format.Block)
    requires Format.BlockOk(k)
    ensures |k.tokens| < 65536 && Format.TableOk(k.t, 19, 5) && Format.SkipOk(k.t, k.skip) && Format.TableOk(k.c, 510, 9)
    ensures 0 < |k.tokens| && Format.TableOk(k.p, 14, 4) && Format.ItemsOk(k.c, k.items, k.t)
    ensures forall i :: 0 <= i < |k.tokens| ==> Format.TokenOk(k.tokens[i], k.c, k.p)
  {
  }

  lemma ReadParts(b: seq<bool>, pos: nat, n: nat, ct: Tree, pt: Tree, h: nat, out: seq<Byte>, osize: nat)
    requires ReadHead(b, pos) == Got(Head(n, ct, pt), h) && |out| <= osize
    ensures ReadBlock(b, pos, out, osize) == ReadToks(b, h, n, ct, pt, out, osize)
  {
    hide ReadHead, ReadToks;
  }

  lemma {:induction false} BlocksRead(ks: seq<Format.Block>, b: seq<bool>, pos: nat, s: seq<Byte>, at: nat, csize: nat)
    requires Format.BlocksAt(ks, b, pos, s, at) && |b| == 8 * csize && csize < 0xFFFF_FFFF && at <= |s| && pos <= |b|
    ensures ReadBlocks(b, pos, s[..at], |s|, csize) == Some(s)
    decreases ks
  {
    hide ReadBlock, Format.BlockOk, Format.BlockText, Format.SpellAll;
    if ks == [] {
      assert s[..at] == s;
    } else {
      var e := pos + |Format.BlockText(ks[0])|;
      var m :| Format.SpellAll(ks[0].tokens, s, at, m) && Format.BlocksAt(ks[1..], b, e, s, m);
      BlockRead(ks[0], b, pos, s, at, m);
      BlocksRead(ks[1..], b, e, s, m, csize);
    }
  }

  /** Every file that stands for s is decoded to s. */
  lemma StandsDecodes(file: seq<Byte>, s: seq<Byte>)
    requires Format.Stands(file, s)
    ensures Decode(file) == Some(s)
  {
    hide ReadBlocks, Le32, Format.Word, Format.BlocksAt, Format.BitsIn;
    WordIsLe32(file[..4]);
    WordIsLe32(file[4..8]);
    var csize := Le32(file[..4]);
    var ks, b :| Format.BitsIn(file[8..8 + csize], b) && Format.BlocksAt(ks, b, 0, s, 0);
    BitsInBytes(file[8..8 + csize], b);
    BlocksRead(ks, b, 0, s, 0, csize);
    assert s[..0] == [];
  }

  // ---- what is refused ----

  /** A file too short for its header or for the size in it, or with too large an output. */
  lemma HeaderRefused(file: seq<Byte>)
    requires |file| >= 8 ==> Format.Word(file[..4]) > |file| - 8 || Format.Word(file[4..8]) > 0x4000_0000
    ensures Decode(file) == None
  {
    if |file| >= 8 {
      WordIsLe32(file[..4]);
      WordIsLe32(file[4..8]);
    }
  }

  lemma {:induction false} ToksBegin(ts: seq<Tok>, us: seq<Tok>, ct: Tree, pt: Tree, b: seq<bool>, pos: nat,
                                     out: seq<Byte>, r: seq<Byte>, osize: nat)
    returns (p: nat)
    requires AllCoded(ts + us, ct, pt) && At(b, pos, ToksBits(ts + us, ct, pt))
    requires Expands(out, ts, r) && |r| <= osize && |out| <= osize
    ensures AllCoded(us, ct, pt) && At(b, p, ToksBits(us, ct, pt))
    ensures ReadToks(b, pos, |ts| + |us|, ct, pt, out, osize) == ReadToks(b, p, |us|, ct, pt, r, osize)
    decreases ts
  {
    hide At, TokBits, TokCoded, ExpandTok, Expandable, ReadToks;
    if ts == [] {
      assert ts + us == us;
      p := pos;
    } else {
      var t := ts[0];
      assert (ts + us)[1..] == ts[1..] + us && (ts + us)[0] == t;
      AtConcat(b, pos, TokBits(t, ct, pt), ToksBits(ts[1..] + us, ct, pt));
      ExpandsGrows(ExpandTok(out, t), ts[1..], r);
      TokRoundTrip(t, |ts| + |us|, ct, pt, b, pos, out, osize);
      p := ToksBegin(ts[1..], us, ct, pt, b, pos + |TokBits(t, ct, pt)|, ExpandTok(out, t), r, osize);
    }
  }

  /** A match that begins before the output is bad data. */
  lemma FarFails(us: seq<Tok>, ct: Tree, pt: Tree, b: seq<bool>, p: nat, out: seq<Byte>, osize: nat)
    requires us != [] && AllCoded(us, ct, pt) && At(b, p, ToksBits(us, ct, pt)) && |out| < osize
    requires us[0].sym >= 256 && us[0].pos >= |out|
    ensures ReadToks(b, p, |us|, ct, pt, out, osize) == Fail
  {
    hide At, TokBits, TokCoded, ReadToks;
    AtConcat(b, p, TokBits(us[0], ct, pt), ToksBits(us[1..], ct, pt));
    FarToken(us[0], |us|, ct, pt, b, p, out, osize);
  }

  lemma FarToken(t: Tok, k: nat, ct: Tree, pt: Tree, b: seq<bool>, p: nat, out: seq<Byte>, osize: nat)
    requires TokCoded(t, ct, pt) && At(b, p, TokBits(t, ct, pt)) && k > 0 && |out| < osize
    requires t.sym >= 256 && t.pos >= |out|
    ensures ReadToks(b, p, k, ct, pt, out, osize) == Fail
  {
    hide At, DecodeSym, EncodeSym, Codes, ReadPos, PosExtra, PosClass, Copy;
    AtConcat(b, p, EncodeSym(ct, t.sym), EncodeSym(pt, PosClass(t.pos)) + PosExtra(t.pos));
    DecodeEncode(ct, t.sym, b, p);
    PosRoundTrip(t.pos, pt, b, p + |EncodeSym(ct, t.sym)|);
  }

  lemma {:induction false} ToksOfConcat(xs: seq<Format.Token>, ys: seq<Format.Token>)
    ensures ToksOf(xs + ys) == ToksOf(xs) + ToksOf(ys)
  {
    hide TokOf;
    if xs == [] {
      assert xs + ys == ys;
    } else {
      ToksOfConcat(xs[1..], ys);
      assert (xs + ys)[1..] == xs[1..] + ys;
    }
  }

  lemma LongBegin(xs: seq<Format.Token>, ys: seq<Format.Token>)
    requires forall i :: 0 <= i < |xs + ys| ==> ((xs + ys)[i].Copy? ==> (xs + ys)[i].len >= 3)
    ensures forall i :: 0 <= i < |xs| ==> (xs[i].Copy? ==> xs[i].len >= 3)
    ensures ys != [] ==> (ys[0].Copy? ==> ys[0].len >= 3)
  {
    forall i | 0 <= i < |xs| ensures xs[i].Copy? ==> xs[i].len >= 3 {
      assert xs[i] == (xs + ys)[i];
    }
    assert ys != [] ==> ys[0] == (xs + ys)[|xs|];
  }

  lemma FarTok(ys: seq<Format.Token>)
    requires ys != [] && ys[0].Copy? && ys[0].len >= 3 && ys[0].dist > 0
    ensures ToksOf(ys)[0].sym >= 256 && ToksOf(ys)[0].pos == ys[0].dist - 1
  {
  }

  lemma FarFailsIn(k: Format.Block, xs: seq<Format.Token>, ys: seq<Format.Token>, b: seq<bool>, pos: nat, s: seq<Byte>, m: nat)
    requires Format.BlockOk(k) && At(b, pos, Format.BlockText(k)) && k.tokens == xs + ys && ys != []
    requires Format.SpellAll(xs, s, 0, m) && m < |s| && ys[0].Copy? && ys[0].dist > m
    ensures ReadBlock(b, pos, [], |s|) == Fail
  {
    hide *;
    LongCopies(k);
    BlockParts(k);
    var t, c, p, x := BlockSplit(k, b, pos);
    HeadRead(k, b, pos, t, c, p);
    ToksAreTokens(k.tokens, k.c, k.p);
    LongBegin(xs, ys);
    ToksExpand(xs, s, 0, m);
    ToksOfConcat(xs, ys);
    FarTok(ys);
    assert s[..0] == [];
    var h := pos + 16 + |t| + |c| + |p|;
    var ct, pt := TreeOf(k.c, 510), TreeOf(k.p, 14);
    var q := ToksBegin(ToksOf(xs), ToksOf(ys), ct, pt, b, h, [], s[..m], |s|);
    FarFails(ToksOf(ys), ct, pt, b, q, s[..m], |s|);
    ReadParts(b, pos, |k.tokens|, ct, pt, h, [], |s|);
  }

  /** A file whose first block reaches back before the beginning of the text is refused. */
  lemma TooFarRefused(file: seq<Byte>, k: Format.Block, xs: seq<Format.Token>, ys: seq<Format.Token>, b: seq<bool>, s: seq<Byte>, m: nat)
    requires |file| >= 8 && Format.Word(file[..4]) <= |file| - 8 && Format.Word(file[4..8]) == |s| <= 0x4000_0000
    requires Format.BitsIn(file[8..8 + Format.Word(file[..4])], b) && Format.BlockOk(k) && Format.BlockText(k) <= b
    requires k.tokens == xs + ys && Format.SpellAll(xs, s, 0, m) && m < |s| && ys != [] && ys[0].Copy? && ys[0].dist > m
    ensures Decode(file) == None
  {
    hide Le32, Format.Word, Format.BitsIn, Format.BlockOk, Format.BlockText, ReadBlock, Format.SpellAll;
    WordIsLe32(file[..4]);
    WordIsLe32(file[4..8]);
    BitsInBytes(file[8..8 + Le32(file[..4])], b);
    assert At(b, 0, Format.BlockText(k));
    FarFailsIn(k, xs, ys, b, 0, s, m);
  }
}
