/** Two files of the format, byte by byte. */
module FormatExample {
  import opened Bits
  import opened Streams
  import opened Optional
  import opened FormatDecoding
  import F = Format

  // ---- tables with two codes of one bit ----

  /** Only a and b have codes, of one bit each. */
  ghost predicate Two(lens: seq<nat>, a: nat, b: nat) {
    a < b < |lens| && forall i :: 0 <= i < |lens| ==> lens[i] == if i == a || i == b then 1 else 0
  }

  lemma {:induction false} TwoSpace(lens: seq<nat>, a: nat, b: nat, n: nat)
    requires Two(lens, a, b) && n <= |lens|
    ensures F.Space(lens, n) == (if a < n then 32768 else 0) + (if b < n then 32768 else 0)
  {
    if n > 0 {
      TwoSpace(lens, a, b, n - 1);
      assert Pow2(15) == 32768;
    }
  }

  lemma {:induction false} TwoBefore(lens: seq<nat>, a: nat, b: nat, s: nat, n: nat)
    requires Two(lens, a, b) && n <= |lens| && (s == a || s == b)
    ensures F.Before(lens, s, n) == if s == b && a < n then 1 else 0
  {
    if n > 0 {
      TwoBefore(lens, a, b, s, n - 1);
      assert Pow2(0) == 1;
    }
  }

  lemma TwoCodes(lens: seq<nat>, a: nat, b: nat)
    requires Two(lens, a, b)
    ensures F.Full(lens) && F.Code(lens, a) == [false] && F.Code(lens, b) == [true]
  {
    TwoSpace(lens, a, b, |lens|);
    TwoBefore(lens, a, b, a, |lens|);
    TwoBefore(lens, a, b, b, |lens|);
    assert Pow2(0) == 1;
  }

  function TwoLens(size: nat, a: nat, b: nat): seq<nat> {
    seq(size, i => if i == a || i == b then 1 else 0)
  }

  /** The table in which only a and b have codes, [false] and [true]. */
  function TwoTable(size: nat, a: nat, b: nat): F.Table {
    F.Listed(b + 1, TwoLens(size, a, b))
  }

  lemma TwoTableOk(size: nat, width: nat, a: nat, b: nat)
    requires a < b < size < Pow2(width)
    ensures F.TableOk(TwoTable(size, a, b), size, width)
    ensures F.Usable(TwoTable(size, a, b), a) && F.Sym(TwoTable(size, a, b), a) == [false]
    ensures F.Usable(TwoTable(size, a, b), b) && F.Sym(TwoTable(size, a, b), b) == [true]
  {
    TwoCodes(TwoLens(size, a, b), a, b);
  }

  // ---- joining numbers ----

  lemma Glue(v: nat, n: nat, x: nat, k: nat, p: nat)
    requires x < p == Pow2(k)
    ensures F.Num(v, n) + F.Num(x, k) == F.Num(v * p + x, n + k)
  {
    NumIsBits(v, n);
    NumIsBits(x, k);
    NumIsBits(v * p + x, n + k);
    BitsOfAppend(v, n, x, k);
  }

  lemma Small()
    ensures Pow2(1) == 2 && Pow2(2) == 4 && Pow2(3) == 8 && Pow2(5) == 32 && Pow2(9) == 512 && Pow2(10) == 1024
    ensures F.Num(0, 1) == [false] && F.Num(1, 1) == [true] && F.Num(0, 0) == []
  {
  }

  // ---- the T table of both files: 20 zeros or more are [false], and the length 1 is [true] ----

  function T(): F.Table {
    TwoTable(19, 2, 3)
  }

  lemma TCodes()
    ensures F.TableOk(T(), 19, 5) && F.SkipOk(T(), 0)
    ensures F.ItemOk(F.Len(1), T()) && F.ItemText(F.Len(1), T()) == [true]
  {
    Small();
    TwoTableOk(19, 5, 2, 3);
  }

  lemma TZeros(z: nat)
    requires 20 <= z <= 531
    ensures F.ItemOk(F.ManyZeros(z), T()) && F.ItemText(F.ManyZeros(z), T()) == [false] + F.Num(z - 20, 9)
  {
    Small();
    TwoTableOk(19, 5, 2, 3);
  }

  /** The lengths x, 0, 1 for x at most 1. */
  lemma ThreeLengths(x: nat)
    requires x <= 1
    ensures F.Lengths([x, 0, 1]) == F.Num(64 * x + 1, 9) && F.Lengths([1]) == F.Num(1, 3)
  {
    hide F.Lengths, F.Num;
    assert [x, 0, 1] == [x] + ([0] + [1]);
    LengthsConcat([x], [0] + [1]);
    LengthsConcat([0], [1]);
    LengthsOne(x);
    LengthsOne(0);
    LengthsOne(1);
    Small();
    Glue(0, 3, 1, 3, 8);
    assert Pow2(6) == 64;
    Glue(x, 3, 1, 6, 64);
  }

  lemma TLens()
    ensures T().Listed? && T().n == 4 && |T().lens| == 19 && T().lens[..3] == [0, 0, 1] && T().lens[3..4] == [1]
  {
  }

  lemma TBits()
    requires F.SkipOk(T(), 0)
    ensures F.TText(T(), 0) == F.Num(65569, 19)
  {
    hide T, F.Lengths, F.Num;
    TLens();
    ThreeLengths(0);
    Small();
    Glue(0, 2, 1, 3, 8);
    Glue(1, 9, 1, 5, 32);
    assert Pow2(14) == 16384;
    Glue(4, 5, 33, 14, 16384);
  }

  // ---- code lengths of the C table ----

  /** Items xs are sent with the T table as the n digits of v, and stand for lens. */
  ghost predicate Sent(xs: seq<F.Item>, v: nat, n: nat, lens: seq<nat>) {
    && (forall i :: 0 <= i < |xs| ==> F.ItemOk(xs[i], T()))
    && F.ItemsText(xs, T()) == F.Num(v, n) && F.ItemsLens(xs) == lens
  }

  lemma SentNone()
    ensures Sent([], 0, 0, [])
  {
  }

  lemma SentMore(x: F.Item, u: nat, k: nat, xs: seq<F.Item>, v: nat, n: nat, p: nat, lens: seq<nat>, r: nat)
    requires Sent(xs, v, n, lens) && F.ItemOk(x, T()) && F.ItemText(x, T()) == F.Num(u, k) && v < p == Pow2(n)
    requires r == u * p + v
    ensures Sent([x] + xs, r, k + n, F.ItemLens(x) + lens)
  {
    hide T, F.ItemOk, F.ItemText, F.ItemLens, F.Num;
    assert ([x] + xs)[1..] == xs;
    Glue(u, k, v, n, p);
  }

  lemma SentOne(xs: seq<F.Item>, v: nat, n: nat, p: nat, lens: seq<nat>)
    requires Sent(xs, v, n, lens) && v < p == Pow2(n)
    ensures Sent([F.Len(1)] + xs, p + v, n + 1, [1] + lens)
  {
    Small();
    hide T, F.ItemOk, F.ItemText, Sent, F.Num;
    TCodes();
    SentMore(F.Len(1), 1, 1, xs, v, n, p, lens, p + v);
  }

  lemma SentZeros(z: nat, xs: seq<F.Item>, v: nat, n: nat, p: nat, lens: seq<nat>, r: nat)
    requires Sent(xs, v, n, lens) && 20 <= z <= 531 && v < p == Pow2(n) && r == (z - 20) * p + v
    ensures Sent([F.ManyZeros(z)] + xs, r, n + 10, seq(z, _ => 0) + lens)
  {
    Small();
    hide T, F.ItemOk, F.ItemText, Sent, F.Num;
    TZeros(z);
    Glue(0, 1, z - 20, 9, 512);
    SentMore(F.ManyZeros(z), z - 20, 10, xs, v, n, p, lens, r);
  }

  /** C lengths that end with the items xs behind the announced count. */
  lemma CBits(t: F.Table, xs: seq<F.Item>, v: nat, n: nat, p: nat, r: nat)
    requires t.Listed? && t.n <= |t.lens| && Sent(xs, v, n, t.lens[..t.n]) && v < p == Pow2(n) && r == t.n * p + v
    ensures F.ItemsOk(t, xs, T()) && F.CText(t, xs, T()) == F.Num(r, 9 + n)
  {
    hide T, F.ItemOk, F.ItemsText, F.ItemsLens, F.Num;
    Glue(t.n, 9, v, n, p);
  }

  lemma ABItems()
    ensures Sent([F.ManyZeros(65), F.Len(1), F.Len(1)], 183, 12, seq(65, _ => 0) + [1, 1])
  {
    hide Sent;
    Small();
    SentNone();
    SentOne([], 0, 0, 1, []);
    assert [F.Len(1)] + [] == [F.Len(1)] && [1] + [] == [1];
    SentOne([F.Len(1)], 1, 1, 2, [1]);
    assert [F.Len(1)] + [F.Len(1)] == [F.Len(1), F.Len(1)] && [1] + [1] == [1, 1];
    SentZeros(65, [F.Len(1), F.Len(1)], 3, 2, 4, [1, 1], 183);
    assert [F.ManyZeros(65)] + [F.Len(1), F.Len(1)] == [F.ManyZeros(65), F.Len(1), F.Len(1)];
  }

  lemma NoP()
    ensures F.TableOk(F.Only(0), 14, 4) && F.Usable(F.Only(0), 0) && F.Sym(F.Only(0), 0) == []
    ensures F.PText(F.Only(0)) == F.Num(0, 8)
  {
    Pow2Values();
    Glue(0, 4, 0, 4, 16);
  }

  // ---- the text "AB" ----

  /** The codes of A and B. */
  function AB(): F.Table {
    TwoTable(510, 65, 66)
  }

  lemma ABCodes()
    ensures F.TableOk(AB(), 510, 9) && F.Usable(AB(), 65) && F.Usable(AB(), 66)
    ensures F.Sym(AB(), 65) == [false] && F.Sym(AB(), 66) == [true]
    ensures AB().Listed? && AB().n == 67 && |AB().lens| == 510 && AB().lens[..67] == seq(65, _ => 0) + [1, 1]
  {
    Small();
    TwoTableOk(510, 9, 65, 66);
  }

  lemma ABTokens()
    ensures F.TokenOk(F.Literal(65), AB(), F.Only(0)) && F.TokenOk(F.Literal(66), AB(), F.Only(0))
    ensures F.TokensText([F.Literal(65), F.Literal(66)], AB(), F.Only(0)) == F.Num(1, 2)
  {
    hide AB, F.Usable, F.Sym, F.TableOk, F.Num;
    ABCodes();
    Small();
    Glue(0, 1, 1, 1, 2);
    var xs := [F.Literal(65), F.Literal(66)];
    assert xs[1..] == [F.Literal(66)] && xs[1..][1..] == [];
  }

  function ABBlock(): F.Block {
    F.Block(T(), 0, AB(), [F.ManyZeros(65), F.Len(1), F.Len(1)], F.Only(0), [F.Literal(65), F.Literal(66)])
  }

  lemma Pow2Large()
    ensures Pow2(31) == 0x8000_0000 && Pow2(50) == 0x4_0000_0000_0000
  {
    Pow2Values();
    assert Pow2(32) == 2 * Pow2(31);
    assert Pow2(18) == 4 * Pow2(16);
    Pow2Add(32, 18);
  }

  lemma ABHead()
    ensures F.ItemsOk(AB(), ABBlock().items, T()) && F.CText(AB(), ABBlock().items, T()) == F.Num(274615, 21)
  {
    hide T, AB, F.ItemsOk, F.CText, Sent, F.Num;
    ABCodes();
    ABItems();
    assert Pow2(12) == 4096;
    CBits(AB(), ABBlock().items, 183, 12, 4096, 274615);
  }

  lemma ABBlockBits()
    ensures F.BlockOk(ABBlock()) && F.BlockText(ABBlock()) == F.Num(2392608450206721, 66)
  {
    hide T, AB, F.TText, F.CText, F.PText, F.TokensText, F.TableOk, F.SkipOk, F.ItemsOk, F.TokenOk, F.Num, Sent;
    TCodes();
    TBits();
    ABCodes();
    ABHead();
    NoP();
    ABTokens();
    Small();
    Glue(0, 8, 1, 2, 4);
    Glue(274615, 21, 1, 10, 1024);
    Pow2Large();
    Glue(65569, 19, 274615 * 1024 + 1, 31, 0x8000_0000);
    Glue(2, 16, 65569 * 0x8000_0000 + 274615 * 1024 + 1, 50, 0x4_0000_0000_0000);
  }

  // ---- bytes ----

  lemma MoreBytes(s: seq<Byte>, v: nat, x: Byte, n: nat)
    requires n == 8 * |s| && BytesBits(s) == F.Num(v, n)
    ensures BytesBits(s + [x]) == F.Num(v * 256 + x, n + 8)
  {
    hide BytesBits, F.Num, BitsOf, Pow2;
    Pow2Values();
    BytesBitsAppend(s, x);
    NumIsBits(x, 8);
    Glue(v, n, x, 8, 256);
  }

  lemma NoBytes()
    ensures BytesBits([]) == F.Num(0, 0)
  {
  }

  lemma ABBytes()
    ensures F.BitsIn([0, 2, 32, 4, 36, 48, 183, 0, 64], F.Num(153126940813230144, 72))
  {
    hide BytesBits, F.BitsIn, F.Num;
    NoBytes();
    MoreBytes([], 0, 0, 0);
    assert [] + [0] == [0];
    MoreBytes([0], 0, 2, 8);
    assert [0] + [2] == [0, 2];
    MoreBytes([0, 2], 2, 32, 16);
    assert [0, 2] + [32] == [0, 2, 32];
    MoreBytes([0, 2, 32], 544, 4, 24);
    assert [0, 2, 32] + [4] == [0, 2, 32, 4];
    MoreBytes([0, 2, 32, 4], 139268, 36, 32);
    assert [0, 2, 32, 4] + [36] == [0, 2, 32, 4, 36];
    MoreBytes([0, 2, 32, 4, 36], 35652644, 48, 40);
    assert [0, 2, 32, 4, 36] + [48] == [0, 2, 32, 4, 36, 48];
    MoreBytes([0, 2, 32, 4, 36, 48], 9127076912, 183, 48);
    assert [0, 2, 32, 4, 36, 48] + [183] == [0, 2, 32, 4, 36, 48, 183];
    MoreBytes([0, 2, 32, 4, 36, 48, 183], 2336531689655, 0, 56);
    assert [0, 2, 32, 4, 36, 48, 183] + [0] == [0, 2, 32, 4, 36, 48, 183, 0];
    MoreBytes([0, 2, 32, 4, 36, 48, 183, 0], 598152112551680, 64, 64);
    assert [0, 2, 32, 4, 36, 48, 183, 0] + [64] == [0, 2, 32, 4, 36, 48, 183, 0, 64];
    BitsInBytes([0, 2, 32, 4, 36, 48, 183, 0, 64], F.Num(153126940813230144, 72));
  }

  /** A file of one block. */
  lemma OneBlock(file: seq<Byte>, data: seq<Byte>, b: seq<bool>, k: F.Block, s: seq<Byte>)
    requires |file| == 8 + |data| && file[8..] == data && F.Word(file[..4]) == |data| < 0xFFFF_FFFF
    requires F.Word(file[4..8]) == |s| <= 0x4000_0000 && F.BitsIn(data, b)
    requires F.BlockOk(k) && F.BlockText(k) <= b && F.SpellAll(k.tokens, s, 0, |s|)
    ensures F.Stands(file, s)
  {
    hide F.Word, F.BitsIn, F.BlockOk, F.BlockText, F.SpellAll;
    var e := |F.BlockText(k)|;
    assert F.BlocksAt([k][1..], b, e, s, |s|);
    assert b[0..0 + e] == F.BlockText(k);
    assert F.BlocksAt([k], b, 0, s, 0);
    assert file[8..8 + |data|] == data;
  }

  lemma ABStarts()
    ensures F.BlockOk(ABBlock()) && F.BlockText(ABBlock()) <= F.Num(153126940813230144, 72)
  {
    hide F.Num, F.BlockOk, F.BlockText, ABBlock;
    ABBlockBits();
    assert Pow2(6) == 64;
    Glue(2392608450206721, 66, 0, 6, 64);
  }

  lemma ABSpells()
    ensures F.SpellAll(ABBlock().tokens, [65, 66], 0, 2)
  {
    var xs := ABBlock().tokens;
    assert xs[1..] == [F.Literal(66)] && xs[1..][1..] == [];
  }

  /** The file below stands for "AB": its T lengths are 0, 0, 1, no zeros behind them, and 1. */
  lemma StandsAB()
    ensures F.Stands([9, 0, 0, 0, 2, 0, 0, 0, 0x00, 0x02, 0x20, 0x04, 0x24, 0x30, 0xB7, 0x00, 0x40], [65, 66])
    ensures Decode([9, 0, 0, 0, 2, 0, 0, 0, 0x00, 0x02, 0x20, 0x04, 0x24, 0x30, 0xB7, 0x00, 0x40]) == Some([65, 66])
  {
    hide F.BitsIn, F.BlockOk, F.BlockText, F.SpellAll, F.Num, Decode, F.Stands, ABBlock;
    var data: seq<Byte> := [0, 2, 32, 4, 36, 48, 183, 0, 64];
    var file: seq<Byte> := [9, 0, 0, 0, 2, 0, 0, 0, 0x00, 0x02, 0x20, 0x04, 0x24, 0x30, 0xB7, 0x00, 0x40];
    assert file[8..] == data;
    assert file[..4] == [9, 0, 0, 0] && file[4..8] == [2, 0, 0, 0];
    ABBytes();
    ABStarts();
    ABSpells();
    OneBlock(file, data, F.Num(153126940813230144, 72), ABBlock(), [65, 66]);
    StandsDecodes(file, [65, 66]);
  }

  // ---- the text "AAAAAAA", with copies ----

  /** The codes of A and of copies of three bytes. */
  function AC(): F.Table {
    TwoTable(510, 65, 256)
  }

  lemma ACCodes()
    ensures F.TableOk(AC(), 510, 9) && F.Usable(AC(), 65) && F.Usable(AC(), 256)
    ensures F.Sym(AC(), 65) == [false] && F.Sym(AC(), 256) == [true]
    ensures AC().Listed? && AC().n == 257 && |AC().lens| == 510
    ensures AC().lens[..257] == seq(65, _ => 0) + ([1] + (seq(190, _ => 0) + [1]))
  {
    Small();
    TwoTableOk(510, 9, 65, 256);
  }

  lemma ACItems()
    ensures Sent([F.ManyZeros(65), F.Len(1), F.ManyZeros(190), F.Len(1)], 186709, 22,
                 seq(65, _ => 0) + ([1] + (seq(190, _ => 0) + [1])))
  {
    hide Sent;
    Small();
    SentNone();
    SentOne([], 0, 0, 1, []);
    assert [F.Len(1)] + [] == [F.Len(1)] && [1] + [] == [1];
    SentZeros(190, [F.Len(1)], 1, 1, 2, [1], 341);
    var lens := seq(190, _ => 0) + [1];
    assert Pow2(11) == 2048 && Pow2(12) == 4096;
    SentOne([F.ManyZeros(190)] + [F.Len(1)], 341, 11, 2048, lens);
    SentZeros(65, [F.Len(1)] + ([F.ManyZeros(190)] + [F.Len(1)]), 2389, 12, 4096, [1] + lens, 186709);
    assert [F.ManyZeros(65)] + ([F.Len(1)] + ([F.ManyZeros(190)] + [F.Len(1)]))
        == [F.ManyZeros(65), F.Len(1), F.ManyZeros(190), F.Len(1)];
  }

  /** Distances 1, and 3 or 4. */
  function Dist(): F.Table {
    TwoTable(14, 0, 2)
  }

  lemma DistCodes()
    ensures F.TableOk(Dist(), 14, 4) && F.Usable(Dist(), 0) && F.Usable(Dist(), 2)
    ensures F.Sym(Dist(), 0) == [false] && F.Sym(Dist(), 2) == [true]
    ensures F.PText(Dist()) == F.Num(1601, 13)
  {
    Pow2Values();
    TwoTableOk(14, 4, 0, 2);
    assert Dist().Listed? && Dist().n == 3 && |Dist().lens| == 14 && Dist().lens[..3] == [1, 0, 1];
    hide Dist, F.Lengths, F.Num, F.TableOk, F.Usable, F.Sym;
    ThreeLengths(1);
    Small();
    Glue(3, 4, 65, 9, 512);
  }

  lemma ACToken()
    ensures F.TokenOk(F.Literal(65), AC(), Dist()) && F.TokenText(F.Literal(65), AC(), Dist()) == [false]
    ensures F.TokenOk(F.Copy(3, 1, 0), AC(), Dist()) && F.TokenText(F.Copy(3, 1, 0), AC(), Dist()) == [true, false]
    ensures F.TokenOk(F.Copy(3, 4, 2), AC(), Dist()) && F.TokenText(F.Copy(3, 4, 2), AC(), Dist()) == [true, true, true]
  {
    hide AC, Dist, F.Usable, F.Sym, F.TableOk, F.Num;
    ACCodes();
    DistCodes();
    Small();
    assert Pow2(1) == 2;
  }

  lemma ACTokens()
    ensures F.TokenOk(F.Literal(65), AC(), Dist()) && F.TokenOk(F.Copy(3, 1, 0), AC(), Dist()) && F.TokenOk(F.Copy(3, 4, 2), AC(), Dist())
    ensures F.TokensText([F.Literal(65), F.Copy(3, 1, 0), F.Copy(3, 4, 2)], AC(), Dist()) == F.Num(23, 6)
  {
    hide AC, Dist, F.TokenOk, F.TokenText;
    ACToken();
    var xs := [F.Literal(65), F.Copy(3, 1, 0), F.Copy(3, 4, 2)];
    assert xs[1..] == [F.Copy(3, 1, 0), F.Copy(3, 4, 2)] && xs[1..][1..] == [F.Copy(3, 4, 2)] && xs[1..][1..][1..] == [];
    NumIsBits(23, 6);
  }

  function ACBlock(): F.Block {
    F.Block(T(), 0, AC(), [F.ManyZeros(65), F.Len(1), F.ManyZeros(190), F.Len(1)], Dist(),
            [F.Literal(65), F.Copy(3, 1, 0), F.Copy(3, 4, 2)])
  }

  lemma Pow2Larger()
    ensures Pow2(19) == 0x8_0000 && Pow2(22) == 0x40_0000 && Pow2(50) == 0x4_0000_0000_0000 && Pow2(69) == 0x20_0000_0000_0000_0000
  {
    Pow2Large();
    Pow2Values();
    assert Pow2(19) == 8 * Pow2(16);
    assert Pow2(22) == 8 * Pow2(19);
    Pow2Add(50, 19);
  }

  lemma ACHead()
    ensures F.ItemsOk(AC(), ACBlock().items, T()) && F.CText(AC(), ACBlock().items, T()) == F.Num(1078122837, 31)
  {
    hide T, AC, F.ItemsOk, F.CText, Sent, F.Num;
    ACCodes();
    ACItems();
    Pow2Larger();
    CBits(AC(), ACBlock().items, 186709, 22, 0x40_0000, 1078122837);
  }

  lemma ACBlockBits()
    ensures F.BlockOk(ACBlock()) && F.BlockText(ACBlock()) == F.Num(1844712127314747035735, 85)
  {
    hide T, AC, Dist, F.TText, F.CText, F.PText, F.TokensText, F.TableOk, F.SkipOk, F.ItemsOk, F.TokenOk, F.Num, Sent;
    TCodes();
    TBits();
    ACCodes();
    ACHead();
    DistCodes();
    ACTokens();
    Pow2Larger();
    assert Pow2(6) == 64;
    Glue(1601, 13, 23, 6, 64);
    Glue(1078122837, 31, 1601 * 64 + 23, 19, 0x8_0000);
    Glue(65569, 19, 1078122837 * 0x8_0000 + 1601 * 64 + 23, 50, 0x4_0000_0000_0000);
    Glue(3, 16, 65569 * 0x4_0000_0000_0000 + 1078122837 * 0x8_0000 + 1601 * 64 + 23, 69, 0x20_0000_0000_0000_0000);
  }

  lemma ACBytes()
    ensures F.BitsIn([0, 3, 32, 4, 48, 16, 182, 85, 76, 130, 184], F.Num(14757697018517976285880, 88))
  {
    hide BytesBits, F.BitsIn, F.Num;
    NoBytes();
    MoreBytes([], 0, 0, 0);
    assert [] + [0] == [0];
    MoreBytes([0], 0, 3, 8);
    assert [0] + [3] == [0, 3];
    MoreBytes([0, 3], 3, 32, 16);
    assert [0, 3] + [32] == [0, 3, 32];
    MoreBytes([0, 3, 32], 800, 4, 24);
    assert [0, 3, 32] + [4] == [0, 3, 32, 4];
    MoreBytes([0, 3, 32, 4], 204804, 48, 32);
    assert [0, 3, 32, 4] + [48] == [0, 3, 32, 4, 48];
    MoreBytes([0, 3, 32, 4, 48], 52429872, 16, 40);
    assert [0, 3, 32, 4, 48] + [16] == [0, 3, 32, 4, 48, 16];
    MoreBytes([0, 3, 32, 4, 48, 16], 13422047248, 182, 48);
    assert [0, 3, 32, 4, 48, 16] + [182] == [0, 3, 32, 4, 48, 16, 182];
    MoreBytes([0, 3, 32, 4, 48, 16, 182], 3436044095670, 85, 56);
    assert [0, 3, 32, 4, 48, 16, 182] + [85] == [0, 3, 32, 4, 48, 16, 182, 85];
    MoreBytes([0, 3, 32, 4, 48, 16, 182, 85], 879627288491605, 76, 64);
    assert [0, 3, 32, 4, 48, 16, 182, 85] + [76] == [0, 3, 32, 4, 48, 16, 182, 85, 76];
    MoreBytes([0, 3, 32, 4, 48, 16, 182, 85, 76], 225184585853850956, 130, 72);
    assert [0, 3, 32, 4, 48, 16, 182, 85, 76] + [130] == [0, 3, 32, 4, 48, 16, 182, 85, 76, 130];
    MoreBytes([0, 3, 32, 4, 48, 16, 182, 85, 76, 130], 57647253978585844866, 184, 80);
    assert [0, 3, 32, 4, 48, 16, 182, 85, 76, 130] + [184] == [0, 3, 32, 4, 48, 16, 182, 85, 76, 130, 184];
    BitsInBytes([0, 3, 32, 4, 48, 16, 182, 85, 76, 130, 184], F.Num(14757697018517976285880, 88));
  }

  lemma ACStarts()
    ensures F.BlockOk(ACBlock()) && F.BlockText(ACBlock()) <= F.Num(14757697018517976285880, 88)
  {
    hide F.Num, F.BlockOk, F.BlockText, ACBlock;
    ACBlockBits();
    Small();
    Glue(1844712127314747035735, 85, 0, 3, 8);
  }

  lemma ACSpells()
    ensures F.SpellAll(ACBlock().tokens, [65, 65, 65, 65, 65, 65, 65], 0, 7)
  {
    var xs := ACBlock().tokens;
    assert xs[1..] == [F.Copy(3, 1, 0), F.Copy(3, 4, 2)] && xs[1..][1..] == [F.Copy(3, 4, 2)] && xs[1..][1..][1..] == [];
  }

  /** The file below stands for seven times A: a byte, three bytes copied from one byte before, and three
      from four bytes before. */
  lemma StandsCopies()
    ensures F.Stands([11, 0, 0, 0, 7, 0, 0, 0, 0x00, 0x03, 0x20, 0x04, 0x30, 0x10, 0xB6, 0x55, 0x4C, 0x82, 0xB8], [65, 65, 65, 65, 65, 65, 65])
    ensures Decode([11, 0, 0, 0, 7, 0, 0, 0, 0x00, 0x03, 0x20, 0x04, 0x30, 0x10, 0xB6, 0x55, 0x4C, 0x82, 0xB8]) == Some([65, 65, 65, 65, 65, 65, 65])
  {
    hide F.BitsIn, F.BlockOk, F.BlockText, F.SpellAll, F.Num, Decode, F.Stands, ACBlock;
    var data: seq<Byte> := [0, 3, 32, 4, 48, 16, 182, 85, 76, 130, 184];
    var file: seq<Byte> := [11, 0, 0, 0, 7, 0, 0, 0, 0x00, 0x03, 0x20, 0x04, 0x30, 0x10, 0xB6, 0x55, 0x4C, 0x82, 0xB8];
    assert file[8..] == data;
    assert file[..4] == [11, 0, 0, 0] && file[4..8] == [7, 0, 0, 0];
    ACBytes();
    ACStarts();
    ACSpells();
    OneBlock(file, data, F.Num(14757697018517976285880, 88), ACBlock(), [65, 65, 65, 65, 65, 65, 65]);
    StandsDecodes(file, [65, 65, 65, 65, 65, 65, 65]);
  }
}
