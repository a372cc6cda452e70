/** The files the compressor makes are files of the format, and stand for what its tokens expand to. */
module FormatEncoding {
  import opened Bits
  import opened Canonical
  import opened Trees
  import opened Headers
  import opened Runs
  import opened Lz
  import opened Blocks
  import opened Streams
  import opened FormatDecoding
  import Format

  // ---- tables ----

  function TableOf(t: Tree): Format.Table {
    if t.single >= 0 then Format.Only(t.single) else Format.Listed(Trim(t.lens, |t.lens|), t.lens)
  }

  lemma TableSent(t: Tree, nn: nat, nbit: nat)
    requires Sendable(t, nn, nbit) && nn > 0
    ensures Format.TableOk(TableOf(t), nn, nbit) && TreeOf(TableOf(t), nn) == t
  {
    hide Trim, KraftUpTo, Format.Full, Complete;
    if t.single < 0 {
      TrimComplete(t.lens);
      FullIsComplete(t.lens);
    }
  }

  lemma {:induction false} LensAreLengths(lens: seq<nat>, n: nat, special: int, i: nat)
    requires i <= n <= |lens| && (special <= i || n < special)
    ensures LensBits(lens, n, special, i) == Format.Lengths(lens[i..n])
    decreases n - i
  {
    hide LenBits, Format.Length;
    if i < n {
      LensAreLengths(lens, n, special, i + 1);
      LengthIsLenBits(lens[i]);
      assert lens[i..n][1..] == lens[i + 1..n];
    }
  }

  function SkipOf(t: Tree): nat {
    var n := Trim(t.lens, |t.lens|);
    if n >= 3 then SkipZeros(t.lens, n, 3) - 3 else 0
  }

  lemma LensFromThird(lens: seq<nat>, n: nat)
    requires 3 <= n <= |lens|
    ensures var k := SkipZeros(lens, n, 3) - 3;
      LensBits(lens, n, 3, 2) == LenBits(lens[2]) + (Format.Num(k, 2) + Format.Lengths(lens[3 + k..n]))
  {
    hide LenBits, Format.Length, SkipZeros;
    var j := SkipZeros(lens, n, 3);
    LensAreLengths(lens, n, 3, j);
    NumIsBits(j - 3, 2);
  }

  lemma LensSkipped(lens: seq<nat>, n: nat)
    requires 3 <= n <= |lens|
    ensures var k := SkipZeros(lens, n, 3) - 3;
      LensBits(lens, n, 3, 0) == Format.Lengths(lens[..3]) + (Format.Num(k, 2) + Format.Lengths(lens[3 + k..n]))
  {
    hide SkipZeros, LenBits, Format.Length, Format.Num, Format.Lengths;
    LensFromThird(lens, n);
    var k := SkipZeros(lens, n, 3) - 3;
    var rest := Format.Num(k, 2) + Format.Lengths(lens[3 + k..n]);
    var x, y, z := LenBits(lens[0]), LenBits(lens[1]), LenBits(lens[2]);
    assert LensBits(lens, n, 3, 0) == x + LensBits(lens, n, 3, 1);
    assert LensBits(lens, n, 3, 1) == y + LensBits(lens, n, 3, 2);
    ThreeLengths(lens);
    assert (x + (y + z)) + rest == x + (y + (z + rest));
  }

  lemma ThreeLengths(lens: seq<nat>)
    requires |lens| >= 3
    ensures Format.Lengths(lens[..3]) == LenBits(lens[0]) + (LenBits(lens[1]) + LenBits(lens[2]))
  {
    hide LenBits, Format.Length, Format.Lengths;
    assert lens[..3] == [lens[0]] + ([lens[1]] + [lens[2]]);
    LengthsConcat([lens[0]], [lens[1]] + [lens[2]]);
    LengthsConcat([lens[1]], [lens[2]]);
    LengthsOne(lens[0]);
    LengthsOne(lens[1]);
    LengthsOne(lens[2]);
    LengthIsLenBits(lens[0]);
    LengthIsLenBits(lens[1]);
    LengthIsLenBits(lens[2]);
  }

  lemma TIsText(t: Tree)
    requires Sendable(t, NT, TBIT)
    ensures Format.SkipOk(TableOf(t), SkipOf(t)) && Format.TableOk(TableOf(t), 19, 5)
    ensures PtBits(t, TBIT, 3) == Format.TText(TableOf(t), SkipOf(t))
  {
    TableSent(t, NT, TBIT);
    hide Trim, LensBits, Format.Lengths, Format.Num, BitsOf, Sendable, Format.TableOk, SkipZeros;
    var n := Trim(t.lens, |t.lens|);
    NumIsBits(0, 5);
    NumIsBits(n, 5);
    if t.single >= 0 {
      NumIsBits(t.single, 5);
    } else if n < 3 {
      LensAreLengths(t.lens, n, 3, 0);
      assert t.lens[0..n] == t.lens[..n];
    } else {
      LensSkipped(t.lens, n);
    }
  }

  lemma PIsText(t: Tree)
    requires Sendable(t, NP, PBIT)
    ensures Format.TableOk(TableOf(t), 14, 4) && PtBits(t, PBIT, -1) == Format.PText(TableOf(t))
  {
    TableSent(t, NP, PBIT);
    hide Trim, LensBits, Format.Lengths, Format.Num, BitsOf, Sendable, Format.TableOk;
    var n := Trim(t.lens, |t.lens|);
    NumIsBits(0, 4);
    NumIsBits(n, 4);
    if t.single >= 0 {
      NumIsBits(t.single, 4);
    } else {
      LensAreLengths(t.lens, n, -1, 0);
      assert t.lens[0..n] == t.lens[..n];
    }
  }

  // ---- the C lengths ----

  function ItemOf(r: Run): Format.Item {
    match r
    case Zero => Format.OneZero
    case Short(z) => Format.SomeZeros(z)
    case Long(z) => Format.ManyZeros(z)
    case Len(l) => Format.Len(l)
  }

  function ItemsOf(rs: seq<Run>): (xs: seq<Format.Item>)
    ensures |xs| == |rs|
  {
    if rs == [] then [] else [ItemOf(rs[0])] + ItemsOf(rs[1..])
  }

  lemma {:induction false} ItemsAreRuns(rs: seq<Run>, t: Tree)
    requires Sendable(t, NT, TBIT) && Coded(rs, t)
    ensures RunsOfItems(ItemsOf(rs)) == rs
    ensures forall i :: 0 <= i < |rs| ==> Format.ItemOk(ItemsOf(rs)[i], TableOf(t))
  {
    hide Sendable, Codes, Format.Usable, TableOf;
    if rs != [] {
      ItemsAreRuns(rs[1..], t);
      RunIsUsable(rs[0], t);
      assert ItemsOf(rs)[1..] == ItemsOf(rs[1..]);
    }
  }

  lemma RunIsUsable(r: Run, t: Tree)
    requires Sendable(t, NT, TBIT) && RunOk(r) && Codes(t, RunSym(r))
    ensures Format.ItemOk(ItemOf(r), TableOf(t))
  {
    TableSent(t, NT, TBIT);
    hide Sendable, Codes, Format.Usable, TableOf, TreeOf, Format.TableOk;
    SymIsCode(TableOf(t), 19, 5, RunSym(r));
  }

  lemma CIsText(ct: Tree, tt: Tree)
    requires Sendable(ct, NC, CBIT) && Sendable(tt, NT, TBIT) && Coded(TreeRuns(ct), tt)
    ensures Format.TableOk(TableOf(ct), 510, 9) && Format.ItemsOk(TableOf(ct), ItemsOf(TreeRuns(ct)), TableOf(tt))
    ensures CBits(ct, tt) == Format.CText(TableOf(ct), ItemsOf(TreeRuns(ct)), TableOf(tt))
  {
    TableSent(ct, NC, CBIT);
    TableSent(tt, NT, TBIT);
    hide Trim, RunsOf, RunsBits, Format.ItemsText, Format.ItemsLens, LensOfRuns, Format.Num, BitsOf, Sendable, Coded, Format.TableOk, Format.ItemOk, TreeOf;
    var n, rs := Trim(ct.lens, |ct.lens|), TreeRuns(ct);
    ItemsAreRuns(rs, tt);
    RunsAreItems(ItemsOf(rs), TableOf(tt));
    NumIsBits(0, 9);
    NumIsBits(n, 9);
    if ct.single >= 0 {
      NumIsBits(ct.single, 9);
    } else {
      RunsStandFor(ct.lens, n, 0);
      assert ct.lens[0..n] == ct.lens[..n];
    }
  }

  // ---- tokens ----

  function TokenOf(t: Tok): Format.Token {
    if t.sym < 256 then Format.Literal(t.sym) else Format.Copy(t.sym - 253, t.pos + 1, PosClass(t.pos))
  }

  function TokensOf(ts: seq<Tok>): (xs: seq<Format.Token>)
    ensures |xs| == |ts|
  {
    if ts == [] then [] else [TokenOf(ts[0])] + TokensOf(ts[1..])
  }

  lemma TokenIsOk(t: Tok, ct: Tree, pt: Tree)
    requires Sendable(ct, NC, CBIT) && Sendable(pt, NP, PBIT) && TokOk(t) && TokCoded(t, ct, pt)
    ensures Format.TokenOk(TokenOf(t), TableOf(ct), TableOf(pt))
  {
    hide Sendable, Codes, Format.Usable, TableOf, TreeOf, Format.TableOk, PosClass;
    TableSent(ct, NC, CBIT);
    TableSent(pt, NP, PBIT);
    SymIsCode(TableOf(ct), 510, 9, t.sym);
    if t.sym >= 256 {
      PosClassRange(t.pos);
      SymIsCode(TableOf(pt), 14, 4, PosClass(t.pos));
    }
  }

  lemma SameTok(t: Tok, ct: Tree, pt: Tree)
    requires TokCoded(t, ct, pt)
    ensures TokCoded(TokOf(TokenOf(t)), ct, pt) && TokBits(TokOf(TokenOf(t)), ct, pt) == TokBits(t, ct, pt)
  {
    hide Codes, EncodeSym, PosExtra, PosClass;
  }

  lemma TokenIsTok(t: Tok, ct: Tree, pt: Tree)
    requires Sendable(ct, NC, CBIT) && Sendable(pt, NP, PBIT) && TokOk(t) && TokCoded(t, ct, pt)
    ensures Format.TokenOk(TokenOf(t), TableOf(ct), TableOf(pt))
    ensures Format.TokenText(TokenOf(t), TableOf(ct), TableOf(pt)) == TokBits(t, ct, pt)
  {
    hide Sendable, TokOk, TokCoded, TokBits, TableOf, TreeOf, TokenOf, TokOf, Format.TableOk, Format.TokenOk, Format.TokenText;
    TableSent(ct, NC, CBIT);
    TableSent(pt, NP, PBIT);
    TokenIsOk(t, ct, pt);
    SameTok(t, ct, pt);
    TokIsToken(TokenOf(t), TableOf(ct), TableOf(pt));
  }

  lemma {:induction false} TokensAreToks(ts: seq<Tok>, ct: Tree, pt: Tree)
    requires Sendable(ct, NC, CBIT) && Sendable(pt, NP, PBIT) && AllCoded(ts, ct, pt) && forall i :: 0 <= i < |ts| ==> TokOk(ts[i])
    ensures forall i :: 0 <= i < |ts| ==> Format.TokenOk(TokensOf(ts)[i], TableOf(ct), TableOf(pt))
    ensures Format.TokensText(TokensOf(ts), TableOf(ct), TableOf(pt)) == ToksBits(ts, ct, pt)
  {
    hide Sendable, TokOk, TokCoded, TokBits, TableOf, TokenOf, Format.TokenOk, Format.TokenText;
    if ts != [] {
      TokenIsTok(ts[0], ct, pt);
      TokensAreToks(ts[1..], ct, pt);
      assert TokensOf(ts)[1..] == TokensOf(ts[1..]);
    }
  }

  /** Each byte that is copied is the one dist positions before. */
  lemma {:induction false} RepeatAt(out: seq<Byte>, dist: nat, len: nat, k: nat)
    requires 1 <= dist <= |out| <= k < |out| + len
    ensures Repeat(out, dist, len)[k] == Repeat(out, dist, len)[k - dist]
    decreases len
  {
    var next := out + [out[|out| - dist]];
    if k == |out| {
      assert next <= Repeat(next, dist, len - 1);
      assert Repeat(out, dist, len)[k] == next[k] == next[k - dist];
    } else {
      RepeatAt(next, dist, len - 1, k);
    }
  }

  lemma TokenSpells(t: Tok, s: seq<Byte>, at: nat, m: nat)
    requires TokOk(t) && at <= |s| && m <= |s| && Expandable(s[..at], t) && ExpandTok(s[..at], t) == s[..m]
    ensures Format.Spells(TokenOf(t), s, at) && m == at + Format.Size(TokenOf(t))
  {
    hide PosClass;
    if t.sym < 256 {
      assert s[..m][at] == t.sym;
    } else {
      var r, dist := Repeat(s[..at], t.pos + 1, MatchLen(t)), t.pos + 1;
      hide Repeat;
      assert r == s[..m];
      forall k | at <= k < m ensures s[k] == s[k - dist] {
        RepeatAt(s[..at], dist, MatchLen(t), k);
        assert r[k] == r[k - dist];
      }
    }
  }

  lemma {:induction false} ExpandsPrefix(out: seq<Byte>, ts: seq<Tok>, r: seq<Byte>)
    requires Expands(out, ts, r)
    ensures out <= r
    decreases ts
  {
    if ts != [] {
      assert out <= ExpandTok(out, ts[0]);
      ExpandsPrefix(ExpandTok(out, ts[0]), ts[1..], r);
    }
  }

  lemma {:induction false} TokensSpell(ts: seq<Tok>, s: seq<Byte>, at: nat, end: nat)
    requires at <= |s| && end <= |s| && Expands(s[..at], ts, s[..end]) && forall i :: 0 <= i < |ts| ==> TokOk(ts[i])
    ensures Format.SpellAll(TokensOf(ts), s, at, end)
    decreases ts
  {
    hide ExpandTok, Expandable, Format.Spells, TokOk, TokenOf;
    if ts == [] {
      assert |s[..at]| == |s[..end]|;
    } else {
      var next := ExpandTok(s[..at], ts[0]);
      ExpandsPrefix(next, ts[1..], s[..end]);
      var m := |next|;
      assert next == s[..end][..m] == s[..m];
      TokenSpells(ts[0], s, at, m);
      TokensSpell(ts[1..], s, m, end);
      assert TokensOf(ts)[1..] == TokensOf(ts[1..]);
    }
  }

  // ---- blocks and files ----

  function BlockOf(k: Block): Format.Block {
    Format.Block(TableOf(k.tt), SkipOf(k.tt), TableOf(k.ct), ItemsOf(TreeRuns(k.ct)), TableOf(k.pt), TokensOf(k.toks))
  }

  lemma BlockSent(k: Block)
    requires BlockOk(k)
    ensures Format.BlockOk(BlockOf(k)) && Format.BlockText(BlockOf(k)) == BlockBits(k)
  {
    hide Sendable, TokOk, Coded, AllCoded, TableOf, SkipOf, ItemsOf, TreeRuns, TokensOf, PtBits, CBits, ToksBits, Format.Num, BitsOf;
    hide Format.TableOk, Format.SkipOk, Format.ItemsOk, Format.TokenOk, Format.TText, Format.CText, Format.PText, Format.TokensText;
    TIsText(k.tt);
    CIsText(k.ct, k.tt);
    PIsText(k.pt);
    TokensAreToks(k.toks, k.ct, k.pt);
    NumIsBits(|k.toks|, 16);
    Regroup(BitsOf(|k.toks|, 16), PtBits(k.tt, TBIT, 3), CBits(k.ct, k.tt), PtBits(k.pt, PBIT, -1), ToksBits(k.toks, k.ct, k.pt));
  }

  lemma Regroup(n: seq<bool>, t: seq<bool>, c: seq<bool>, p: seq<bool>, x: seq<bool>)
    ensures (n + (t + (c + p))) + x == n + (t + (c + (p + x)))
  {
  }

  function BlocksOf(ks: seq<Block>): seq<Format.Block> {
    if ks == [] then [] else [BlockOf(ks[0])] + BlocksOf(ks[1..])
  }

  lemma ToksOfBlock(k: Block)
    requires BlockOk(k)
    ensures BlockOf(k).tokens == TokensOf(k.toks) && forall i :: 0 <= i < |k.toks| ==> TokOk(k.toks[i])
  {
  }

  lemma {:induction false} BlocksSent(ks: seq<Block>, b: seq<bool>, pos: nat, s: seq<Byte>, at: nat)
    requires AllOk(ks) && At(b, pos, BlocksBits(ks)) && at <= |s| && Expands(s[..at], AllToks(ks), s)
    ensures Format.BlocksAt(BlocksOf(ks), b, pos, s, at)
    decreases ks
  {
    hide BlockOk, BlockBits, Expands, BlockOf, Format.BlockOk, Format.BlockText, Format.SpellAll;
    if ks == [] {
      NothingMore(s[..at], s);
    } else {
      var k := ks[0];
      var mid := ExpandsSplit(s[..at], k.toks, AllToks(ks[1..]), s);
      ExpandsPrefix(mid, AllToks(ks[1..]), s);
      var m := |mid|;
      assert mid == s[..m];
      AtConcat(b, pos, BlockBits(k), BlocksBits(ks[1..]));
      BlockSent(k);
      ToksOfBlock(k);
      TokensSpell(k.toks, s, at, m);
      BlocksSent(ks[1..], b, pos + |BlockBits(k)|, s, m);
      assert BlocksOf(ks)[1..] == BlocksOf(ks[1..]);
    }
  }

  /** A file made of blocks stands for what they expand to. */
  lemma FileStands(file: seq<Byte>, ks: seq<Block>, s: seq<Byte>)
    requires |s| <= MAXSIZE && IsFile(file, ks, |s|) && Expands([], AllToks(ks), s)
    ensures Format.Stands(file, s)
  {
    hide Le32, Le32Bytes, Expands, BlocksBits, BytesBits, Format.Word, Format.BlocksAt, Format.BitsIn, AllOk, At;
    var csize := |file| - 8;
    Le32RoundTrip(csize);
    Le32RoundTrip(|s|);
    WordIsLe32(file[..4]);
    WordIsLe32(file[4..8]);
    assert file[8..8 + csize] == file[8..];
    assert s[..0] == [];
    var b := BytesBits(file[8..]);
    BlocksSent(ks, b, 0, s, 0);
    BitsInBytes(file[8..], b);
  }
}
