/** How large a compressed stream can be: at most 17 bits for each input byte and one header. */
module Sizes {
  import opened Bits
  import opened Canonical
  import opened Trees
  import opened Headers
  import opened Runs
  import opened Lz
  import opened Blocks
  import opened Streams

  const HEAD_BITS: nat := 8625

  lemma SymSize(t: Tree, s: nat)
    requires Codes(t, s)
    ensures |EncodeSym(t, s)| <= 16
  {
  }

  lemma {:induction false} RunsSize(rs: seq<Run>, t: Tree)
    requires Coded(rs, t)
    ensures |RunsBits(rs, t)| <= 16 * |LensOfRuns(rs)|
  {
    if rs != [] {
      SymSize(t, RunSym(rs[0]));
      RunsSize(rs[1..], t);
    }
  }

  lemma LenSize(k: nat)
    requires k <= MAXLEN
    ensures |LenBits(k)| <= 13
  {
  }

  lemma {:induction false} LensSize(lens: seq<nat>, n: nat, special: int, i: nat)
    requires i <= n <= |lens| && Bounded(lens)
    ensures |LensBits(lens, n, special, i)| <= 13 * (n - i) + (if i < special then 2 else 0)
    decreases n - i
  {
    hide LenBits, BitsOf;
    if i < n {
      LenSize(lens[i]);
      LensSize(lens, n, special, if i + 1 == special then SkipZeros(lens, n, i + 1) else i + 1);
    }
  }

  lemma PtSize(t: Tree, nn: nat, nbit: nat, special: int)
    requires Sendable(t, nn, nbit) && nbit <= 2 * nn
    ensures |PtBits(t, nbit, special)| <= nbit + 13 * nn + (if special > 0 then 2 else 0)
  {
    if t.single < 0 {
      LensSize(t.lens, Trim(t.lens, nn), special, 0);
    }
  }

  lemma CSize(ct: Tree, tt: Tree)
    requires Sendable(ct, NC, CBIT) && Coded(TreeRuns(ct), tt)
    ensures |CBits(ct, tt)| <= CBIT + 16 * NC
  {
    if ct.single < 0 {
      var cn := Trim(ct.lens, NC);
      RunsSize(TreeRuns(ct), tt);
      RunsStandFor(ct.lens, cn, 0);
    }
  }

  lemma HeadSize(k: Block)
    requires BlockOk(k)
    ensures |HeadBits(k)| <= HEAD_BITS
  {
    hide PtBits, CBits;
    PtSize(k.tt, NT, TBIT, 3);
    CSize(k.ct, k.tt);
    PtSize(k.pt, NP, PBIT, -1);
  }

  lemma TokSize(t: Tok, ct: Tree, pt: Tree, out: seq<Byte>)
    requires TokOk(t) && TokCoded(t, ct, pt) && Expandable(out, t)
    ensures |TokBits(t, ct, pt)| <= 16 * (|ExpandTok(out, t)| - |out|)
  {
    hide EncodeSym, Codes;
    SymSize(ct, t.sym);
    if t.sym >= 256 {
      SymSize(pt, PosClass(t.pos));
      assert WINDOW == Pow2(13) by {
        Pow2Add(8, 5);
        assert Pow2(5) == 32 && Pow2(8) == 256;
      }
      PosClassBound(t.pos, 13);
    }
  }

  lemma {:induction false} ToksSize(ts: seq<Tok>, ct: Tree, pt: Tree, out: seq<Byte>, r: seq<Byte>)
    requires AllCoded(ts, ct, pt) && Expands(out, ts, r) && forall i :: 0 <= i < |ts| ==> TokOk(ts[i])
    ensures |ToksBits(ts, ct, pt)| <= 16 * (|r| - |out|)
    decreases ts
  {
    hide TokBits, ExpandTok, TokCoded, TokOk, Expandable;
    if ts != [] {
      TokSize(ts[0], ct, pt, out);
      ToksSize(ts[1..], ct, pt, ExpandTok(out, ts[0]), r);
    }
  }

  /** All blocks hold BLOCK_CODES tokens. */
  ghost predicate AllFull(ks: seq<Block>) {
    forall i :: 0 <= i < |ks| ==> |ks[i].toks| == BLOCK_CODES
  }

  lemma BlockSize(k: Block, out: seq<Byte>, r: seq<Byte>)
    requires BlockOk(k) && Expands(out, k.toks, r)
    ensures |BlockBits(k)| <= HEAD_BITS + 16 * (|r| - |out|)
    ensures |k.toks| == BLOCK_CODES ==> |BlockBits(k)| <= 17 * (|r| - |out|)
  {
    HeadSize(k);
    ToksSize(k.toks, k.ct, k.pt, out, r);
    ExpandsGrows(out, k.toks, r);
  }

  /** Full blocks cost at most 17 bits for each byte. */
  lemma {:induction false} FullSize(ks: seq<Block>, out: seq<Byte>, r: seq<Byte>)
    requires AllOk(ks) && AllFull(ks) && Expands(out, AllToks(ks), r)
    ensures |BlocksBits(ks)| <= 17 * (|r| - |out|)
    decreases ks
  {
    hide BlockBits, BlockOk;
    if ks != [] {
      var mid := ExpandsSplit(out, ks[0].toks, AllToks(ks[1..]), r);
      BlockSize(ks[0], out, mid);
      FullSize(ks[1..], mid, r);
    } else {
      NothingMore(out, r);
    }
  }

  /** Only the last block may hold fewer tokens. */
  ghost predicate FullButLast(ks: seq<Block>) {
    ks == [] || AllFull(ks[..|ks| - 1])
  }

  /** The stream of any input the decoder takes fits the 32-bit size field. */
  lemma StreamSize(ks: seq<Block>, r: seq<Byte>)
    requires AllOk(ks) && FullButLast(ks) && Expands([], AllToks(ks), r)
    ensures |BlocksBits(ks)| <= 17 * |r| + HEAD_BITS
    ensures |r| <= MAXSIZE ==> |BlocksBits(ks)| + 7 < 8 * 0xFFFF_FFFF
  {
    hide BlockBits, BlockOk, Expands;
    if ks != [] {
      var m, k := ks[..|ks| - 1], ks[|ks| - 1];
      assert ks == m + [k];
      BlocksAppend(m, k);
      var mid := ExpandsSplit([], AllToks(m), k.toks, r);
      FullSize(m, [], mid);
      ExpandsGrows(mid, k.toks, r);
      BlockSize(k, mid, r);
    }
  }
}
