/** A block of the compressed stream: its trees, its tokens, and reading them back. */
module Blocks {
  import opened Bits
  import opened Canonical
  import opened Trees
  import opened Headers
  import opened Runs
  import opened Lz

  // ---- tokens ----

  function PosExtra(p: nat): seq<bool> {
    var k := PosClass(p);
    if k > 1 then (PosClassRange(p); BitsOf(p - Pow2(k - 1), k - 1)) else []
  }

  ghost predicate TokCoded(t: Tok, ct: Tree, pt: Tree) {
    Codes(ct, t.sym) && (t.sym >= 256 ==> Codes(pt, PosClass(t.pos)))
  }

  function TokBits(t: Tok, ct: Tree, pt: Tree): seq<bool>
    requires TokCoded(t, ct, pt)
  {
    EncodeSym(ct, t.sym)
    + if t.sym >= 256 then EncodeSym(pt, PosClass(t.pos)) + PosExtra(t.pos) else []
  }

  ghost predicate AllCoded(ts: seq<Tok>, ct: Tree, pt: Tree) {
    forall i :: 0 <= i < |ts| ==> TokCoded(ts[i], ct, pt)
  }

  function ToksBits(ts: seq<Tok>, ct: Tree, pt: Tree): seq<bool>
    requires AllCoded(ts, ct, pt)
  {
    if ts == [] then [] else TokBits(ts[0], ct, pt) + ToksBits(ts[1..], ct, pt)
  }

  /** A distance less 1, read through its class. */
  ghost function ReadPos(b: seq<bool>, pos: nat, pt: Tree): (r: Step<nat>)
    ensures r.Got? ==> r.pos >= pos
  {
    match DecodeSym(pt, b, pos)
    case Fail => Fail
    case Got(k, p) => if k > 1 then Got(Pow2(k - 1) + Peek(b, p, k - 1), p + (k - 1)) else Got(k, p)
  }

  lemma PosRoundTrip(p: nat, pt: Tree, b: seq<bool>, pos: nat)
    requires Codes(pt, PosClass(p)) && At(b, pos, EncodeSym(pt, PosClass(p)) + PosExtra(p))
    ensures ReadPos(b, pos, pt) == Got(p, pos + |EncodeSym(pt, PosClass(p)) + PosExtra(p)|)
  {
    hide At, DecodeSym, EncodeSym, Codes, BitsOf, PosClass, Peek;
    var k := PosClass(p);
    AtConcat(b, pos, EncodeSym(pt, k), PosExtra(p));
    DecodeEncode(pt, k, b, pos);
    PosClassRange(p);
    if k > 1 {
      PeekBitsOf(b, pos + |EncodeSym(pt, k)|, p - Pow2(k - 1), k - 1);
    }
  }

  /** The decoder's copy: it stops when the output is full. */
  function Copy(out: seq<Byte>, dist: nat, len: nat, osize: nat): (r: seq<Byte>)
    requires 1 <= dist <= |out|
    ensures out <= r && (|out| <= osize ==> |r| <= osize)
    decreases len
  {
    if len == 0 || |out| >= osize then out else Copy(out + [out[|out| - dist]], dist, len - 1, osize)
  }

  lemma {:induction false} CopyIsRepeat(out: seq<Byte>, dist: nat, len: nat, osize: nat)
    requires 1 <= dist <= |out| && |out| + len <= osize
    ensures Copy(out, dist, len, osize) == Repeat(out, dist, len)
    decreases len
  {
    if len > 0 {
      CopyIsRepeat(out + [out[|out| - dist]], dist, len - 1, osize);
    }
  }

  /** Reads k tokens and expands them after out, up to osize bytes in all. */
  ghost function ReadToks(b: seq<bool>, pos: nat, k: nat, ct: Tree, pt: Tree, out: seq<Byte>, osize: nat): (s: Step<seq<Byte>>)
    requires |out| <= osize
    ensures s.Got? ==> out <= s.val && |s.val| <= osize && s.pos >= pos
    decreases k
  {
    if k == 0 || |out| == osize then Got(out, pos)
    else
      match DecodeSym(ct, b, pos)
      case Fail => Fail
      case Got(c, p) =>
        if c < 256 then ReadToks(b, p, k - 1, ct, pt, out + [c], osize)
        else
          match ReadPos(b, p, pt)
          case Fail => Fail
          case Got(d, q) =>
            if d + 1 > |out| then Fail
            else ReadToks(b, q, k - 1, ct, pt, Copy(out, d + 1, c - (256 - THRESHOLD), osize), osize)
  }

  lemma TokRoundTrip(t: Tok, k: nat, ct: Tree, pt: Tree, b: seq<bool>, pos: nat, out: seq<Byte>, osize: nat)
    requires TokCoded(t, ct, pt) && At(b, pos, TokBits(t, ct, pt)) && k > 0
    requires Expandable(out, t) && |ExpandTok(out, t)| <= osize
    ensures ReadToks(b, pos, k, ct, pt, out, osize)
         == ReadToks(b, pos + |TokBits(t, ct, pt)|, k - 1, ct, pt, ExpandTok(out, t), osize)
  {
    hide At, DecodeSym, EncodeSym, Codes, ReadPos, PosExtra, PosClass, Copy, Repeat;
    if t.sym >= 256 {
      AtConcat(b, pos, EncodeSym(ct, t.sym), EncodeSym(pt, PosClass(t.pos)) + PosExtra(t.pos));
      DecodeEncode(ct, t.sym, b, pos);
      PosRoundTrip(t.pos, pt, b, pos + |EncodeSym(ct, t.sym)|);
      CopyIsRepeat(out, t.pos + 1, MatchLen(t), osize);
    } else {
      AtConcat(b, pos, EncodeSym(ct, t.sym), []);
      DecodeEncode(ct, t.sym, b, pos);
    }
  }

  lemma {:induction false} ToksRoundTrip(ts: seq<Tok>, ct: Tree, pt: Tree, b: seq<bool>, pos: nat,
                                         out: seq<Byte>, r: seq<Byte>, osize: nat)
    requires AllCoded(ts, ct, pt) && At(b, pos, ToksBits(ts, ct, pt))
    requires Expands(out, ts, r) && |r| <= osize && |out| <= osize
    ensures ReadToks(b, pos, |ts|, ct, pt, out, osize) == Got(r, pos + |ToksBits(ts, ct, pt)|)
    decreases ts
  {
    hide At, TokBits, TokCoded, ExpandTok, Expandable, DecodeSym;
    if ts != [] {
      var t := ts[0];
      AtConcat(b, pos, TokBits(t, ct, pt), ToksBits(ts[1..], ct, pt));
      ExpandsGrows(ExpandTok(out, t), ts[1..], r);
      TokRoundTrip(t, |ts|, ct, pt, b, pos, out, osize);
      ToksRoundTrip(ts[1..], ct, pt, b, pos + |TokBits(t, ct, pt)|, ExpandTok(out, t), r, osize);
    }
  }

  // ---- blocks ----

  datatype Block = Block(toks: seq<Tok>, tt: Tree, ct: Tree, pt: Tree)

  ghost predicate BlockOk(k: Block) {
    && 0 < |k.toks| < 0x1_0000 && (forall i :: 0 <= i < |k.toks| ==> TokOk(k.toks[i]))
    && Sendable(k.tt, NT, TBIT) && Sendable(k.ct, NC, CBIT) && Sendable(k.pt, NP, PBIT)
    && Coded(TreeRuns(k.ct), k.tt) && AllCoded(k.toks, k.ct, k.pt)
  }

  function HeadBits(k: Block): seq<bool>
    requires BlockOk(k)
  {
    BitsOf(|k.toks|, 16) + (PtBits(k.tt, TBIT, 3) + (CBits(k.ct, k.tt) + PtBits(k.pt, PBIT, -1)))
  }

  function BlockBits(k: Block): seq<bool>
    requires BlockOk(k)
  {
    HeadBits(k) + ToksBits(k.toks, k.ct, k.pt)
  }

  datatype Head = Head(count: nat, ct: Tree, pt: Tree)

  ghost function ReadHead(b: seq<bool>, pos: nat): (r: Step<Head>)
    ensures r.Got? ==> r.pos >= pos + 16
  {
    match ReadPt(b, pos + 16, NT, TBIT, 3)
    case Fail => Fail
    case Got(tt, p) =>
      match ReadC(b, p, tt)
      case Fail => Fail
      case Got(ct, q) =>
        match ReadPt(b, q, NP, PBIT, -1)
        case Fail => Fail
        case Got(pt, r) => Got(Head(Peek(b, pos, 16), ct, pt), r)
  }

  ghost function ReadBlock(b: seq<bool>, pos: nat, out: seq<Byte>, osize: nat): (s: Step<seq<Byte>>)
    requires |out| <= osize
    ensures s.Got? ==> out <= s.val && |s.val| <= osize && s.pos >= pos + 16
  {
    match ReadHead(b, pos)
    case Fail => Fail
    case Got(h, p) => ReadToks(b, p, h.count, h.ct, h.pt, out, osize)
  }

  lemma HeadRoundTrip(k: Block, b: seq<bool>, pos: nat)
    requires BlockOk(k) && At(b, pos, HeadBits(k))
    ensures ReadHead(b, pos) == Got(Head(|k.toks|, k.ct, k.pt), pos + |HeadBits(k)|)
  {
    hide At, BitsOf, PtBits, CBits, ReadPt, ReadC, Sendable, Coded, AllCoded, TreeRuns;
    Lengths(k);
    var n, t, c, p := BitsOf(|k.toks|, 16), PtBits(k.tt, TBIT, 3), CBits(k.ct, k.tt), PtBits(k.pt, PBIT, -1);
    AtConcat(b, pos, n, t + (c + p));
    AtConcat(b, pos + 16, t, c + p);
    AtConcat(b, pos + 16 + |t|, c, p);
    Pow2Values();
    PeekBitsOf(b, pos, |k.toks|, 16);
    PtRoundTrip(k.tt, TBIT, 3, b, pos + 16);
    CRoundTrip(k.ct, k.tt, b, pos + 16 + |t|);
    PtRoundTrip(k.pt, PBIT, -1, b, pos + 16 + |t| + |c|);
  }

  lemma Lengths(k: Block)
    requires BlockOk(k)
    ensures |k.tt.lens| == NT && |k.pt.lens| == NP
  {
  }

  /** A block that was written is read back as the expansion of its tokens, and exactly its bits are used. */
  lemma BlockRoundTrip(k: Block, b: seq<bool>, pos: nat, out: seq<Byte>, r: seq<Byte>, osize: nat)
    requires BlockOk(k) && At(b, pos, BlockBits(k))
    requires Expands(out, k.toks, r) && |r| <= osize && |out| <= osize
    ensures ReadBlock(b, pos, out, osize) == Got(r, pos + |BlockBits(k)|)
  {
    hide At, HeadBits, ReadHead, ToksBits, ReadToks, Expands, Coded, Sendable;
    AtConcat(b, pos, HeadBits(k), ToksBits(k.toks, k.ct, k.pt));
    HeadRoundTrip(k, b, pos);
    ToksRoundTrip(k.toks, k.ct, k.pt, b, pos + |HeadBits(k)|, out, r, osize);
  }
}
