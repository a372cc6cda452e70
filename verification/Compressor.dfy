/** The compressor. */
module Compressor {
  import opened Bits
  import opened BitIO
  import opened Lz
  import opened Blocks
  import opened Streams
  import opened Sizes
  import opened BlockWriter
  import opened Matcher
  import opened Optional
  import Format
  import FormatEncoding

  /** The token for position i: the longest match if it is long enough, else a literal. */
  method NextToken(s: seq<Byte>, i: nat, head: array<int>, prev: array<int>) returns (t: Tok, adv: nat)
    requires i < |s| && Chained(s, i, head[..], prev[..])
    ensures TokOk(t) && 0 < adv <= |s| - i
    ensures Expandable(s[..i], t) && ExpandTok(s[..i], t) == s[..i + adv]
    ensures t.sym >= 256 ==> BestAt(s, i, MatchLen(t), t.pos)
    ensures t.sym < 256 ==> NoMatch(s, i)
  {
    hide Chained, BestAt, NoMatch, Repeat;
    if i + THRESHOLD <= |s| {
      var best, pos := FindMatch(s, i, head, prev);
      if best >= THRESHOLD {
        BestIsTrue(s, i, best, pos);
        RepeatMatch(s, i, pos + 1, best);
        return Tok(best + 256 - THRESHOLD, pos), best;
      }
      BestTooShort(s, i, best, pos);
    } else {
      NearEnd(s, i);
    }
    assert s[..i] + [s[i]] == s[..i + 1];
    t, adv := Tok(s[i], 0), 1;
  }

  lemma NearEnd(s: seq<Byte>, i: nat)
    requires i + THRESHOLD > |s|
    ensures NoMatch(s, i)
  {
  }

  method InsertAll(s: seq<Byte>, i: nat, adv: nat, head: array<int>, prev: array<int>) returns (j: nat)
    requires i + adv <= |s| && head != prev && Chained(s, i, head[..], prev[..])
    modifies head, prev
    ensures j == i + adv && Chained(s, j, head[..], prev[..])
  {
    hide Chained;
    j := i;
    for k := 0 to adv
      invariant j == i + k && Chained(s, j, head[..], prev[..])
    {
      Insert(s, j, head, prev);
      j := j + 1;
    }
  }

  /** What has been written when the first i bytes are encoded: blocks ks, and tokens not yet in a block. */
  ghost predicate Written(s: seq<Byte>, i: nat, ks: seq<Block>, pending: seq<Tok>, bits: seq<bool>) {
    && i <= |s| && AllOk(ks) && ToksOk(pending)
    && Expands([], AllToks(ks) + pending, s[..i])
    && bits == BlocksBits(ks)
  }

  lemma AddToken(s: seq<Byte>, i: nat, ks: seq<Block>, pending: seq<Tok>, bits: seq<bool>, t: Tok, adv: nat)
    requires Written(s, i, ks, pending, bits) && i + adv <= |s| && TokOk(t)
    requires Expandable(s[..i], t) && ExpandTok(s[..i], t) == s[..i + adv]
    ensures Written(s, i + adv, ks, pending + [t], bits)
  {
    hide AllOk, BlocksBits, AllToks, Expandable, ExpandTok, TokOk;
    OneToken(s[..i], t, s[..i + adv]);
    ExpandsConcat([], AllToks(ks) + pending, s[..i], [t], s[..i + adv]);
    Assoc(AllToks(ks), pending, [t]);
  }

  lemma OneToken(out: seq<Byte>, t: Tok, r: seq<Byte>)
    requires Expandable(out, t) && ExpandTok(out, t) == r
    ensures Expands(out, [t], r)
  {
    assert [t][1..] == [];
  }

  lemma AddBlock(s: seq<Byte>, i: nat, ks: seq<Block>, bits: seq<bool>, k: Block)
    requires Written(s, i, ks, k.toks, bits) && BlockOk(k)
    ensures Written(s, i, ks + [k], [], bits + BlockBits(k))
  {
    hide AllOk, BlocksBits, AllToks, BlockOk, BlockBits, Expands;
    BlocksAppend(ks, k);
    assert AllToks(ks + [k]) + [] == AllToks(ks) + k.toks;
  }

  lemma FullAppend(ks: seq<Block>, k: Block)
    requires AllFull(ks)
    ensures |k.toks| == BLOCK_CODES ==> AllFull(ks + [k])
    ensures FullButLast(ks + [k])
  {
    assert (ks + [k])[..|ks|] == ks;
  }

  /** Writes the pending tokens as a block. */
  method EmitBlock(w: BitWriter, toks: seq<Tok>, ghost s: seq<Byte>, ghost i: nat, ghost ks: seq<Block>, ghost bits: seq<bool>)
    returns (ghost k: Block)
    requires w.Valid() && 0 < |toks| <= BLOCK_CODES
    requires Written(s, i, ks, toks, bits)
    modifies w
    ensures w.Valid() && k.toks == toks
    ensures BlockOk(k) && w.Contents() == old(w.Contents()) + BlockBits(k)
    ensures Written(s, i, ks + [k], [], bits + BlockBits(k))
  {
    hide BlockOk, BlockBits, Expands, AllToks, BlocksBits;
    k := WriteBlock(w, toks);
    AddBlock(s, i, ks, bits, k);
  }

  /** Conversion to a 32-bit unsigned integer. */
  function U32(v: nat): (r: nat)
    ensures v < 0x1_0000_0000 ==> r == v
  {
    v % 0x1_0000_0000
  }

  /** Compresses s: the result is a file of the format that stands for s and nothing follows its blocks;
      decoding it gives back s, and its size fits the 32-bit field. */
  method Compress(s: seq<Byte>) returns (file: seq<Byte>)
    requires |s| <= MAXSIZE
    ensures Format.Stands(file, s) && Decode(file) == Some(s)
    ensures |file| - 8 == Le32(file[..4]) < 0xFFFF_FFFF
  {
    var zeros := [0, 0, 0, 0, 0, 0, 0, 0];
    var w := new BitWriter(zeros);
    ghost var ks := EncodeAll(w, s);
    ghost var bits := BlocksBits(ks);
    ghost var full := w.Contents();
    w.FlushBits();
    ghost var pad: nat :| pad < 8 && BytesBits(w.out) == full + BitsOf(0, pad);
    StreamSize(ks, s);
    var csize := U32(|w.out| - 8);
    file := Le32Bytes(csize) + Le32Bytes(U32(|s|)) + w.out[8..];
    Finish(w.out, zeros, ks, pad, file, s);
  }

  /** The file after the header is patched. */
  lemma Finish(out: seq<Byte>, zeros: seq<Byte>, ks: seq<Block>, pad: nat, file: seq<Byte>, s: seq<Byte>)
    requires |zeros| == 8 && AllOk(ks) && pad < 8 && |s| <= MAXSIZE
    requires Expands([], AllToks(ks), s) && |BlocksBits(ks)| + 7 < 8 * 0xFFFF_FFFF
    requires BytesBits(out) == BytesBits(zeros) + BlocksBits(ks) + BitsOf(0, pad)
    requires |out| >= 8 && file == Le32Bytes(U32(|out| - 8)) + Le32Bytes(U32(|s|)) + out[8..]
    ensures Format.Stands(file, s) && Decode(file) == Some(s)
    ensures |file| - 8 == Le32(file[..4]) < 0xFFFF_FFFF
  {
    hide Expands, BlocksBits, AllOk, Decode, BytesBits, BitsOf, Le32, Le32Bytes, At, IsFile, U32, Format.Stands;
    var csize := |out| - 8;
    Payload(out, zeros, BlocksBits(ks), BitsOf(0, pad));
    assert |BytesBits(out)| == 8 * |out| == 64 + |BlocksBits(ks)| + pad;
    Header(file, Le32Bytes(csize), Le32Bytes(|s|), out[8..]);
    Le32RoundTrip(csize);
    Assemble(file, ks, |s|);
    FileRoundTrip(file, ks, s);
    FormatEncoding.FileStands(file, ks, s);
  }

  lemma Assemble(file: seq<Byte>, ks: seq<Block>, osize: nat)
    requires |file| >= 8 && AllOk(ks) && |file| - 8 < 0xFFFF_FFFF
    requires file[..4] == Le32Bytes(|file| - 8) && file[4..8] == Le32Bytes(osize)
    requires At(BytesBits(file[8..]), 0, BlocksBits(ks))
    ensures IsFile(file, ks, osize)
  {
  }

  lemma Header(file: seq<Byte>, a: seq<Byte>, b: seq<Byte>, rest: seq<Byte>)
    requires |a| == 4 && |b| == 4 && file == a + b + rest
    ensures file[..4] == a && file[4..8] == b && file[8..] == rest && |file| == 8 + |rest|
  {
  }

  lemma Payload(out: seq<Byte>, zeros: seq<Byte>, bits: seq<bool>, pad: seq<bool>)
    requires |zeros| == 8 && |out| >= 8 && BytesBits(out) == BytesBits(zeros) + bits + pad
    ensures At(BytesBits(out[8..]), 0, bits)
  {
    hide BytesBits;
    assert out == out[..8] + out[8..];
    BytesBitsConcat(out[..8], out[8..]);
    Tail(BytesBits(out[..8]), BytesBits(out[8..]), BytesBits(zeros), bits, pad);
  }

  lemma Tail(a: seq<bool>, b: seq<bool>, c: seq<bool>, bits: seq<bool>, pad: seq<bool>)
    requires |a| == |c| && a + b == c + bits + pad
    ensures At(b, 0, bits)
  {
    assert b == (a + b)[|a|..] == (c + bits + pad)[|c|..] == bits + pad;
  }

  /** Encodes all of s as blocks. */
  method EncodeAll(w: BitWriter, s: seq<Byte>) returns (ghost ks: seq<Block>)
    requires w.Valid()
    modifies w
    ensures w.Valid() && AllOk(ks) && FullButLast(ks)
    ensures Expands([], AllToks(ks), s)
    ensures w.Contents() == old(w.Contents()) + BlocksBits(ks)
  {
    hide Chained, BlocksBits, AllToks, Expands, AllOk, BlockOk, BlockBits, TokOk, Expandable, ExpandTok, BestAt, NoMatch;
    ghost var start := w.Contents();
    var head := new int[HASH_SIZE](_ => -1);
    var prev := new int[if |s| > 0 then |s| else 1](_ => 0);
    var toks := new Tok[BLOCK_CODES](_ => Tok(0, 0));
    var nt := 0;
    var i := 0;
    ks := [];
    ghost var bits: seq<bool> := [];
    StartChains(s, head[..], prev[..]);
    StartWritten(s);
    assert toks[..0] == [];
    while i < |s|
      invariant w.Valid() && i <= |s| && nt < BLOCK_CODES
      invariant Chained(s, i, head[..], prev[..])
      invariant Written(s, i, ks, toks[..nt], bits) && AllFull(ks)
      invariant w.Contents() == start + bits
      invariant toks.Length == BLOCK_CODES && fresh(toks) && fresh(head) && fresh(prev) && head != prev
    {
      var t, adv := NextToken(s, i, head, prev);
      AddToken(s, i, ks, toks[..nt], bits, t, adv);
      ghost var before := toks[..nt];
      toks[nt] := t;
      nt := nt + 1;
      assert toks[..nt] == before + [t];
      i := InsertAll(s, i, adv, head, prev);
      if nt == BLOCK_CODES {
        ghost var k := EmitBlock(w, toks[..nt], s, i, ks, bits);
        Assoc(start, bits, BlockBits(k));
        FullAppend(ks, k);
        ks, bits := ks + [k], bits + BlockBits(k);
        nt := 0;
        assert toks[..0] == [];
      }
    }
    if nt > 0 {
      ghost var k := EmitBlock(w, toks[..nt], s, i, ks, bits);
      Assoc(start, bits, BlockBits(k));
      FullAppend(ks, k);
      ks, bits := ks + [k], bits + BlockBits(k);
    } else {
      assert toks[..0] == [];
      FullPrefix(ks);
    }
    EndWritten(s, ks, bits);
  }

  lemma StartChains(s: seq<Byte>, head: seq<int>, prev: seq<int>)
    requires |head| == HASH_SIZE && |prev| >= |s| && forall h :: 0 <= h < |head| ==> head[h] == -1
    ensures Chained(s, 0, head, prev)
  {
  }

  lemma StartWritten(s: seq<Byte>)
    ensures Written(s, 0, [], [], [])
  {
    assert AllToks([]) + [] == [];
  }

  lemma FullPrefix(ks: seq<Block>)
    requires AllFull(ks)
    ensures FullButLast(ks)
  {
  }

  lemma EndWritten(s: seq<Byte>, ks: seq<Block>, bits: seq<bool>)
    requires Written(s, |s|, ks, [], bits)
    ensures AllOk(ks) && Expands([], AllToks(ks), s) && bits == BlocksBits(ks)
  {
    assert AllToks(ks) + [] == AllToks(ks);
    assert s[..|s|] == s;
  }
}
