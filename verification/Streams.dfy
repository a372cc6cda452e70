/** The whole stream: an 8-byte header and blocks. Decode is the meaning of a compressed file. */
module Streams {
  import opened Bits
  import opened Canonical
  import opened Trees
  import opened Headers
  import opened Runs
  import opened Lz
  import opened Blocks
  import opened Optional

  const MAXSIZE: nat := 0x4000_0000
  const BLOCK_CODES: nat := 16384

  function Le32(s: seq<Byte>): nat
    requires |s| == 4
  {
    var b0: nat, b1: nat, b2: nat, b3: nat := s[0], s[1], s[2], s[3];
    b0 + 0x100 * b1 + 0x1_0000 * b2 + 0x100_0000 * b3
  }

  function LowByte(v: nat): Byte {
    v % 0x100
  }

  function Le32Bytes(v: nat): (s: seq<Byte>)
    ensures |s| == 4
  {
    [LowByte(v), LowByte(v / 0x100), LowByte(v / 0x1_0000), LowByte(v / 0x100_0000)]
  }

  lemma Le32RoundTrip(v: nat)
    requires v < 0x1_0000_0000
    ensures Le32(Le32Bytes(v)) == v
  {
    var q := v / 0x100;
    assert q / 0x100 == v / 0x1_0000 && q / 0x1_0000 == v / 0x100_0000;
  }

  /** The last byte a block may end in, computed in 32 bits. */
  function LastByte(csize: nat): (n: nat)
    ensures n <= csize + 1 && (csize < 0xFFFF_FFFF ==> n == csize + 1)
  {
    (csize + 1) % 0x1_0000_0000
  }

  /** Reads blocks until the output is complete; none may end after the byte that follows the data. */
  ghost function ReadBlocks(b: seq<bool>, pos: nat, out: seq<Byte>, osize: nat, csize: nat): (r: Option<seq<Byte>>)
    requires |out| <= osize && pos < 8 * (csize + 2)
    ensures r.Some? ==> |r.value| == osize && out <= r.value
    decreases 8 * (csize + 2) - pos
  {
    if |out| == osize then Some(out)
    else
      match ReadBlock(b, pos, out, osize)
      case Fail => None
      case Got(next, p) => if p / 8 > LastByte(csize) then None else ReadBlocks(b, p, next, osize, csize)
  }

  ghost function Decode(file: seq<Byte>): (r: Option<seq<Byte>>)
    ensures r.Some? ==> |file| >= 8 && |r.value| == Le32(file[4..8]) <= MAXSIZE
  {
    if |file| < 8 then None
    else
      var csize, osize := Le32(file[..4]), Le32(file[4..8]);
      if csize > |file| - 8 || osize > MAXSIZE then None
      else ReadBlocks(BytesBits(file[8..8 + csize]), 0, [], osize, csize)
  }

  /** With the largest size field the limit wraps to 0: no such file with any contents is accepted. */
  lemma LargestRefused(file: seq<Byte>)
    requires |file| >= 8 && Le32(file[..4]) == 0xFFFF_FFFF && Le32(file[4..8]) > 0
    ensures Decode(file) == None
  {
    hide ReadBlock, BytesBits, Le32;
    assert LastByte(0xFFFF_FFFF) == 0;
  }

  // ---- what the compressor writes ----

  ghost predicate AllOk(ks: seq<Block>) {
    forall i :: 0 <= i < |ks| ==> BlockOk(ks[i])
  }

  function BlocksBits(ks: seq<Block>): seq<bool>
    requires AllOk(ks)
  {
    if ks == [] then [] else BlockBits(ks[0]) + BlocksBits(ks[1..])
  }

  function AllToks(ks: seq<Block>): seq<Tok> {
    if ks == [] then [] else ks[0].toks + AllToks(ks[1..])
  }

  lemma {:induction false} BlocksAppend(ks: seq<Block>, k: Block)
    requires AllOk(ks) && BlockOk(k)
    ensures AllOk(ks + [k])
    ensures BlocksBits(ks + [k]) == BlocksBits(ks) + BlockBits(k)
    ensures AllToks(ks + [k]) == AllToks(ks) + k.toks
  {
    hide BlockOk, BlockBits;
    if ks == [] {
      assert [k][1..] == [];
      assert BlocksBits([k]) == BlockBits(k) + BlocksBits([]);
      assert AllToks([k]) == k.toks + AllToks([]);
    } else {
      BlocksAppend(ks[1..], k);
      assert (ks + [k])[1..] == ks[1..] + [k];
      Assoc(BlockBits(ks[0]), BlocksBits(ks[1..]), BlockBits(k));
      Assoc(ks[0].toks, AllToks(ks[1..]), k.toks);
    }
  }

  lemma {:induction false} ExpandsSplit(out: seq<Byte>, ts: seq<Tok>, us: seq<Tok>, r: seq<Byte>) returns (mid: seq<Byte>)
    requires Expands(out, ts + us, r)
    ensures Expands(out, ts, mid) && Expands(mid, us, r)
    decreases ts
  {
    hide Expandable, ExpandTok;
    if ts == [] {
      mid := out;
      assert ts + us == us;
    } else {
      assert (ts + us)[1..] == ts[1..] + us;
      mid := ExpandsSplit(ExpandTok(out, ts[0]), ts[1..], us, r);
    }
  }

  lemma {:induction false} BlocksRoundTrip(ks: seq<Block>, b: seq<bool>, pos: nat, out: seq<Byte>, r: seq<Byte>, csize: nat)
    requires AllOk(ks) && At(b, pos, BlocksBits(ks)) && |b| == 8 * csize && csize < 0xFFFF_FFFF
    requires Expands(out, AllToks(ks), r) && |out| <= |r|
    ensures ReadBlocks(b, pos, out, |r|, csize) == Some(r)
    decreases ks
  {
    hide At, BlockBits, ReadBlock, Expands, BlockOk;
    PosInStream(b, pos, BlocksBits(ks));
    if ks == [] {
      NothingMore(out, r);
    } else {
      var k := ks[0];
      SomeToks(k);
      var mid := ExpandsSplit(out, k.toks, AllToks(ks[1..]), r);
      ExpandsGrows(out, k.toks, mid);
      ExpandsGrows(mid, AllToks(ks[1..]), r);
      AtConcat(b, pos, BlockBits(k), BlocksBits(ks[1..]));
      PosInStream(b, pos + |BlockBits(k)|, BlocksBits(ks[1..]));
      BlockRoundTrip(k, b, pos, out, mid, |r|);
      BlocksRoundTrip(ks[1..], b, pos + |BlockBits(k)|, mid, r, csize);
    }
  }

  lemma NothingMore(out: seq<Byte>, r: seq<Byte>)
    requires Expands(out, [], r)
    ensures out == r
  {
  }

  lemma SomeToks(k: Block)
    requires BlockOk(k)
    ensures |k.toks| > 0
  {
  }

  lemma PosInStream(b: seq<bool>, pos: nat, c: seq<bool>)
    requires At(b, pos, c)
    ensures pos + |c| <= |b|
  {
  }

  /** The file made of blocks ks, completed with zero bits to whole bytes. */
  ghost predicate IsFile(file: seq<Byte>, ks: seq<Block>, osize: nat) {
    && |file| >= 8 && AllOk(ks)
    && file[..4] == Le32Bytes(|file| - 8) && file[4..8] == Le32Bytes(osize)
    && |file| - 8 < 0xFFFF_FFFF
    && At(BytesBits(file[8..]), 0, BlocksBits(ks))
  }

  /** The decoder restores what the blocks of a file expand to. */
  lemma FileRoundTrip(file: seq<Byte>, ks: seq<Block>, r: seq<Byte>)
    requires |r| <= MAXSIZE && IsFile(file, ks, |r|) && Expands([], AllToks(ks), r)
    ensures Decode(file) == Some(r)
  {
    hide ReadBlocks, Le32, Le32Bytes, At, Expands, BlocksBits;
    var csize := |file| - 8;
    Le32RoundTrip(csize);
    Le32RoundTrip(|r|);
    assert file[8..8 + csize] == file[8..];
    BlocksRoundTrip(ks, BytesBits(file[8..]), 0, [], r, csize);
  }
}
