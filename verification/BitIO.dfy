/** The bit writer and bit reader of the compressed stream. */
module BitIO {
  import opened Bits

  const UINT32: nat := 0x1_0000_0000

  /** Bits written so far: the whole bytes in out, then the low n bits of acc. */
  class BitWriter {
    var out: seq<Byte>
    var acc: nat
    var n: nat

    ghost predicate Valid()
      reads this
    {
      n < 8
    }

    ghost function Contents(): seq<bool>
      reads this
    {
      BytesBits(out) + BitsOf(acc, n)
    }

    constructor (start: seq<Byte>)
      ensures Valid() && Contents() == BytesBits(start)
      ensures out == start && n == 0
    {
      out, acc, n := start, 0, 0;
    }

    /** Appends the count low bits of v. */
    method PutBits(count: nat, v: nat)
      requires Valid() && count <= 32
      modifies this
      ensures Valid()
      ensures Contents() == old(Contents()) + BitsOf(v, count)
    {
      ghost var start := Contents();
      NoBits(start, v, count);
      hide BitsOf, BytesBits, Shr, Pow2;
      var left: nat := count;
      while left > 0
        invariant left <= count && Valid()
        invariant Contents() == start + BitsOf(Shr(v, left), count - left)
      {
        var take := if left > 8 then 8 else left;
        PutStep(start, v, count, left, take);
        left := left - take;
        ShiftIn(take, Shr(v, left) % Pow2(take));
        EmitBytes();
      }
    }

    static lemma NoBits(start: seq<bool>, v: nat, count: nat)
      ensures start + BitsOf(Shr(v, count), 0) == start && Shr(v, 0) == v
    {
    }

    static lemma PutStep(start: seq<bool>, v: nat, count: nat, left: nat, take: nat)
      requires take <= left <= count
      ensures start + BitsOf(Shr(v, left), count - left) + BitsOf(Shr(v, left - take) % Pow2(take), take)
           == start + BitsOf(Shr(v, left - take), count - (left - take))
    {
      var x := Shr(v, left - take);
      BitsOfMod(x, take, take);
      ShrShr(v, left - take, take);
      BitsOfConcat(x, count - left, take);
    }

    /** One step of PutBits: acc takes in a group of at most 8 bits, modulo 2^32. */
    method ShiftIn(take: nat, x: nat)
      requires Valid() && take <= 8 && x < Pow2(take)
      modifies this`acc, this`n
      ensures n == old(n) + take
      ensures Contents() == old(Contents()) + BitsOf(x, take)
    {
      hide BitsOf, BytesBits;
      ShiftStep(acc, n, x, take);
      acc := (acc * Pow2(take) + x) % UINT32;
      n := n + take;
    }

    static lemma ShiftStep(v: nat, n: nat, x: nat, take: nat)
      requires x < Pow2(take) && n + take <= 32
      ensures BitsOf((v * Pow2(take) + x) % UINT32, n + take) == BitsOf(v, n) + BitsOf(x, take)
    {
      hide BitsOf, Pow2;
      Pow2Values();
      BitsOfAppend(v, n, x, take);
      BitsOfMod(v * Pow2(take) + x, 32, n + take);
    }

    /** Moves the whole bytes of acc to out. */
    method EmitBytes()
      requires n <= 16
      modifies this`n, this`out
      ensures Valid() && Contents() == old(Contents())
    {
      hide BitsOf, BytesBits;
      while n >= 8
        invariant n <= 16 && Contents() == old(Contents())
      {
        EmitStep(out, acc, n - 8);
        n := n - 8;
        out := out + [Shr(acc, n) % 256];
      }
    }

    static lemma EmitStep(bytes: seq<Byte>, v: nat, n: nat)
      ensures BytesBits(bytes + [Shr(v, n) % 256]) + BitsOf(v, n) == BytesBits(bytes) + BitsOf(v, n + 8)
    {
      LowByte(v, n);
      BytesBitsAppend(bytes, Shr(v, n) % 256);
    }

    static lemma LowByte(v: nat, n: nat)
      ensures BitsOf(v, n + 8) == BitsOf(Shr(v, n) % 256, 8) + BitsOf(v, n)
    {
      BitsOfConcat(v, 8, n);
      Pow2Values();
      BitsOfMod(Shr(v, n), 8, 8);
    }

    /** Completes the last byte with zeros. */
    method FlushBits()
      requires Valid()
      modifies this
      ensures Valid() && n == 0
      ensures exists pad: nat :: pad < 8 && BytesBits(out) == old(Contents()) + BitsOf(0, pad)
    {
      ghost var pad := if n == 0 then 0 else 8 - n;
      if n != 0 {
        PutBits(8 - n, 0);
      }
      assert |Contents()| == 8 * |out| + n;
      assert |Contents()| == |old(Contents())| + pad;
      assert BitsOf(acc, 0) == [];
      assert BytesBits(out) == old(Contents()) + BitsOf(0, pad);
    }
  }

  /** Reads bits from src; after its end every bit is 0. */
  class BitReader {
    const src: seq<Byte>
    var bitpos: nat
    var bad: bool

    ghost function Stream(): seq<bool> {
      BytesBits(src)
    }

    constructor (src: seq<Byte>)
      ensures this.src == src && bitpos == 0 && !bad
    {
      this.src := src;
      bitpos, bad := 0, false;
    }

    method PeekBits(n: nat) returns (v: nat)
      ensures v == Peek(Stream(), bitpos, n)
    {
      v := 0;
      var i := 0;
      while i < n
        invariant i <= n && v == Peek(Stream(), bitpos, i)
      {
        var p := bitpos + i;
        if p < 8 * |src| {
          BytesBitsAt(src, p);
        }
        var bit := if p / 8 < |src| then Shr(src[p / 8], 7 - p % 8) % 2 else 0;
        v := 2 * v + bit;
        i := i + 1;
      }
    }

    method GetBits(n: nat) returns (v: nat)
      modifies this`bitpos
      ensures v == Peek(Stream(), old(bitpos), n)
      ensures bitpos == old(bitpos) + n
    {
      v := PeekBits(n);
      bitpos := bitpos + n;
    }
  }
}
