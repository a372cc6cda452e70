/** Bit strings, most significant bit first, and the numbers and bytes they stand for. */
module Bits {

  type Byte = b: int | 0 <= b < 256

  function Pow2(n: nat): (r: nat)
    ensures r > 0
  {
    if n == 0 then 1 else 2 * Pow2(n - 1)
  }

  lemma {:induction false} Pow2Add(a: nat, b: nat)
    ensures Pow2(a + b) == Pow2(a) * Pow2(b)
  {
    if a > 0 {
      Pow2Add(a - 1, b);
      assert Pow2(a + b) == 2 * Pow2(a - 1 + b);
    }
  }

  lemma {:induction false} Pow2Mono(a: nat, b: nat)
    requires a <= b
    ensures Pow2(a) <= Pow2(b)
  {
    if a < b {
      Pow2Mono(a, b - 1);
    }
  }

  lemma Pow2Values()
    ensures Pow2(4) == 16 && Pow2(8) == 256 && Pow2(16) == 0x1_0000 && Pow2(32) == 0x1_0000_0000
  {
    assert Pow2(4) == 16;
    Pow2Add(4, 4);
    Pow2Add(8, 8);
    Pow2Add(16, 16);
  }

  /** The n low bits of v. */
  function BitsOf(v: nat, n: nat): (b: seq<bool>)
    ensures |b| == n
  {
    if n == 0 then [] else BitsOf(v / 2, n - 1) + [v % 2 == 1]
  }

  function Val(b: seq<bool>): nat {
    if b == [] then 0 else 2 * Val(b[..|b| - 1]) + (if b[|b| - 1] then 1 else 0)
  }

  lemma MulLe(x: int, y: int, z: nat)
    requires x <= y
    ensures x * z <= y * z
  {
  }

  lemma Distribute(x: int, y: int, z: int)
    ensures (x + y) * z == x * z + y * z
  {
  }

  lemma Mul2(x: int, y: int)
    ensures (2 * x) * y == 2 * (x * y) == x * (2 * y)
  {
  }

  /** Euclidean division has one quotient and one remainder. */
  lemma DivModUnique(v: int, d: nat, q: int, r: nat)
    requires v == q * d + r && r < d
    ensures v / d == q && v % d == r
  {
    var q', r' := v / d, v % d;
    assert v == q' * d + r';
    if q < q' {
      MulLe(q + 1, q', d);
      assert false;
    } else if q' < q {
      MulLe(q' + 1, q, d);
      assert false;
    }
  }

  lemma DivHalf(v: nat, b: nat)
    requires b > 0
    ensures v / (2 * b) == v / 2 / b
  {
    var q, r := v / 2, v % 2;
    var q2, r2 := q / b, q % b;
    Mul2(q2, b);
    assert q2 * (2 * b) == 2 * (q2 * b);
    DivModUnique(v, 2 * b, q2, 2 * r2 + r);
  }

  /** v >> n */
  function Shr(v: nat, n: nat): nat {
    if n == 0 then v else Shr(v / 2, n - 1)
  }

  lemma {:induction false} ShrIsDiv(v: nat, n: nat)
    ensures Shr(v, n) == v / Pow2(n)
  {
    if n > 0 {
      ShrIsDiv(v / 2, n - 1);
      DivHalf(v, Pow2(n - 1));
    } else {
      assert v / 1 == v;
    }
  }

  lemma {:induction false} ShrShr(v: nat, a: nat, b: nat)
    ensures Shr(Shr(v, a), b) == Shr(v, a + b)
  {
    if a > 0 {
      ShrShr(v / 2, a - 1, b);
    }
  }

  lemma {:induction false} BitsOfConcat(v: nat, a: nat, b: nat)
    ensures BitsOf(v, a + b) == BitsOf(Shr(v, b), a) + BitsOf(v, b)
  {
    if b > 0 {
      BitsOfConcat(v / 2, a, b - 1);
      var hi, lo, last := BitsOf(Shr(v, b), a), BitsOf(v / 2, b - 1), [v % 2 == 1];
      assert BitsOf(v, a + b) == BitsOf(v / 2, a + (b - 1)) + last;
      assert (hi + lo) + last == hi + (lo + last);
    }
  }

  lemma {:induction false} BitsOfMod(v: nat, m: nat, n: nat)
    requires n <= m
    ensures BitsOf(v % Pow2(m), n) == BitsOf(v, n)
  {
    if n > 0 {
      ModHalf(v, Pow2(m - 1));
      BitsOfMod(v / 2, m - 1, n - 1);
    }
  }

  lemma ModHalf(v: nat, p: nat)
    requires p > 0
    ensures v % (2 * p) % 2 == v % 2
    ensures v % (2 * p) / 2 == v / 2 % p
    ensures v % (2 * p) == 2 * (v / 2 % p) + v % 2
  {
    var q, r := v / 2 / p, v / 2 % p;
    assert v / 2 == q * p + r;
    Mul2(q, p);
    DivModUnique(v, 2 * p, q, 2 * r + v % 2);
  }

  /** Appending k low bits of x to the n low bits of v. */
  lemma BitsOfAppend(v: nat, n: nat, x: nat, k: nat)
    requires x < Pow2(k)
    ensures BitsOf(v * Pow2(k) + x, n + k) == BitsOf(v, n) + BitsOf(x, k)
  {
    var y := v * Pow2(k) + x;
    BitsOfConcat(y, n, k);
    ShrIsDiv(y, k);
    DivModUnique(y, Pow2(k), v, x);
    BitsOfMod(y, k, k);
  }

  lemma {:induction false} ValBitsOf(v: nat, n: nat)
    ensures Val(BitsOf(v, n)) == v % Pow2(n)
  {
    if n > 0 {
      ValBitsOf(v / 2, n - 1);
      var b := BitsOf(v, n);
      assert b[..n - 1] == BitsOf(v / 2, n - 1);
      ModHalf(v, Pow2(n - 1));
    }
  }

  lemma {:induction false} ValBound(b: seq<bool>)
    ensures Val(b) < Pow2(|b|)
  {
    if b != [] {
      ValBound(b[..|b| - 1]);
    }
  }

  // ---- reading a bit string that continues with zeros ----

  function BitAt(b: seq<bool>, i: nat): bool {
    i < |b| && b[i]
  }

  /** The number formed by the n bits at position pos; bits after the end are 0. */
  function Peek(b: seq<bool>, pos: nat, n: nat): nat {
    if n == 0 then 0 else 2 * Peek(b, pos, n - 1) + (if BitAt(b, pos + n - 1) then 1 else 0)
  }

  /** The bit string c stands in b at position pos. */
  predicate At(b: seq<bool>, pos: nat, c: seq<bool>) {
    pos + |c| <= |b| && b[pos..pos + |c|] == c
  }

  lemma AtConcat(b: seq<bool>, pos: nat, c: seq<bool>, d: seq<bool>)
    requires At(b, pos, c + d)
    ensures At(b, pos, c) && At(b, pos + |c|, d)
  {
    assert c == (c + d)[..|c|] == b[pos..pos + |c|];
    assert d == (c + d)[|c|..] == b[pos + |c|..pos + |c| + |d|];
  }

  lemma {:induction false} PeekAt(b: seq<bool>, pos: nat, c: seq<bool>)
    requires At(b, pos, c)
    ensures Peek(b, pos, |c|) == Val(c)
  {
    if c != [] {
      AtConcat(b, pos, c[..|c| - 1], [c[|c| - 1]]) by {
        assert c == c[..|c| - 1] + [c[|c| - 1]];
      }
      PeekAt(b, pos, c[..|c| - 1]);
    }
  }

  lemma PeekBitsOf(b: seq<bool>, pos: nat, v: nat, n: nat)
    requires At(b, pos, BitsOf(v, n)) && v < Pow2(n)
    ensures Peek(b, pos, n) == v
  {
    PeekAt(b, pos, BitsOf(v, n));
    ValBitsOf(v, n);
    DivModUnique(v, Pow2(n), 0, v);
  }

  lemma {:induction false} PeekBound(b: seq<bool>, pos: nat, n: nat)
    ensures Peek(b, pos, n) < Pow2(n)
  {
    if n > 0 {
      PeekBound(b, pos, n - 1);
    }
  }

  /** Reading m more bits keeps the first n as the high part. */
  lemma {:induction false} PeekSplit(b: seq<bool>, pos: nat, n: nat, m: nat)
    ensures Peek(b, pos, n) * Pow2(m) <= Peek(b, pos, n + m) < (Peek(b, pos, n) + 1) * Pow2(m)
  {
    if m > 0 {
      PeekSplit(b, pos, n, m - 1);
      var p, x := Pow2(m - 1), Peek(b, pos, n);
      Mul2(x, p);
      Mul2(x + 1, p);
      assert n + m - 1 == n + (m - 1);
    }
  }

  lemma Assoc<T>(a: seq<T>, b: seq<T>, c: seq<T>)
    ensures (a + b) + c == a + (b + c)
  {
  }

  // ---- bytes ----

  function BytesBits(s: seq<Byte>): (b: seq<bool>)
    ensures |b| == 8 * |s|
  {
    if s == [] then [] else BytesBits(s[..|s| - 1]) + BitsOf(s[|s| - 1], 8)
  }

  lemma BytesBitsAppend(s: seq<Byte>, x: Byte)
    ensures BytesBits(s + [x]) == BytesBits(s) + BitsOf(x, 8)
  {
    assert (s + [x])[..|s|] == s;
  }

  /** Bit p of a byte string is bit 7 - p % 8 of byte p / 8. */
  lemma {:induction false} BytesBitsAt(s: seq<Byte>, p: nat)
    requires p < 8 * |s|
    ensures BytesBits(s)[p] == (Shr(s[p / 8], 7 - p % 8) % 2 == 1)
  {
    var n := |s| - 1;
    if p < 8 * n {
      BytesBitsAt(s[..n], p);
    } else {
      BitsOfAt(s[n], 8, p - 8 * n);
    }
  }

  lemma {:induction false} BitsOfAt(v: nat, n: nat, i: nat)
    requires i < n
    ensures BitsOf(v, n)[i] == (Shr(v, n - 1 - i) % 2 == 1)
  {
    if i < n - 1 {
      BitsOfAt(v / 2, n - 1, i);
    }
  }

  lemma {:induction false} BytesBitsConcat(s: seq<Byte>, t: seq<Byte>)
    ensures BytesBits(s + t) == BytesBits(s) + BytesBits(t)
  {
    if t == [] {
      assert s + t == s;
    } else {
      var n := |t| - 1;
      BytesBitsConcat(s, t[..n]);
      assert (s + t)[..|s + t| - 1] == s + t[..n];
      Assoc(BytesBits(s), BytesBits(t[..n]), BitsOf(t[n], 8));
    }
  }
}
