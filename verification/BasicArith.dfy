/** What the binary operators compute, for all operands. */
module BasicArith {
  import opened ExprSyntax
  import opened BasicValues
  import opened Bits
  import opened Optional

  // ---- sums and products ----

  lemma Plus64(x: int, y: int) returns (r: int)
    requires -0x8000_0000_0000_0000 <= x < 0x8000_0000_0000_0000
    requires -0x8000_0000_0000_0000 <= y < 0x8000_0000_0000_0000
    ensures BinaryOp(Plus, IntV(x), IntV(y)) == Some(IntV(r))
    ensures -0x8000_0000_0000_0000 <= r < 0x8000_0000_0000_0000 && (r - (x + y)) % 0x1_0000_0000_0000_0000 == 0
  {
    r := Wrap(x + y);
  }

  lemma Minus64(x: int, y: int) returns (r: int)
    requires -0x8000_0000_0000_0000 <= x < 0x8000_0000_0000_0000
    requires -0x8000_0000_0000_0000 <= y < 0x8000_0000_0000_0000
    ensures BinaryOp(Minus, IntV(x), IntV(y)) == Some(IntV(r))
    ensures -0x8000_0000_0000_0000 <= r < 0x8000_0000_0000_0000 && (r + y - x) % 0x1_0000_0000_0000_0000 == 0
  {
    r := Wrap(x - y);
  }

  lemma Star64(x: int, y: int) returns (r: int)
    requires -0x8000_0000_0000_0000 <= x < 0x8000_0000_0000_0000
    requires -0x8000_0000_0000_0000 <= y < 0x8000_0000_0000_0000
    ensures BinaryOp(Star, IntV(x), IntV(y)) == Some(IntV(r))
    ensures -0x8000_0000_0000_0000 <= r < 0x8000_0000_0000_0000 && (r - x * y) % 0x1_0000_0000_0000_0000 == 0
  {
    var p := x * y;
    r := Wrap(p);
    WrapCong(p);
  }

  lemma WrapCong(p: int)
    ensures (Wrap(p) - p) % 0x1_0000_0000_0000_0000 == 0
  {
  }

  /** Subtracting what was added gives the first operand back, and the other way round. */
  lemma MinusUndoesPlus(x: int, y: int)
    requires -0x8000_0000_0000_0000 <= x < 0x8000_0000_0000_0000
    requires -0x8000_0000_0000_0000 <= y < 0x8000_0000_0000_0000
    ensures BinaryOp(Plus, IntV(x), IntV(y)).Some? && BinaryOp(Minus, IntV(x), IntV(y)).Some?
    ensures BinaryOp(Minus, BinaryOp(Plus, IntV(x), IntV(y)).value, IntV(y)) == Some(IntV(x))
    ensures BinaryOp(Plus, BinaryOp(Minus, IntV(x), IntV(y)).value, IntV(y)) == Some(IntV(x))
  {
    var s := Plus64(x, y);
    var d := Minus64(x, y);
    hide BinaryOp;
    var u := Minus64(s, y);
    var v := Plus64(d, y);
    OneResidue(u, x, (s - (x + y)) / 0x1_0000_0000_0000_0000 + (u + y - s) / 0x1_0000_0000_0000_0000);
    OneResidue(v, x, (d + y - x) / 0x1_0000_0000_0000_0000 + (v - (d + y)) / 0x1_0000_0000_0000_0000);
  }

  lemma OneResidue(u: int, x: int, k: int)
    requires -0x8000_0000_0000_0000 <= u < 0x8000_0000_0000_0000
    requires -0x8000_0000_0000_0000 <= x < 0x8000_0000_0000_0000
    requires u == x + k * 0x1_0000_0000_0000_0000
    ensures u == x
  {
  }

  /** Powers: the empty product is 1, each step multiplies by x, and a negative exponent is an error. */
  lemma Caret64(x: int, y: int)
    requires -0x8000_0000_0000_0000 <= x < 0x8000_0000_0000_0000
    requires -0x8000_0000_0000_0000 <= y < 0x7FFF_FFFF_FFFF_FFFF
    ensures BinaryOp(Caret, IntV(x), IntV(0)) == Some(IntV(1))
    ensures y < 0 ==> BinaryOp(Caret, IntV(x), IntV(y)) == None
    ensures y >= 0 ==> BinaryOp(Caret, IntV(x), IntV(y)).Some?
    ensures y >= 0 ==> BinaryOp(Caret, IntV(x), IntV(y + 1)) == BinaryOp(Star, IntV(x), BinaryOp(Caret, IntV(x), IntV(y)).value)
  {
    if y >= 0 {
      PowerStep(x, y);
    }
    hide Power, Wrap;
  }

  lemma PowerStep(x: int, n: nat)
    ensures Power(x, 0) == 1 && Wrap(Power(x, n + 1)) == Wrap(x * Wrap(Power(x, n)))
  {
    var p := Power(x, n);
    assert Power(x, n + 1) == x * p && Power(x, 0) == 1;
    hide Power, Wrap, Cong;
    CongWrapped(p);
    CongMul(Wrap(p), p, x);
    CongWrap(Wrap(p) * x, p * x);
    assert x * p == p * x && x * Wrap(p) == Wrap(p) * x;
  }

  lemma CongWrapped(p: int)
    ensures Cong(Wrap(p), p)
  {
  }

  // ---- division ----

  /** The quotient is rounded toward zero and the remainder has the sign of x; both slashes divide. */
  lemma Divide64(x: int, y: int) returns (q: int, m: int)
    requires -0x8000_0000_0000_0000 <= x < 0x8000_0000_0000_0000
    requires -0x8000_0000_0000_0000 <= y < 0x8000_0000_0000_0000 && y != 0
    ensures BinaryOp(Slash, IntV(x), IntV(y)) == BinaryOp(Backslash, IntV(x), IntV(y)) == Some(IntV(q))
    ensures BinaryOp(Mod, IntV(x), IntV(y)) == Some(IntV(m))
    ensures (if x == -0x8000_0000_0000_0000 && y == -1 then q == x && m == 0 else x == q * y + m)
    ensures if y > 0 then -y < m < y else y < m < -y
    ensures m == 0 || (x < 0 <==> m < 0)
  {
    q, m := Quotient(x, y), Remainder(x, y);
    QuotientFits(x, y);
    hide Quotient, Remainder;
    if x == -0x8000_0000_0000_0000 && y == -1 {
      q := x;
    }
  }

  lemma Euclid(a: int, y: int) returns (q: int, m: int)
    requires a >= 0 && y != 0
    ensures a / y == q && a == q * y + m && 0 <= m && (if y > 0 then m < y else m < -y)
    ensures if y == 1 then q == a else if y == -1 then q == -a else -a <= 2 * q <= a
  {
    q, m := a / y, a % y;
    if y > 1 {
      Bounded(a, q, y, m);
    } else if y < -1 {
      Opposite(q, y);
      Bounded(a, -q, -y, m);
    }
  }

  lemma Opposite(q: int, y: int)
    ensures q * y == (-q) * (-y)
  {
  }

  lemma Bounded(a: int, q: int, y: int, m: int)
    requires y > 1 && a == q * y + m && 0 <= m < y && 0 <= a
    ensures 0 <= 2 * q <= a
  {
    if q < 0 {
      MulLe(q, -1, y);
      assert false;
    }
    MulLe(2, y, q);
  }

  lemma QuotientFits(x: int, y: int)
    requires y != 0
    ensures var q, m := Quotient(x, y), Remainder(x, y);
      && x == q * y + m && (if y > 0 then -y < m < y else y < m < -y) && (m == 0 || (x < 0 <==> m < 0))
      && if y == 1 then q == x else if y == -1 then q == -x else if x < 0 then x <= 2 * q <= -x else -x <= 2 * q <= x
  {
    if x >= 0 {
      var q, m := Euclid(x, y);
      assert Quotient(x, y) == q && Remainder(x, y) == m;
    } else {
      var q, m := Euclid(-x, y);
      Opposite(q, -y);
      assert Quotient(x, y) == -q && Remainder(x, y) == -m;
    }
  }

  lemma DivideByZero(x: int)
    requires -0x8000_0000_0000_0000 <= x < 0x8000_0000_0000_0000
    ensures BinaryOp(Slash, IntV(x), IntV(0)) == None && BinaryOp(Backslash, IntV(x), IntV(0)) == None
    ensures BinaryOp(Mod, IntV(x), IntV(0)) == None
  {
  }

  // ---- comparisons ----

  lemma Compare64(x: int, y: int)
    requires -0x8000_0000_0000_0000 <= x < 0x8000_0000_0000_0000
    requires -0x8000_0000_0000_0000 <= y < 0x8000_0000_0000_0000
    ensures BinaryOp(Eq, IntV(x), IntV(y)) == Some(IntV(if x == y then -1 else 0))
    ensures BinaryOp(Ne, IntV(x), IntV(y)) == Some(IntV(if x != y then -1 else 0))
    ensures BinaryOp(Lt, IntV(x), IntV(y)) == Some(IntV(if x < y then -1 else 0))
    ensures BinaryOp(Gt, IntV(x), IntV(y)) == Some(IntV(if x > y then -1 else 0))
    ensures BinaryOp(Le, IntV(x), IntV(y)) == Some(IntV(if x <= y then -1 else 0))
    ensures BinaryOp(Ge, IntV(x), IntV(y)) == Some(IntV(if x >= y then -1 else 0))
  {
  }

  // ---- bits ----

  /** Bit i of the two's complement form of v; division rounds down. */
  function Bit(v: int, i: nat): bool {
    v / Pow2(i) % 2 == 1
  }

  lemma Pow2Of64()
    ensures Pow2(64) == 0x1_0000_0000_0000_0000
  {
    Pow2Values();
    Pow2Add(32, 32);
  }

  /** A multiple of d moves the quotient. */
  lemma DivMove(v: int, c: int, d: nat)
    requires d > 0
    ensures (v + c * d) / d == v / d + c
  {
    Distribute(v / d, c, d);
    DivModUnique(v + c * d, d, v / d + c, v % d);
  }

  /** Multiples of 2^64 do not change the 64 low bits. */
  lemma BitCong(v: int, k: int, i: nat)
    requires i < 64
    ensures Bit(v + k * 0x1_0000_0000_0000_0000, i) == Bit(v, i)
  {
    var d, e := Pow2(i), Pow2(63 - i);
    Whole(i);
    hide Pow2;
    Regroup(k, d, e);
    DivMove(v, k * (2 * e), d);
    Even(v / d, k * e);
  }

  lemma Whole(i: nat)
    requires i < 64
    ensures Pow2(i) * (2 * Pow2(63 - i)) == 0x1_0000_0000_0000_0000
  {
    Pow2Of64();
    Pow2Add(i, 64 - i);
    assert Pow2(64 - i) == 2 * Pow2(63 - i);
  }

  lemma Even(a: int, b: int)
    ensures (a + 2 * b) % 2 == a % 2
  {
  }

  lemma Regroup(k: int, d: int, e: int)
    ensures k * (d * (2 * e)) == (k * (2 * e)) * d && k * (2 * e) == 2 * (k * e)
  {
  }

  lemma BitUnsigned(x: int, i: nat)
    requires i < 64
    ensures Bit(Unsigned(x), i) == Bit(x, i)
  {
    var k := x / 0x1_0000_0000_0000_0000;
    BitCong(Unsigned(x), k, i);
  }

  lemma BitWrap(x: int, i: nat)
    requires i < 64
    ensures Bit(Wrap(x), i) == Bit(x, i)
  {
    var k := (x + 0x8000_0000_0000_0000) / 0x1_0000_0000_0000_0000;
    BitCong(Wrap(x), k, i);
  }

  lemma BitShr(v: nat, i: nat)
    ensures Bit(v, i) == (Bits.Shr(v, i) % 2 == 1)
  {
    ShrIsDiv(v, i);
  }

  /** One bit of the result. */
  function BitOf(op: Token, p: bool, q: bool): bool {
    if op == And then p && q else if op == Or then p || q else p != q
  }

  lemma BitsOpStep(op: Token, a: nat, b: nat, n: nat)
    requires n > 0
    ensures BitsOp(op, a, b, n) / 2 == BitsOp(op, a / 2, b / 2, n - 1)
    ensures (BitsOp(op, a, b, n) % 2 == 1) == BitOf(op, a % 2 == 1, b % 2 == 1)
  {
  }

  lemma {:induction false} BitsOpAt(op: Token, a: nat, b: nat, n: nat, i: nat)
    requires i < n
    ensures (Bits.Shr(BitsOp(op, a, b, n), i) % 2 == 1) == BitOf(op, Bits.Shr(a, i) % 2 == 1, Bits.Shr(b, i) % 2 == 1)
  {
    hide BitsOp, BitOf;
    BitsOpStep(op, a, b, n);
    if i > 0 {
      BitsOpAt(op, a / 2, b / 2, n - 1, i - 1);
    }
  }

  /** AND, OR and XOR work bit by bit. */
  lemma Bitwise64(x: int, y: int, i: nat) returns (a: int, o: int, e: int)
    requires -0x8000_0000_0000_0000 <= x < 0x8000_0000_0000_0000
    requires -0x8000_0000_0000_0000 <= y < 0x8000_0000_0000_0000 && i < 64
    ensures BinaryOp(And, IntV(x), IntV(y)) == Some(IntV(a)) && Bit(a, i) == (Bit(x, i) && Bit(y, i))
    ensures BinaryOp(Or, IntV(x), IntV(y)) == Some(IntV(o)) && Bit(o, i) == (Bit(x, i) || Bit(y, i))
    ensures BinaryOp(Xor, IntV(x), IntV(y)) == Some(IntV(e)) && Bit(e, i) == (Bit(x, i) != Bit(y, i))
  {
    a, o, e := Bitwise(And, x, y), Bitwise(Or, x, y), Bitwise(Xor, x, y);
    BitwiseAt(And, x, y, i);
    BitwiseAt(Or, x, y, i);
    BitwiseAt(Xor, x, y, i);
    hide Bit, Bitwise;
  }

  lemma BitwiseAt(op: Token, x: int, y: int, i: nat)
    requires i < 64
    ensures var p, q := Bit(x, i), Bit(y, i);
      Bit(Bitwise(op, x, y), i) == if op == And then p && q else if op == Or then p || q else p != q
  {
    hide Bit, BitsOp, Wrap;
    var a, b := Unsigned(x), Unsigned(y);
    BitUnsigned(x, i);
    BitUnsigned(y, i);
    hide Unsigned;
    BitShr(a, i);
    BitShr(b, i);
    var c := BitsOp(op, a, b, 64);
    BitsOpAt(op, a, b, 64, i);
    BitShr(c, i);
    BitWrap(c, i);
  }

  lemma {:induction false} ShrProduct(u: nat, y: nat, i: nat)
    ensures Bits.Shr(u * Pow2(y), i) % 2 == if i < y then 0 else Bits.Shr(u, i - y) % 2
    decreases y
  {
    if y == 0 {
      assert u * Pow2(0) == u;
    } else {
      Mul2(u, Pow2(y - 1));
      assert u * Pow2(y) == 2 * (u * Pow2(y - 1));
      if i > 0 {
        ShrProduct(u, y - 1, i - 1);
      }
    }
  }

  /** Shifts move every bit by y places and fill up with zeros; by 64 or more, or less than 0, nothing is left. */
  lemma Shift64(x: int, y: int, i: nat) returns (l: int, r: int)
    requires -0x8000_0000_0000_0000 <= x < 0x8000_0000_0000_0000
    requires -0x8000_0000_0000_0000 <= y < 0x8000_0000_0000_0000 && i < 64
    ensures BinaryOp(Token.Shl, IntV(x), IntV(y)) == Some(IntV(l)) && BinaryOp(Token.Shr, IntV(x), IntV(y)) == Some(IntV(r))
    ensures 0 <= y < 64 ==> Bit(l, i) == (i >= y && Bit(x, i - y))
    ensures 0 <= y < 64 ==> Bit(r, i) == (i + y < 64 && Bit(x, i + y))
    ensures y < 0 || y >= 64 ==> l == 0 && r == 0
  {
    l, r := Shift(Token.Shl, x, y), Shift(Token.Shr, x, y);
    if 0 <= y < 64 {
      ShiftedLeft(x, y, i);
      ShiftedRight(x, y, i);
    }
    hide Bit;
  }

  lemma ShiftedLeft(x: int, y: nat, i: nat)
    requires y < 64 && i < 64
    ensures Bit(Wrap(Unsigned(x) * Pow2(y)), i) == (i >= y && Bit(x, i - y))
  {
    hide Bit, Wrap;
    var u: nat := Unsigned(x);
    var p := u * Pow2(y);
    BitWrap(p, i);
    BitShr(p, i);
    ShrProduct(u, y, i);
    if i >= y {
      BitShr(u, i - y);
      BitUnsigned(x, i - y);
    }
  }

  lemma ShiftedRight(x: int, y: nat, i: nat)
    requires y < 64 && i < 64
    ensures Bit(Wrap(Bits.Shr(Unsigned(x), y)), i) == (i + y < 64 && Bit(x, i + y))
  {
    hide Bit, Wrap;
    var u: nat := Unsigned(x);
    BitWrap(Bits.Shr(u, y), i);
    BitShr(Bits.Shr(u, y), i);
    ShrShr(u, y, i);
    BitShr(u, i + y);
    if i + y < 64 {
      BitUnsigned(x, i + y);
    } else {
      NoHighBits(u, i + y);
    }
  }

  lemma NoHighBits(u: nat, i: nat)
    requires u < 0x1_0000_0000_0000_0000 && i >= 64
    ensures !Bit(u, i)
  {
    Pow2Of64();
    Pow2Mono(64, i);
    DivModUnique(u, Pow2(i), 0, u);
  }

  // ---- texts ----

  /** x is a proper beginning of y, or at the first place where they differ x has the smaller byte. */
  ghost predicate Less(x: string, y: string) {
    || (|x| < |y| && y[..|x|] == x)
    || exists k :: 0 <= k < |x| && k < |y| && x[..k] == y[..k] && x[k] < y[k]
  }

  lemma {:induction false} OrderIsLess(x: string, y: string)
    ensures OrderStr(x, y) < 0 <==> Less(x, y)
    ensures OrderStr(x, y) > 0 <==> Less(y, x)
    ensures OrderStr(x, y) == 0 <==> x == y
  {
    if x != [] && y != [] {
      if x[0] == y[0] {
        OrderIsLess(x[1..], y[1..]);
        LessTail(x, y);
        LessTail(y, x);
        assert x == [x[0]] + x[1..] && y == [y[0]] + y[1..];
      } else {
        LessHead(x, y);
        LessHead(y, x);
      }
    }
  }

  lemma SameStart(x: string, y: string, k: nat)
    requires k <= |x| && k <= |y| && x[..k] == y[..k]
    ensures k > 0 ==> x[0] == y[0]
  {
    assert k > 0 ==> x[..k][0] == y[..k][0];
  }

  lemma LessHead(x: string, y: string)
    requires x != [] && y != [] && x[0] != y[0]
    ensures Less(x, y) <==> x[0] < y[0]
  {
    assert x[..0] == y[..0];
    if Less(x, y) && |x| >= |y| {
      var k: nat :| k < |x| && k < |y| && x[..k] == y[..k] && x[k] < y[k];
      SameStart(x, y, k);
    }
  }

  lemma LessTail(x: string, y: string)
    requires x != [] && y != [] && x[0] == y[0]
    ensures Less(x, y) <==> Less(x[1..], y[1..])
  {
    var u, v := x[1..], y[1..];
    assert x == [x[0]] + u && y == [x[0]] + v;
    if Less(u, v) {
      LessLonger(x[0], u, v);
    }
    if Less(x, y) {
      LessShorter(x, y);
    }
  }

  lemma LessLonger(c: char, u: string, v: string)
    requires Less(u, v)
    ensures Less([c] + u, [c] + v)
  {
    var x, y := [c] + u, [c] + v;
    if |u| < |v| && v[..|u|] == u {
      assert y[..|x|] == [c] + v[..|u|] == x;
    } else {
      var k: nat :| k < |u| && k < |v| && u[..k] == v[..k] && u[k] < v[k];
      assert x[..k + 1] == [c] + u[..k] == [c] + v[..k] == y[..k + 1];
      assert x[k + 1] < y[k + 1];
    }
  }

  lemma LessShorter(x: string, y: string)
    requires x != [] && y != [] && x[0] == y[0] && Less(x, y)
    ensures Less(x[1..], y[1..])
  {
    var u, v := x[1..], y[1..];
    if |x| < |y| && y[..|x|] == x {
      assert v[..|u|] == y[..|x|][1..] == u;
    } else {
      var k: nat :| k < |x| && k < |y| && x[..k] == y[..k] && x[k] < y[k];
      assert u[..k - 1] == x[..k][1..] == y[..k][1..] == v[..k - 1];
      assert u[k - 1] < v[k - 1];
    }
  }

  /** Texts are concatenated and compared byte by byte. */
  lemma Texts(x: string, y: string)
    ensures BinaryOp(Plus, StrV(x), StrV(y)) == Some(StrV(x + y))
    ensures BinaryOp(Eq, StrV(x), StrV(y)) == Some(IntV(if x == y then -1 else 0))
    ensures BinaryOp(Ne, StrV(x), StrV(y)) == Some(IntV(if x != y then -1 else 0))
    ensures BinaryOp(Lt, StrV(x), StrV(y)) == Some(IntV(if Less(x, y) then -1 else 0))
    ensures BinaryOp(Gt, StrV(x), StrV(y)) == Some(IntV(if Less(y, x) then -1 else 0))
    ensures BinaryOp(Le, StrV(x), StrV(y)) == Some(IntV(if Less(x, y) || x == y then -1 else 0))
    ensures BinaryOp(Ge, StrV(x), StrV(y)) == Some(IntV(if Less(y, x) || x == y then -1 else 0))
  {
    OrderIsLess(x, y);
    hide Less, OrderStr;
  }

  /** Nothing else can be done with texts, and nothing at all with a number and a text. */
  lemma NotForTexts(op: Token, x: string, y: string, i: int)
    requires -0x8000_0000_0000_0000 <= i < 0x8000_0000_0000_0000
    ensures BinaryOp(op, StrV(x), IntV(i)) == None && BinaryOp(op, IntV(i), StrV(x)) == None
    ensures op !in {Plus, Eq, Ne, Lt, Gt, Le, Ge} ==> BinaryOp(op, StrV(x), StrV(y)) == None
  {
  }
}
