/** NESH BASIC values, variables and operators. */
module BasicValues {
  import opened ExprSyntax
  import Bits
  import opened Optional

  datatype Value = IntV(i: int) | StrV(s: string)

  datatype Type = IntT | StrT

  predicate Int64(i: int) {
    -0x8000_0000_0000_0000 <= i < 0x8000_0000_0000_0000
  }

  /** A value that the interpreter can hold. */
  predicate ValueOk(v: Value) {
    v.IntV? ==> Int64(v.i)
  }

  function ValType(v: Value): Type {
    if v.IntV? then IntT else StrT
  }

  predicate Fits(v: Value, t: Type) {
    ValueOk(v) && ValType(v) == t
  }

  /** The type of a variable or function is told by the last character of its name. */
  function NameType(name: string): Type {
    if name != "" && name[|name| - 1] == '$' then StrT else IntT
  }

  function Zero(name: string): (v: Value)
    ensures Fits(v, NameType(name))
  {
    if NameType(name) == StrT then StrV("") else IntV(0)
  }

  /** The static type of an expression. */
  function TypeOf(e: Expr): Type {
    match e
    case Number(_) => IntT
    case Text(_) => StrT
    case Var(name) => NameType(name)
    case Call(name, _) => NameType(name)
    case Neg(_) => IntT
    case Invert(_) => IntT
    case Binary(op, a, _) => if op == Plus then TypeOf(a) else IntT
  }

  // ---- 64-bit arithmetic ----

  /** The 64-bit two's complement integer congruent to x. */
  function Wrap(x: int): (r: int)
    ensures Int64(r)
    ensures Int64(x) ==> r == x
  {
    (x + 0x8000_0000_0000_0000) % 0x1_0000_0000_0000_0000 - 0x8000_0000_0000_0000
  }

  function Unsigned(x: int): (r: int)
    ensures 0 <= r < 0x1_0000_0000_0000_0000
    ensures x >= 0 && Int64(x) ==> r == x
  {
    x % 0x1_0000_0000_0000_0000
  }

  /** Division rounds toward zero. */
  function Quotient(x: int, y: int): int
    requires y != 0
  {
    if x >= 0 then x / y else -(-x / y)
  }

  function Remainder(x: int, y: int): int
    requires y != 0
  {
    x - Quotient(x, y) * y
  }

  /** AND, OR or XOR of the n low bits. */
  function BitsOp(op: Token, a: nat, b: nat, n: nat): nat {
    if n == 0 then 0
    else
      var p, q := a % 2 == 1, b % 2 == 1;
      var bit := if op == And then p && q else if op == Or then p || q else p != q;
      2 * BitsOp(op, a / 2, b / 2, n - 1) + (if bit then 1 else 0)
  }

  function Power(x: int, n: nat): int {
    if n == 0 then 1 else x * Power(x, n - 1)
  }

  function Truth(b: bool): (v: Value)
    ensures Fits(v, IntT)
  {
    IntV(if b then -1 else 0)
  }

  /** Comparison operators; c is negative, zero or positive. */
  function Compare(op: Token, c: int): Option<bool> {
    match op
    case Eq => Some(c == 0)
    case Ne => Some(c != 0)
    case Lt => Some(c < 0)
    case Gt => Some(c > 0)
    case Le => Some(c <= 0)
    case Ge => Some(c >= 0)
    case _ => None
  }

  function OrderInt(x: int, y: int): int {
    if x < y then -1 else if x > y then 1 else 0
  }

  /** Byte order; a proper prefix comes first. */
  function OrderStr(x: string, y: string): int {
    if x == [] || y == [] then OrderInt(|x|, |y|)
    else if x[0] != y[0] then OrderInt(x[0] as int, y[0] as int)
    else OrderStr(x[1..], y[1..])
  }

  function Divide(op: Token, x: int, y: int): (r: int)
    requires y != 0
    ensures Int64(r)
  {
    Wrap(if op == Mod then Remainder(x, y) else Quotient(x, y))
  }

  function Bitwise(op: Token, x: int, y: int): (r: int)
    ensures Int64(r)
  {
    Wrap(BitsOp(op, Unsigned(x), Unsigned(y), 64))
  }

  /** Shifts by 64 or more, or by a negative count, give 0; the right shift is logical. */
  function Shift(op: Token, x: int, y: int): (r: int)
    ensures Int64(r)
  {
    if y >= 64 || y < 0 then 0
    else if op == Shl then Wrap(Unsigned(x) * Bits.Pow2(y))
    else Wrap(Bits.Shr(Unsigned(x), y))
  }

  function IntOp(op: Token, x: int, y: int): (r: Option<Value>)
    requires Int64(x) && Int64(y)
    ensures r.Some? ==> Fits(r.value, IntT)
  {
    match op
    case Plus => Some(IntV(Wrap(x + y)))
    case Minus => Some(IntV(Wrap(x - y)))
    case Star => Some(IntV(Wrap(x * y)))
    case Slash | Backslash | Mod => if y == 0 then None else Some(IntV(Divide(op, x, y)))
    case Caret => if y < 0 then None else Some(IntV(Wrap(Power(x, y))))
    case And | Or | Xor => Some(IntV(Bitwise(op, x, y)))
    case Shl | Shr => Some(IntV(Shift(op, x, y)))
    case _ =>
      var c := Compare(op, OrderInt(x, y));
      if c.Some? then Some(Truth(c.value)) else None
  }

  function StrOp(op: Token, x: string, y: string): (r: Option<Value>)
    ensures r.Some? ==> Fits(r.value, if op == Plus then StrT else IntT)
  {
    if op == Plus then Some(StrV(x + y))
    else
      var c := Compare(op, OrderStr(x, y));
      if c.Some? then Some(Truth(c.value)) else None
  }

  /** The value of a binary operator; None is a runtime error. */
  function BinaryOp(op: Token, a: Value, b: Value): (r: Option<Value>)
    requires ValueOk(a) && ValueOk(b)
    ensures r.Some? ==> ValType(a) == ValType(b)
    ensures r.Some? ==> Fits(r.value, if op == Plus then ValType(a) else IntT)
  {
    match (a, b)
    case (IntV(x), IntV(y)) => IntOp(op, x, y)
    case (StrV(x), StrV(y)) => StrOp(op, x, y)
    case _ => None
  }

  // ---- exponentiation by squaring ----

  lemma {:induction false} PowerSquare(x: int, n: nat)
    ensures Power(x * x, n) == Power(x, 2 * n)
  {
    if n > 0 {
      PowerSquare(x, n - 1);
      assert Power(x, 2 * n) == x * Power(x, 2 * n - 1);
      assert Power(x, 2 * n - 1) == x * Power(x, 2 * n - 2);
      var p := Power(x, 2 * (n - 1));
      assert x * (x * p) == (x * x) * p;
    }
  }

  /** The same residue modulo 2^64. */
  predicate Cong(a: int, b: int) {
    Unsigned(a) == Unsigned(b)
  }

  lemma CongBy(a: int, b: int, k: int)
    requires a == b + k * 0x1_0000_0000_0000_0000
    ensures Cong(a, b)
  {
  }

  lemma CongMul(a: int, b: int, c: int)
    requires Cong(a, b)
    ensures Cong(a * c, b * c)
  {
    var k := a / 0x1_0000_0000_0000_0000 - b / 0x1_0000_0000_0000_0000;
    assert a == b + k * 0x1_0000_0000_0000_0000;
    assert a * c == b * c + (k * c) * 0x1_0000_0000_0000_0000;
    CongBy(a * c, b * c, k * c);
  }

  lemma {:induction false} CongPower(a: int, b: int, n: nat)
    requires Cong(a, b)
    ensures Cong(Power(a, n), Power(b, n))
  {
    if n > 0 {
      var p, q := Power(a, n - 1), Power(b, n - 1);
      CongPower(a, b, n - 1);
      CongMul(a, b, p);
      CongMul(p, q, b);
      hide Unsigned;
      assert p * b == b * p && q * b == b * q;
    }
  }

  lemma CongWrap(a: int, b: int)
    requires Cong(a, b)
    ensures Wrap(a) == Wrap(b)
  {
  }

  lemma PowerHalf(x: int, n: nat)
    ensures Power(x, n) == (if n % 2 == 1 then x else 1) * Power(x * x, n / 2)
  {
    PowerSquare(x, n / 2);
  }

  /** One round of the loop keeps acc * base^e up to multiples of 2^64. */
  lemma SquareStep(acc: int, base: int, e: nat)
    ensures Cong(Unsigned(if e % 2 == 1 then acc * base else acc) * Power(Unsigned(base * base), e / 2),
                 acc * Power(base, e))
  {
    hide Power, Cong, Unsigned;
    var odd := if e % 2 == 1 then acc * base else acc;
    var p, q := Power(Unsigned(base * base), e / 2), Power(base * base, e / 2);
    PowerHalf(base, e);
    MulAssoc(acc, base, q);
    CongUnsigned(odd);
    CongUnsigned(base * base);
    CongMul(Unsigned(odd), odd, p);
    CongPower(Unsigned(base * base), base * base, e / 2);
    CongMul(p, q, odd);
    CongTrans(Unsigned(odd) * p, odd * p, p * odd, q * odd);
  }

  lemma MulAssoc(a: int, b: int, c: int)
    ensures (a * b) * c == a * (b * c)
  {
  }

  lemma CongUnsigned(a: int)
    ensures Cong(Unsigned(a), a)
  {
  }

  lemma CongTrans(a: int, b: int, c: int, d: int)
    requires Cong(a, b) && b == c && Cong(c, d)
    ensures Cong(a, d)
  {
  }

  /** '^' by repeated squaring in 64 bits. */
  method IntPower(x: int, y: nat) returns (r: int)
    ensures r == Wrap(Power(x, y))
  {
    var base, acc, e := Unsigned(x), 1, y;
    CongPower(Unsigned(x), x, y);
    assert 1 * Power(base, y) == Power(base, y);
    while e > 0
      invariant Cong(acc * Power(base, e), Power(x, y))
    {
      SquareStep(acc, base, e);
      if e % 2 == 1 {
        acc := Unsigned(acc * base);
      } else {
        acc := Unsigned(acc);
      }
      base := Unsigned(base * base);
      e := e / 2;
    }
    assert acc * Power(base, 0) == acc;
    r := Wrap(acc);
    CongWrap(acc, Power(x, y));
  }
}
