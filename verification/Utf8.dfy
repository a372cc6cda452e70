/** UTF-8 and UCS-2. Any bytes decode; what UCS-2 text becomes in UTF-8 decodes to itself. */
module Utf8 {
  import opened Bits

  const REPLACEMENT: nat := 0xFFFD

  /** A 16-bit unit. */
  type Unit = u: int | 0 <= u < 0x10000

  datatype Char = Char(cp: nat, size: nat)

  // ---- one character ----

  /** The sequence length and the value bits a first byte announces, if it is one. */
  function Lead(c: Byte): Char {
    if c < 0x80 then Char(c, 1)
    else if 0xC0 <= c < 0xE0 then Char(c % 32, 2)
    else if 0xE0 <= c < 0xF0 then Char(c % 16, 3)
    else if 0xF0 <= c < 0xF8 then Char(c % 8, 4)
    else Char(REPLACEMENT, 0)
  }

  predicate Continues(c: Byte) {
    0x80 <= c < 0xC0
  }

  function Accumulate(v: nat, s: seq<Byte>): nat
    decreases |s|
  {
    if s == [] then v else Accumulate(v * 64 + s[0] % 64, s[1..])
  }

  /** The first character of s; a malformed one is the replacement character and takes one byte. */
  function Decode(s: seq<Byte>): (c: Char)
    ensures s != [] ==> 1 <= c.size <= |s|
  {
    if s == [] then Char(0, 0)
    else
      var l := Lead(s[0]);
      if l.size == 0 || l.size > |s| || !(forall i :: 1 <= i < l.size ==> Continues(s[i])) then Char(REPLACEMENT, 1)
      else Char(Accumulate(l.cp, s[1..l.size]), l.size)
  }

  method DecodeChar(s: seq<Byte>) returns (cp: nat, n: nat)
    ensures Char(cp, n) == Decode(s)
  {
    if s == [] {
      return 0, 0;
    }
    var l := Lead(s[0]);
    if s[0] < 0x80 {
      assert s[1..1] == [];
      return s[0], 1;
    }
    if l.size == 0 || l.size > |s| {
      return REPLACEMENT, 1;
    }
    n, cp := l.size, l.cp;
    for i := 1 to n
      invariant forall k :: 1 <= k < i ==> Continues(s[k])
      invariant Accumulate(cp, s[i..n]) == Accumulate(l.cp, s[1..n])
    {
      if !Continues(s[i]) {
        return REPLACEMENT, 1;
      }
      assert s[i..n][1..] == s[i + 1..n];
      cp := cp * 64 + s[i] % 64;
    }
  }

  function Encode(cp: nat): (s: seq<Byte>)
    requires cp < 0x20_0000
    ensures 1 <= |s| <= 4 && (cp != 0 ==> forall i :: 0 <= i < |s| ==> s[i] != 0)
  {
    if cp < 0x80 then [cp]
    else if cp < 0x800 then [0xC0 + cp / 64, 0x80 + cp % 64]
    else if cp < 0x1_0000 then [0xE0 + cp / 4096, 0x80 + cp / 64 % 64, 0x80 + cp % 64]
    else [0xF0 + cp / 262144, 0x80 + cp / 4096 % 64, 0x80 + cp / 64 % 64, 0x80 + cp % 64]
  }

  method EncodeChar(cp: nat, out: array<Byte>) returns (n: nat)
    requires cp < 0x20_0000 && out.Length >= 4
    modifies out
    ensures n <= 4 && out[..n] == Encode(cp) && forall i :: n <= i < out.Length ==> out[i] == old(out[i])
  {
    if cp < 0x80 {
      out[0] := cp;
      return 1;
    } else if cp < 0x800 {
      out[0] := 0xC0 + cp / 64;
      out[1] := 0x80 + cp % 64;
      return 2;
    } else if cp < 0x1_0000 {
      out[0] := 0xE0 + cp / 4096;
      out[1] := 0x80 + cp / 64 % 64;
      out[2] := 0x80 + cp % 64;
      return 3;
    }
    out[0] := 0xF0 + cp / 262144;
    out[1] := 0x80 + cp / 4096 % 64;
    out[2] := 0x80 + cp / 64 % 64;
    out[3] := 0x80 + cp % 64;
    return 4;
  }

  lemma Decode1(a: nat, rest: seq<Byte>)
    requires a < 0x80
    ensures Decode([a] + rest) == Char(a, 1)
  {
    var s := [a] + rest;
    assert s[0] == a && s[1..1] == [];
  }

  lemma Decode2(q: nat, r0: nat, rest: seq<Byte>)
    requires q < 32 && r0 < 64
    ensures Decode([0xC0 + q, 0x80 + r0] + rest) == Char(q * 64 + r0, 2)
  {
    var a, b: Byte := 0xC0 + q, 0x80 + r0;
    var s := [a, b] + rest;
    assert s[1..2] == [b] && [b][1..] == [];
    assert Lead(s[0]) == Char(q, 2) && Continues(s[1]) && b % 64 == r0;
    assert Accumulate(q, [b]) == Accumulate(q * 64 + r0, []);
  }

  lemma Decode3(q: nat, r1: nat, r0: nat, rest: seq<Byte>)
    requires q < 16 && r1 < 64 && r0 < 64
    ensures Decode([0xE0 + q, 0x80 + r1, 0x80 + r0] + rest) == Char(q * 4096 + r1 * 64 + r0, 3)
  {
    var a, b, c: Byte := 0xE0 + q, 0x80 + r1, 0x80 + r0;
    var s := [a, b, c] + rest;
    assert s[1..3] == [b, c] && [b, c][1..] == [c] && [c][1..] == [];
    assert Lead(s[0]) == Char(q, 3) && Continues(s[1]) && Continues(s[2]) && b % 64 == r1 && c % 64 == r0;
    assert Accumulate(q, [b, c]) == Accumulate(q * 64 + r1, [c]);
    assert Accumulate(q * 64 + r1, [c]) == Accumulate((q * 64 + r1) * 64 + r0, []);
  }

  lemma Decode4(q: nat, r2: nat, r1: nat, r0: nat, rest: seq<Byte>)
    requires q < 8 && r2 < 64 && r1 < 64 && r0 < 64
    ensures Decode([0xF0 + q, 0x80 + r2, 0x80 + r1, 0x80 + r0] + rest) == Char(q * 262144 + r2 * 4096 + r1 * 64 + r0, 4)
  {
    var a, b, c, d: Byte := 0xF0 + q, 0x80 + r2, 0x80 + r1, 0x80 + r0;
    var s := [a, b, c, d] + rest;
    assert s[1..4] == [b, c, d] && [b, c, d][1..] == [c, d] && [c, d][1..] == [d] && [d][1..] == [];
    assert Lead(s[0]) == Char(q, 4) && Continues(s[1]) && Continues(s[2]) && Continues(s[3]);
    assert b % 64 == r2 && c % 64 == r1 && d % 64 == r0;
    assert Accumulate(q, [b, c, d]) == Accumulate(q * 64 + r2, [c, d]);
    assert Accumulate(q * 64 + r2, [c, d]) == Accumulate((q * 64 + r2) * 64 + r1, [d]);
    assert Accumulate((q * 64 + r2) * 64 + r1, [d]) == Accumulate(((q * 64 + r2) * 64 + r1) * 64 + r0, []);
  }

  /** A character that was encoded is decoded again, whatever follows it. */
  lemma DecodeEncoded(cp: nat, rest: seq<Byte>)
    requires cp < 0x20_0000
    ensures Decode(Encode(cp) + rest) == Char(cp, |Encode(cp)|)
  {
    hide Decode;
    if cp < 0x80 {
      Decode1(cp, rest);
    } else if cp < 0x800 {
      Decode2(cp / 64, cp % 64, rest);
    } else if cp < 0x1_0000 {
      Decode3(cp / 4096, cp / 64 % 64, cp % 64, rest);
      Parts3(cp);
    } else {
      Decode4(cp / 262144, cp / 4096 % 64, cp / 64 % 64, cp % 64, rest);
      Parts4(cp);
    }
  }

  lemma Parts3(cp: nat)
    ensures cp / 4096 * 4096 + cp / 64 % 64 * 64 + cp % 64 == cp
  {
    var q := cp / 64;
    assert q / 64 == cp / 4096;
    assert q == q / 64 * 64 + q % 64 && cp == q * 64 + cp % 64;
  }

  lemma Parts4(cp: nat)
    ensures cp / 262144 * 262144 + cp / 4096 % 64 * 4096 + cp / 64 % 64 * 64 + cp % 64 == cp
  {
    var q := cp / 4096;
    assert q / 64 == cp / 262144;
    assert q == q / 64 * 64 + q % 64;
    Parts3(cp);
  }

  // ---- texts ----

  function ToUnit(cp: nat): Unit {
    if cp > 0xFFFF then REPLACEMENT else cp
  }

  /** UTF-8 to UCS-2. */
  function Units(s: seq<Byte>): (u: seq<Unit>)
    ensures |u| <= |s|
    decreases |s|
  {
    if s == [] then [] else [ToUnit(Decode(s).cp)] + Units(s[Decode(s).size..])
  }

  /** UCS-2 to UTF-8, up to the first NUL. */
  function Text(u: seq<Unit>): (s: seq<Byte>)
    ensures forall i :: 0 <= i < |s| ==> s[i] != 0
  {
    if u == [] || u[0] == 0 then [] else Encode(u[0]) + Text(u[1..])
  }

  method Utf8ToUcs2(s: seq<Byte>) returns (r: array<Unit>, k: nat)
    ensures fresh(r) && r.Length == |s| + 1 && k < r.Length
    ensures r[..k] == Units(s) && r[k] == 0
  {
    hide Decode, ToUnit;
    r := new Unit[|s| + 1](_ => 0);
    k := 0;
    var i := 0;
    while i < |s|
      invariant k <= i <= |s|
      invariant r[..k] + Units(s[i..]) == Units(s)
    {
      var cp, n := DecodeChar(s[i..]);
      assert s[i..][n..] == s[i + n..];
      ghost var was := r[..k];
      r[k] := ToUnit(cp);
      assert r[..k + 1] == was + [ToUnit(cp)];
      assert was + ([ToUnit(cp)] + Units(s[i + n..])) == r[..k + 1] + Units(s[i + n..]);
      i, k := i + n, k + 1;
    }
    assert s[i..] == [];
    r[k] := 0;
  }

  method Ucs2ToUtf8(u: seq<Unit>) returns (s: seq<Byte>)
    ensures s == Text(u)
  {
    s := [];
    var tmp := new Byte[4](_ => 0);
    var i := 0;
    while i < |u| && u[i] != 0
      invariant i <= |u|
      invariant s + Text(u[i..]) == Text(u)
    {
      var n := EncodeChar(u[i], tmp);
      assert u[i..][1..] == u[i + 1..];
      assert s + (Encode(u[i]) + Text(u[i + 1..])) == s + Encode(u[i]) + Text(u[i + 1..]);
      s := s + tmp[..n];
      i := i + 1;
    }
    assert s + [] == s;
  }

  function BeforeNul(u: seq<Unit>): (r: seq<Unit>)
    ensures 0 !in r && |r| <= |u| && (|r| == |u| ==> 0 !in u)
  {
    if u == [] || u[0] == 0 then [] else
      var r := BeforeNul(u[1..]);
      assert u == [u[0]] + u[1..];
      [u[0]] + r
  }

  lemma {:induction false} TextStopsAtNul(u: seq<Unit>)
    ensures Text(u) == Text(BeforeNul(u))
  {
    if u != [] && u[0] != 0 {
      var r := BeforeNul(u[1..]);
      TextStopsAtNul(u[1..]);
      assert ([u[0]] + r)[1..] == r;
    }
  }

  /** UCS-2 text survives the way through UTF-8. */
  lemma {:induction false} UnitsOfText(u: seq<Unit>)
    requires 0 !in u
    ensures Units(Text(u)) == u
  {
    if u != [] {
      var rest := Text(u[1..]);
      DecodeEncoded(u[0], rest);
      assert (Encode(u[0]) + rest)[|Encode(u[0])|..] == rest;
      UnitsOfText(u[1..]);
    }
  }

  /** Nonzero characters up to U+FFFF, each in its shortest form. */
  predicate IsBmp(s: seq<Byte>)
    decreases |s|
  {
    || s == []
    || (0 < s[0] < 0x80 && IsBmp(s[1..]))
    || (|s| >= 2 && 0xC2 <= s[0] < 0xE0 && Continues(s[1]) && IsBmp(s[2..]))
    || (|s| >= 3 && 0xE0 <= s[0] < 0xF0 && Continues(s[1]) && Continues(s[2]) && (s[0] == 0xE0 ==> s[1] >= 0xA0)
        && IsBmp(s[3..]))
  }

  lemma Encode2(q: nat, r0: nat)
    requires 2 <= q < 32 && r0 < 64
    ensures Encode(q * 64 + r0) == [0xC0 + q, 0x80 + r0]
  {
  }

  lemma Encode3(q: nat, r1: nat, r0: nat)
    requires q < 16 && r1 < 64 && r0 < 64 && q * 64 + r1 >= 32
    ensures Encode(q * 4096 + r1 * 64 + r0) == [0xE0 + q, 0x80 + r1, 0x80 + r0]
  {
    var cp := q * 4096 + r1 * 64 + r0;
    assert cp / 64 == q * 64 + r1 && cp % 64 == r0 && cp / 4096 == q && cp / 64 % 64 == r1;
  }

  lemma FirstOf2(s: seq<Byte>)
    requires |s| >= 2 && 0xC2 <= s[0] < 0xE0 && Continues(s[1])
    ensures var c := Decode(s); 0 < c.cp < 0x1_0000 && c.size == 2 && Encode(c.cp) == s[..2]
  {
    hide Decode, Encode;
    var q: nat, r0: nat := s[0] - 0xC0, s[1] - 0x80;
    Decode2(q, r0, s[2..]);
    Encode2(q, r0);
    assert [0xC0 + q, 0x80 + r0] + s[2..] == s;
  }

  lemma FirstOf3(s: seq<Byte>)
    requires |s| >= 3 && 0xE0 <= s[0] < 0xF0 && Continues(s[1]) && Continues(s[2]) && (s[0] == 0xE0 ==> s[1] >= 0xA0)
    ensures var c := Decode(s); 0 < c.cp < 0x1_0000 && c.size == 3 && Encode(c.cp) == s[..3]
  {
    hide Decode, Encode;
    var q: nat, r1: nat, r0: nat := s[0] - 0xE0, s[1] - 0x80, s[2] - 0x80;
    Decode3(q, r1, r0, s[3..]);
    Encode3(q, r1, r0);
    assert [0xE0 + q, 0x80 + r1, 0x80 + r0] + s[3..] == s;
  }

  /** The first character decodes to a unit that is encoded again as the same bytes. */
  lemma FirstOfBmp(s: seq<Byte>)
    requires s != [] && IsBmp(s)
    ensures var c := Decode(s);
      0 < c.cp < 0x1_0000 && 0 < c.size <= |s| && Encode(c.cp) == s[..c.size] && IsBmp(s[c.size..])
  {
    hide Decode;
    if s[0] < 0x80 {
      Decode1(s[0], s[1..]);
      assert [s[0]] + s[1..] == s;
    } else if s[0] < 0xE0 {
      hide Encode;
      FirstOf2(s);
    } else {
      hide Encode;
      FirstOf3(s);
    }
  }

  lemma UnitsFirst(s: seq<Byte>)
    requires s != []
    ensures Units(s) == [ToUnit(Decode(s).cp)] + Units(s[Decode(s).size..])
  {
  }

  lemma NoUnits()
    ensures Text(Units([])) == []
  {
  }

  lemma {:induction false} BmpSurvives(s: seq<Byte>)
    requires IsBmp(s)
    ensures Text(Units(s)) == s
    decreases |s|
  {
    hide Decode, Encode, IsBmp, Units;
    if s != [] {
      FirstOfBmp(s);
      UnitsFirst(s);
      var n := Decode(s).size;
      BmpSurvives(s[n..]);
      assert Units(s)[1..] == Units(s[n..]);
      assert s[..n] + s[n..] == s;
    } else {
      NoUnits();
    }
  }

  lemma {:induction false} TextIsBmp(u: seq<Unit>)
    ensures IsBmp(Text(u))
  {
    if u != [] && u[0] != 0 {
      var rest := Text(u[1..]);
      TextIsBmp(u[1..]);
      assert (Encode(u[0]) + rest)[|Encode(u[0])|..] == rest;
    }
  }

  /** A text survives the way through UCS-2 exactly when it holds characters UCS-2 can, in the shortest form. */
  lemma SurvivesExactly(s: seq<Byte>)
    ensures Text(Units(s)) == s <==> IsBmp(s)
  {
    if IsBmp(s) {
      BmpSurvives(s);
    }
    TextIsBmp(Units(s));
  }

  /** Such text has no NUL unit, not even from an overlong sequence. */
  lemma BmpHasNoNul(s: seq<Byte>)
    requires IsBmp(s)
    ensures 0 !in Units(s)
  {
    var u := Units(s);
    BmpSurvives(s);
    TextStopsAtNul(u);
    UnitsOfText(BeforeNul(u));
  }

  // ---- the forms, byte by byte ----

  /** s begins with one byte, or with a first byte and the right number of bytes 0x80 to 0xBF behind it. */
  predicate WellBegun(s: seq<Byte>) {
    && s != []
    && (|| s[0] < 0x80
        || (0xC0 <= s[0] < 0xE0 && |s| >= 2 && 0x80 <= s[1] < 0xC0)
        || (0xE0 <= s[0] < 0xF0 && |s| >= 3 && 0x80 <= s[1] < 0xC0 && 0x80 <= s[2] < 0xC0)
        || (0xF0 <= s[0] < 0xF8 && |s| >= 4 && 0x80 <= s[1] < 0xC0 && 0x80 <= s[2] < 0xC0 && 0x80 <= s[3] < 0xC0))
  }

  /** Any other byte stands for U+FFFD, alone. */
  lemma Malformed(s: seq<Byte>)
    requires s != [] && !WellBegun(s)
    ensures Decode(s) == Char(0xFFFD, 1)
  {
    hide Accumulate;
  }

  /** In UCS-2 a character above U+FFFF becomes U+FFFD. */
  lemma UnitsLaw(s: seq<Byte>)
    ensures s == [] ==> Units(s) == []
    ensures s != [] ==> Units(s) == [if Decode(s).cp > 0xFFFF then 0xFFFD else Decode(s).cp] + Units(s[Decode(s).size..])
  {
    hide Decode;
  }

  /** Each unit up to the first NUL becomes the shortest sequence of bytes. */
  lemma TextLaw(u: seq<Unit>, c: Unit, q: nat, r1: nat, r0: nat)
    requires q < 32 && r1 < 64 && r0 < 64
    ensures Text([]) == [] && Text([0] + u) == []
    ensures 0 < c < 0x80 ==> Text([c] + u) == [c] + Text(u)
    ensures q >= 2 ==> Text([q * 64 + r0] + u) == [0xC0 + q, 0x80 + r0] + Text(u)
    ensures q < 16 && q * 64 + r1 >= 32 ==> Text([q * 4096 + r1 * 64 + r0] + u) == [0xE0 + q, 0x80 + r1, 0x80 + r0] + Text(u)
  {
    hide Encode;
    TextFirst(0, u);
    TextFirst(c, u);
    if 0 < c < 0x80 {
      Encode1(c);
    }
    if q >= 2 {
      Encode2(q, r0);
      TextFirst(q * 64 + r0, u);
    }
    if q < 16 && q * 64 + r1 >= 32 {
      Encode3(q, r1, r0);
      TextFirst(q * 4096 + r1 * 64 + r0, u);
    }
  }

  lemma TextFirst(c: Unit, u: seq<Unit>)
    ensures Text([c] + u) == if c == 0 then [] else Encode(c) + Text(u)
  {
    assert ([c] + u)[1..] == u;
  }

  lemma Encode1(c: Unit)
    requires c < 0x80
    ensures Encode(c) == [c]
  {
  }
}
