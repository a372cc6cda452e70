/** The text forms of section 2.2 of RFC 4291 as parse trees. The program reads all of them as the
    standard says; what else it reads is not plain. */
module Ip6Grammar {
  import opened Optional
  import opened Ip6

  // ---- the grammar ----

  /** One to four hexadecimal digits. */
  predicate H16(p: string) {
    1 <= |p| <= 4 && forall i :: 0 <= i < |p| ==> IsHexDigit(p[i])
  }

  predicate IsDigits(p: string) {
    forall i :: 0 <= i < |p| ==> '0' <= p[i] <= '9'
  }

  function Decimal(p: string): nat
    requires IsDigits(p)
  {
    if p == "" then 0 else Decimal(p[..|p| - 1]) * 10 + (p[|p| - 1] - '0') as nat
  }

  /** A decimal number of one to three digits, up to 255. */
  predicate Octet(p: string) {
    1 <= |p| <= 3 && IsDigits(p) && Decimal(p) <= 255
  }

  datatype Dotted = Dotted(a: string, b: string, c: string, d: string)

  predicate DottedOk(v: Dotted) {
    Octet(v.a) && Octet(v.b) && Octet(v.c) && Octet(v.d)
  }

  function DottedText(v: Dotted): string {
    v.a + ("." + (v.b + ("." + (v.c + ("." + v.d)))))
  }

  function DottedGroups(v: Dotted): seq<Group>
    requires DottedOk(v)
  {
    [Decimal(v.a) * 256 + Decimal(v.b), Decimal(v.c) * 256 + Decimal(v.d)]
  }

  /** Fields separated by colons. */
  function Colons(ps: seq<string>): string {
    if ps == [] then "" else if |ps| == 1 then ps[0] else ps[0] + (":" + Colons(ps[1..]))
  }

  predicate AllH16(ps: seq<string>) {
    forall i :: 0 <= i < |ps| ==> H16(ps[i])
  }

  function GroupOf(p: string): Group
    requires H16(p)
  {
    FourDigits(p);
    HexValue(p)
  }

  function GroupsOf(ps: seq<string>): (gs: seq<Group>)
    requires AllH16(ps)
    ensures |gs| == |ps|
  {
    if ps == [] then [] else [GroupOf(ps[0])] + GroupsOf(ps[1..])
  }

  /** Groups at the end of an address; the last two may be a dotted IPv4 address. */
  datatype Side = Side(ps: seq<string>, v4: Option<Dotted>)

  predicate SideOk(x: Side) {
    AllH16(x.ps) && (x.v4.Some? ==> DottedOk(x.v4.value))
  }

  function SideText(x: Side): string {
    Colons(x.ps + if x.v4.Some? then [DottedText(x.v4.value)] else [])
  }

  function SideGroups(x: Side): seq<Group>
    requires SideOk(x)
  {
    GroupsOf(x.ps) + if x.v4.Some? then DottedGroups(x.v4.value) else []
  }

  /** Eight groups, or fewer with one "::" for one or more groups of zeros. */
  datatype Address = Full(all: Side) | Gap(left: seq<string>, right: Side)

  predicate AddressOk(a: Address) {
    match a
    case Full(x) => SideOk(x) && |SideGroups(x)| == 8
    case Gap(l, x) => AllH16(l) && SideOk(x) && |l| + |SideGroups(x)| <= 7
  }

  function AddressText(a: Address): string {
    match a
    case Full(x) => SideText(x)
    case Gap(l, x) => Colons(l) + "::" + SideText(x)
  }

  function AddressGroups(a: Address): (g: seq<Group>)
    requires AddressOk(a)
    ensures |g| == 8
  {
    match a
    case Full(x) => SideGroups(x)
    case Gap(l, x) => GroupsOf(l) + Zeros(8 - |l| - |SideGroups(x)|) + SideGroups(x)
  }

  // ---- the condition ----

  /** A dot and four digits next to each other. */
  predicate LongNumber(s: string, i: nat)
    requires i + 5 <= |s|
  {
    (s[i] == '.' && IsDigits(s[i + 1..i + 5])) || (IsDigits(s[i..i + 4]) && s[i + 4] == '.')
  }

  /** Only hexadecimal digits, colons and dots, and no dot next to four digits. */
  predicate Plain(s: string) {
    && (forall i :: 0 <= i < |s| ==> IsHexDigit(s[i]) || s[i] == ':' || s[i] == '.')
    && (forall i: nat :: i + 5 <= |s| ==> !LongNumber(s, i))
  }

  lemma PlainSuffix(s: string, k: nat)
    requires Plain(s) && k <= |s|
    ensures Plain(s[k..])
  {
    var t := s[k..];
    forall i: nat | i + 5 <= |t| ensures !LongNumber(t, i) {
      assert !LongNumber(s, k + i);
      assert t[i + 1..i + 5] == s[k + i + 1..k + i + 5] && t[i..i + 4] == s[k + i..k + i + 4];
    }
  }

  lemma PlainColon(s: string, t: string)
    requires Plain(s) && Plain(t)
    ensures Plain(s + (":" + t))
  {
    var u := s + (":" + t);
    forall i: nat | i + 5 <= |u| ensures !LongNumber(u, i) {
      if i + 5 <= |s| {
        assert !LongNumber(s, i);
        assert u[i + 1..i + 5] == s[i + 1..i + 5] && u[i..i + 4] == s[i..i + 4];
      } else if i > |s| {
        var j := i - |s| - 1;
        assert t == u[|s| + 1..];
        assert !LongNumber(t, j);
        assert u[i + 1..i + 5] == t[j + 1..j + 5] && u[i..i + 4] == t[j..j + 4];
      } else {
        assert u[|s|] == ':';
        assert i < |s| ==> u[i + 1..i + 5][|s| - i - 1] == ':';
        assert |s| < i + 4 ==> u[i..i + 4][|s| - i] == ':';
      }
    }
  }

  lemma PlainField(p: string)
    requires H16(p)
    ensures Plain(p)
  {
  }

  /** No four characters of a dotted address are digits. */
  lemma DotInFour(v: Dotted, i: nat)
    requires DottedOk(v) && i + 4 <= |DottedText(v)|
    ensures exists k :: i <= k < i + 4 && DottedText(v)[k] == '.'
  {
    var t := DottedText(v);
    var p1 := |v.a|;
    var p2 := p1 + 1 + |v.b|;
    var p3 := p2 + 1 + |v.c|;
    assert t[p1] == '.' && t[p2] == '.' && t[p3] == '.' && |t| == p3 + 1 + |v.d|;
  }

  lemma PlainDotted(v: Dotted)
    requires DottedOk(v)
    ensures Plain(DottedText(v))
  {
    var t := DottedText(v);
    forall i: nat | i + 5 <= |t| ensures !LongNumber(t, i) {
      DotInFour(v, i);
      DotInFour(v, i + 1);
      var j :| i <= j < i + 4 && t[j] == '.';
      var k :| i + 1 <= k < i + 5 && t[k] == '.';
      assert t[i..i + 4][j - i] == '.' && t[i + 1..i + 5][k - i - 1] == '.';
    }
  }

  lemma {:induction false} PlainColons(ps: seq<string>)
    requires forall i :: 0 <= i < |ps| ==> Plain(ps[i])
    ensures Plain(Colons(ps))
  {
    hide Plain;
    if |ps| > 1 {
      PlainColons(ps[1..]);
      PlainColon(ps[0], Colons(ps[1..]));
    } else {
      PlainNone();
    }
  }

  lemma PlainNone()
    ensures Plain("")
  {
  }

  lemma PlainSide(x: Side)
    requires SideOk(x)
    ensures Plain(SideText(x))
  {
    hide Plain;
    var ps := x.ps + if x.v4.Some? then [DottedText(x.v4.value)] else [];
    forall i | 0 <= i < |ps| ensures Plain(ps[i]) {
      if i < |x.ps| {
        PlainField(ps[i]);
      } else {
        PlainDotted(x.v4.value);
      }
    }
    PlainColons(ps);
  }

  lemma PlainAddress(a: Address)
    requires AddressOk(a)
    ensures Plain(AddressText(a))
  {
    hide Plain, SideGroups;
    match a {
      case Full(x) => PlainSide(x);
      case Gap(l, x) =>
        PlainSide(Side(l, None));
        assert l + [] == l;
        PlainSide(x);
        var t := SideText(x);
        PlainNone();
        PlainColon("", t);
        assert "" + (":" + t) == ":" + t;
        PlainColon(Colons(l), ":" + t);
        assert Colons(l) + (":" + (":" + t)) == Colons(l) + "::" + t;
    }
  }

  // ---- numbers ----

  lemma {:induction false} DecimalsOf(p: string, t: string)
    requires IsDigits(p) && (t == "" || !('0' <= t[0] <= '9'))
    ensures Decimals(p + t) == |p|
  {
    if p == "" {
      assert p + t == t;
    } else {
      assert (p + t)[1..] == p[1..] + t;
      DecimalsOf(p[1..], t);
    }
  }

  /** The program computes in 64 bits. */
  lemma {:induction false} DecValueWraps(p: string)
    requires IsDigits(p)
    ensures DecValue(p) == Decimal(p) % 0x1_0000_0000_0000_0000
  {
    if p != "" {
      DecValueWraps(p[..|p| - 1]);
      WrapStep(Decimal(p[..|p| - 1]), (p[|p| - 1] - '0') as nat);
    }
  }

  lemma WrapStep(x: nat, d: nat)
    ensures var m := 0x1_0000_0000_0000_0000; (x % m * 10 + d) % m == (x * 10 + d) % m
  {
    var m := 0x1_0000_0000_0000_0000;
    assert x * 10 + d == x % m * 10 + d + x / m * 10 * m;
  }

  lemma {:induction false} DecimalBound(p: string)
    requires IsDigits(p)
    ensures |p| <= 1 ==> Decimal(p) < 10
    ensures |p| <= 2 ==> Decimal(p) < 100
    ensures |p| <= 3 ==> Decimal(p) < 1000
  {
    if p != "" {
      DecimalBound(p[..|p| - 1]);
    }
  }

  /** Digits are scanned as their value modulo 2^64, as a signed number. */
  lemma ScanDigits(p: string, t: string)
    requires IsDigits(p) && p != "" && (t == "" || !('0' <= t[0] <= '9'))
    ensures Scan(p + t) == Number(Signed(Decimal(p) % 0x1_0000_0000_0000_0000), |p|)
  {
    var u := p + t;
    assert u[0] == p[0];
    DecimalsOf(p, t);
    DecValueWraps(p);
    hide Decimals, DecValue, Decimal;
    assert u[0..] == u && u[0..0 + |p|] == p;
    assert Spaces(u) == 0;
    assert ScanUnsigned(u).size == |p|;
  }

  lemma ScanOctet(p: string, t: string)
    requires Octet(p) && (t == "" || t[0] == '.')
    ensures Scan(p + t) == Number(Decimal(p), |p|)
  {
    hide Scan, Decimal;
    ScanDigits(p, t);
    DecimalBound(p);
  }

  lemma OctetThen(p: string, t: string, k: nat)
    requires Octet(p) && k > 1
    ensures Octets(p + ("." + t), k)
      == var r := Octets(t, k - 1); if r.None? then None else Some([Decimal(p)] + r.value)
  {
    hide Scan, Decimal;
    var u := p + ("." + t);
    ScanOctet(p, "." + t);
    assert u[|p|] == '.' && u[|p| + 1..] == t;
  }

  lemma OctetLast(p: string)
    requires Octet(p)
    ensures Octets(p, 1) == Some([Decimal(p)])
  {
    hide Scan, Decimal;
    ScanOctet(p, "");
    assert p + "" == p;
  }

  lemma DottedReads(v: Dotted)
    requires DottedOk(v)
    ensures V4Groups(DottedText(v)) == Some(DottedGroups(v))
  {
    hide Octets, Decimal;
    var t3 := v.d;
    var t2 := v.c + ("." + t3);
    var t1 := v.b + ("." + t2);
    OctetLast(v.d);
    OctetThen(v.c, t3, 2);
    OctetThen(v.b, t2, 3);
    OctetThen(v.a, t1, 4);
    var a, b, c, d := Decimal(v.a), Decimal(v.b), Decimal(v.c), Decimal(v.d);
    assert [c] + [d] == [c, d] && [b] + [c, d] == [b, c, d] && [a] + [b, c, d] == [a, b, c, d];
  }
}
