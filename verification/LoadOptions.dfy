/** Load options of the boot manager, in the format of section 3.1.3 of the UEFI Specification 2.10:
    attributes, length of the device path, description in UCS-2, device path, optional data. */
module LoadOptions {
  import opened Bits
  import opened Utf8
  import opened Optional

  datatype LoadOpt = LoadOpt(attr: nat, desc: seq<Byte>, dp: seq<Byte>, opt: seq<Byte>)

  // ---- numbers, low byte first ----

  function Le16(v: nat): (b: seq<Byte>)
    ensures |b| == 2
  {
    [v % 256, v / 256 % 256]
  }

  function Le32(v: nat): (b: seq<Byte>)
    ensures |b| == 4
  {
    [v % 256, v / 256 % 256, v / 256 / 256 % 256, v / 256 / 256 / 256 % 256]
  }

  function U16(b: seq<Byte>): Unit
    requires |b| == 2
  {
    b[0] as int + 256 * (b[1] as int)
  }

  function U32(b: seq<Byte>): nat
    requires |b| == 4
  {
    b[0] as int + 256 * (b[1] as int + 256 * (b[2] as int + 256 * (b[3] as int)))
  }

  lemma Le16Inverse(v: Unit, b: seq<Byte>)
    requires |b| == 2
    ensures U16(Le16(v)) == v && Le16(U16(b)) == b
  {
  }

  lemma Le32OfU32(b: seq<Byte>)
    requires |b| == 4
    ensures Le32(U32(b)) == b && U32(b) < 0x1_0000_0000
  {
    var b3: int := b[3];
    var q2 := b[2] as int + 256 * b3;
    var q1 := b[1] as int + 256 * q2;
    LowByte(b[2], b3);
    LowByte(b[1], q2);
    LowByte(b[0], q1);
  }

  lemma LowByte(b: Byte, q: nat)
    ensures (b as int + 256 * q) % 256 == b && (b as int + 256 * q) / 256 == q
  {
  }

  lemma U32OfLe32(v: nat)
    requires v < 0x1_0000_0000
    ensures U32(Le32(v)) == v
  {
    var q1 := v / 256;
    var q2 := q1 / 256;
    var q3 := q2 / 256;
    assert v == 256 * q1 + v % 256 && q1 == 256 * q2 + q1 % 256 && q2 == 256 * q3 + q2 % 256;
    assert q3 < 256;
  }

  // ---- UCS-2 in bytes ----

  function UnitBytes(u: seq<Unit>): (b: seq<Byte>)
    ensures |b| == 2 * |u|
  {
    if u == [] then [] else Le16(u[0]) + UnitBytes(u[1..])
  }

  function UnitsIn(b: seq<Byte>): (u: seq<Unit>)
    requires |b| % 2 == 0
    ensures 2 * |u| == |b|
  {
    if b == [] then [] else [U16(b[..2])] + UnitsIn(b[2..])
  }

  lemma {:induction false} UnitBytesOfUnits(b: seq<Byte>)
    requires |b| % 2 == 0
    ensures UnitBytes(UnitsIn(b)) == b
  {
    if b != [] {
      Le16Inverse(0, b[..2]);
      UnitBytesOfUnits(b[2..]);
      assert UnitsIn(b)[1..] == UnitsIn(b[2..]);
      assert b == b[..2] + b[2..];
    }
  }

  lemma {:induction false} UnitsOfUnitBytes(u: seq<Unit>)
    ensures UnitsIn(UnitBytes(u)) == u
  {
    if u != [] {
      Le16Inverse(u[0], [0, 0]);
      UnitsOfUnitBytes(u[1..]);
      assert UnitBytes(u)[..2] == Le16(u[0]) && UnitBytes(u)[2..] == UnitBytes(u[1..]);
    }
  }

  /** Where the first NUL unit at or after p is, or the end when there is none. */
  function NulAt(d: seq<Byte>, p: nat): (q: nat)
    requires p <= |d|
    ensures p <= q <= |d| && (q - p) % 2 == 0 && (q + 1 < |d| ==> d[q] == 0 && d[q + 1] == 0)
    decreases |d| - p
  {
    if p + 1 < |d| && (d[p] != 0 || d[p + 1] != 0) then NulAt(d, p + 2) else p
  }

  lemma {:induction false} NoNulBefore(d: seq<Byte>, p: nat)
    requires p <= |d|
    ensures 0 !in UnitsIn(d[p..NulAt(d, p)])
    decreases |d| - p
  {
    var q := NulAt(d, p);
    if p + 1 < |d| && (d[p] != 0 || d[p + 1] != 0) {
      NoNulBefore(d, p + 2);
      var b := d[p..q];
      assert b[..2] == d[p..p + 2] && b[2..] == d[p + 2..q];
    }
  }

  /** The NUL that ends a text without NUL is the first one. */
  lemma {:induction false} NulAfterUnits(pre: seq<Byte>, u: seq<Unit>, rest: seq<Byte>)
    requires 0 !in u
    ensures NulAt(pre + UnitBytes(u) + [0, 0] + rest, |pre|) == |pre| + 2 * |u|
    decreases u
  {
    var d := pre + UnitBytes(u) + [0, 0] + rest;
    if u != [] {
      var e := Le16(u[0]);
      NulAfterUnits(pre + e, u[1..], rest);
      assert pre + e + UnitBytes(u[1..]) + [0, 0] + rest == d;
      assert d[|pre|] == e[0] && d[|pre| + 1] == e[1];
      assert u[0] in u;
    }
  }

  // ---- device paths ----

  function NodeLength(p: seq<Byte>): nat
    requires |p| >= 4
  {
    U16(p[2..4])
  }

  predicate IsEnd(p: seq<Byte>)
    requires |p| >= 4
  {
    p[0] == 0x7F && p[1] == 0xFF
  }

  /** Nodes that fill the bytes exactly; the last one, and no other, ends the path. */
  predicate DevPath(p: seq<Byte>)
    decreases |p|
  {
    && |p| >= 4
    && 4 <= NodeLength(p) <= |p|
    && (if IsEnd(p) then NodeLength(p) == |p| else DevPath(p[NodeLength(p)..]))
  }

  method DevPathValid(p: seq<Byte>) returns (ok: bool)
    ensures ok == DevPath(p)
  {
    var off := 0;
    while off + 4 <= |p|
      invariant off <= |p| && DevPath(p[off..]) == DevPath(p)
    {
      var n := p[off..];
      var l := NodeLength(n);
      if l < 4 || off + l > |p| {
        return false;
      }
      off := off + l;
      if IsEnd(n) {
        return off == |p|;
      }
      assert n[l..] == p[off..];
    }
    return false;
  }

  predicate IsNode(n: seq<Byte>) {
    |n| >= 4 && NodeLength(n) == |n|
  }

  function Joined(nodes: seq<seq<Byte>>): seq<Byte> {
    if nodes == [] then [] else nodes[0] + Joined(nodes[1..])
  }

  /** What a device path is, node by node. */
  ghost predicate PathOf(p: seq<Byte>, nodes: seq<seq<Byte>>) {
    && nodes != [] && p == Joined(nodes)
    && (forall i :: 0 <= i < |nodes| ==> IsNode(nodes[i]) && (IsEnd(nodes[i]) <==> i == |nodes| - 1))
  }

  lemma {:induction false} DevPathHasNodes(p: seq<Byte>) returns (nodes: seq<seq<Byte>>)
    requires DevPath(p)
    ensures PathOf(p, nodes)
    decreases |p|
  {
    var l := NodeLength(p);
    assert p[..l][2..4] == p[2..4];
    if IsEnd(p) {
      nodes := [p];
      assert nodes[1..] == [] && Joined(nodes) == p + [];
    } else {
      var rest := DevPathHasNodes(p[l..]);
      nodes := [p[..l]] + rest;
      assert nodes[1..] == rest && p == p[..l] + p[l..];
    }
  }

  lemma {:induction false} NodesAreDevPath(p: seq<Byte>, nodes: seq<seq<Byte>>)
    requires PathOf(p, nodes)
    ensures DevPath(p)
    decreases nodes
  {
    var n, rest := nodes[0], nodes[1..];
    assert IsNode(n) && p == n + Joined(rest) && p[2..4] == n[2..4];
    if rest == [] {
      assert p == n;
    } else {
      assert !IsEnd(n);
      assert p[|n|..] == Joined(rest);
      assert forall i :: 0 <= i < |rest| ==> rest[i] == nodes[i + 1];
      NodesAreDevPath(Joined(rest), rest);
    }
  }

  // ---- load options ----

  function Build(o: LoadOpt): (d: seq<Byte>)
    ensures |d| >= 8
  {
    Le32(o.attr) + Body(o)
  }

  /** What follows the attributes. */
  function Body(o: LoadOpt): (d: seq<Byte>)
    ensures |d| >= 4
  {
    Le16(|o.dp|) + (UnitBytes(Units(o.desc)) + ([0, 0] + (o.dp + o.opt)))
  }

  function Parse(d: seq<Byte>): Option<LoadOpt> {
    if |d| < 8 then None
    else
      var p := NulAt(d, 6);
      var fplen := U16(d[4..6]);
      if p + 1 >= |d| || p + 2 + fplen > |d| || !DevPath(d[p + 2..p + 2 + fplen]) then None
      else Some(LoadOpt(U32(d[..4]), Text(UnitsIn(d[6..p])), d[p + 2..p + 2 + fplen], d[p + 2 + fplen..]))
  }

  method LoParse(d: seq<Byte>) returns (r: Option<LoadOpt>)
    ensures r == Parse(d)
  {
    hide UnitsIn, U32, U16, DevPath, Text;
    if |d| < 8 {
      return None;
    }
    var attr := U32(d[..4]);
    var fplen := U16(d[4..6]);
    var p := 6;
    while p + 1 < |d| && (d[p] != 0 || d[p + 1] != 0)
      invariant 6 <= p <= |d| && p % 2 == 0 && NulAt(d, p) == NulAt(d, 6)
    {
      p := p + 2;
    }
    assert p == NulAt(d, 6);
    if p + 1 >= |d| {
      return None;
    }
    var units := (p - 6) / 2;
    p := p + 2;
    if p + fplen > |d| {
      return None;
    }
    var ok := DevPathValid(d[p..p + fplen]);
    if !ok {
      return None;
    }
    assert 6 + 2 * units == p - 2;
    var desc := Ucs2ToUtf8(UnitsIn(d[6..6 + 2 * units]));
    r := Some(LoadOpt(attr, desc, d[p..p + fplen], d[p + fplen..]));
  }

  method LoBuild(attr: nat, desc: seq<Byte>, dp: seq<Byte>, opt: seq<Byte>) returns (d: array<Byte>)
    ensures fresh(d) && d[..] == Build(LoadOpt(attr, desc, dp, opt))
  {
    hide Units, UnitBytes, Le32, Le16;
    assert Le16(0) == [0, 0] by { LeZero(); }
    var wd, units := Utf8ToUcs2(desc);
    var text := UnitBytes(wd[..units]) + Le16(0);
    d := Concatenation(Le32(attr) + Le16(|dp|), text, dp, opt);
    Join(Le32(attr), Le16(|dp|), UnitBytes(Units(desc)), Le16(0), dp, opt);
  }

  /** Copies four pieces into a buffer of their total size. */
  method Concatenation(a: seq<Byte>, b: seq<Byte>, c: seq<Byte>, e: seq<Byte>) returns (d: array<Byte>)
    ensures fresh(d) && d[..] == a + b + c + e
  {
    var n1, n2, n3 := |a|, |a| + |b|, |a| + |b| + |c|;
    d := new Byte[n3 + |e|](_ => 0);
    Copy(d, 0, a);
    Copy(d, n1, b);
    Copy(d, n2, c);
    Copy(d, n3, e);
    assert d[..n1] == a && d[n1..n2] == b && d[n2..n3] == c && d[n3..] == e;
    assert d[..] == d[..n1] + d[n1..n2] + d[n2..n3] + d[n3..];
  }

  lemma Join(h: seq<Byte>, a: seq<Byte>, b: seq<Byte>, c: seq<Byte>, d: seq<Byte>, e: seq<Byte>)
    ensures h + a + (b + c) + d + e == h + (a + (b + (c + (d + e))))
    ensures h + a + b + c + (d + e) == h + (a + (b + (c + (d + e))))
  {
  }

  lemma LeZero()
    ensures Le16(0) == [0, 0]
  {
  }

  method Copy(d: array<Byte>, at: nat, s: seq<Byte>)
    requires at + |s| <= d.Length
    modifies d
    ensures d[at..at + |s|] == s
    ensures forall k :: 0 <= k < d.Length && !(at <= k < at + |s|) ==> d[k] == old(d[k])
  {
    for i := 0 to |s|
      invariant d[at..at + i] == s[..i]
      invariant forall k :: 0 <= k < d.Length && !(at <= k < at + i) ==> d[k] == old(d[k])
    {
      d[at + i] := s[i];
      assert d[at..at + i + 1] == d[at..at + i] + [s[i]];
    }
  }

  // ---- round trips ----

  /** Rebuilding an accepted option gives back its bytes. */
  lemma BuildOfParse(d: seq<Byte>)
    requires Parse(d).Some?
    ensures Build(Parse(d).value) == d
  {
    hide Units, Text, UnitBytes, UnitsIn, NulAt, DevPath, Le32, U32;
    var o := Parse(d).value;
    var p := NulAt(d, 6);
    var b := d[6..p];
    var u := UnitsIn(b);
    NoNulBefore(d, 6);
    UnitsOfText(u);
    UnitBytesOfUnits(b);
    Le32OfU32(d[..4]);
    Le16Inverse(0, d[4..6]);
    Le16Inverse(|o.dp|, d[4..6]);
    assert d[p..p + 2] == [0, 0];
    assert d == d[..4] + d[4..6] + b + d[p..p + 2] + (o.dp + o.opt);
  }

  /** What can be stored: 32 bits of attributes, a description UCS-2 can hold, a well-formed device
      path whose length fits 16 bits. */
  predicate Storable(o: LoadOpt) {
    o.attr < 0x1_0000_0000 && IsBmp(o.desc) && DevPath(o.dp) && |o.dp| < 0x1_0000
  }

  lemma StorableParses(o: LoadOpt)
    requires Storable(o)
    ensures Parse(Build(o)) == Some(o)
  {
    hide Units, Text, UnitBytes, UnitsIn, NulAt, DevPath, Le32, U32, IsBmp;
    var u := Units(o.desc);
    SurvivesExactly(o.desc);
    BmpHasNoNul(o.desc);
    var pre := Le32(o.attr) + Le16(|o.dp|);
    var d := Build(o);
    Join(Le32(o.attr), Le16(|o.dp|), UnitBytes(u), [0, 0], o.dp, o.opt);
    NulAfterUnits(pre, u, o.dp + o.opt);
    assert d[..6] == pre;
    var p := 6 + 2 * |u|;
    LePrefix(o.attr, |o.dp|, d);
    assert d[6..p] == UnitBytes(u);
    UnitsOfUnitBytes(u);
    assert d[p + 2..] == o.dp + o.opt;
    var q := p + 2 + |o.dp|;
    assert d[p + 2..q] == d[p + 2..][..|o.dp|] == o.dp;
    assert d[q..] == d[p + 2..][|o.dp|..] == o.opt;
  }

  lemma LePrefix(attr: nat, dplen: nat, d: seq<Byte>)
    requires |d| >= 6 && d[..6] == Le32(attr) + Le16(dplen) && attr < 0x1_0000_0000 && dplen < 0x1_0000
    ensures U32(d[..4]) == attr && U16(d[4..6]) == dplen
  {
    U32OfLe32(attr);
    Le16Inverse(dplen, [0, 0]);
    assert d[..4] == d[..6][..4] == Le32(attr);
    assert d[4..6] == d[..6][4..] == Le16(dplen);
  }

  /** Parsing what was built recovers the option exactly when it can be stored. */
  lemma ParseOfBuild(o: LoadOpt)
    ensures Parse(Build(o)) == Some(o) <==> Storable(o)
  {
    if Storable(o) {
      StorableParses(o);
    }
    if Parse(Build(o)) == Some(o) {
      ParsedIsStorable(Build(o));
    }
  }

  lemma ParsedIsStorable(d: seq<Byte>)
    requires Parse(d).Some?
    ensures Storable(Parse(d).value)
  {
    hide DevPath, U32, IsBmp, Text, UnitsIn, NulAt;
    Le32OfU32(d[..4]);
    TextIsBmp(UnitsIn(d[6..NulAt(d, 6)]));
  }

  // ---- options that do not read back ----

  /** An overlong NUL or a character above U+FFFF in the description is lost. */
  lemma DescriptionLost(o: LoadOpt)
    requires o.desc == [0xC0, 0x80] || o.desc == [0xF0, 0x90, 0x80, 0x80]
    ensures Parse(Build(o)) != Some(o)
  {
    hide Parse, Build;
    ParseOfBuild(o);
  }

  const END_NODE: seq<Byte> := [0x7F, 0xFF, 4, 0]

  /** A node of 65532 bytes and the end: well formed, and one byte longer than the length field can say. */
  function LongPath(): seq<Byte> {
    [1, 1, 0xFC, 0xFF] + seq(65528, _ => 0) + END_NODE
  }

  lemma PathLost(o: LoadOpt)
    requires o.dp == LongPath()
    ensures DevPath(o.dp) && Parse(Build(o)) != Some(o)
  {
    hide Parse, Build;
    var p := LongPath();
    assert NodeLength(p) == 65532 && p[65532..] == END_NODE;
    assert DevPath(END_NODE);
    ParseOfBuild(o);
  }

  // ---- enable and disable ----

  const ACTIVE: nat := 1

  /** attr with the active bit set or cleared. */
  function WithActive(attr: nat, on: bool): nat {
    attr - attr % 2 + (if on then ACTIVE else 0)
  }

  /** The bytes with the lowest bit of the first one set or cleared. */
  function SetLowest(d: seq<Byte>, on: bool): seq<Byte>
    requires d != []
  {
    d[0 := WithActive(d[0], on)]
  }

  /** Enabling or disabling an entry changes the lowest bit of its first byte and nothing else. */
  lemma ActiveBitOnly(d: seq<Byte>, on: bool)
    requires Parse(d).Some?
    ensures var o := Parse(d).value;
      Build(o.(attr := WithActive(o.attr, on))) == SetLowest(d, on)
  {
    hide Build, Body, UnitsIn, NulAt, DevPath, Text, Le32, U32;
    BuildOfParse(d);
    var o := Parse(d).value;
    var b, c := d[..4], d[..4][0 := WithActive(d[0], on)];
    ActiveLow(b, on);
    Le32OfU32(b);
    Le32OfU32(c);
    BuildWith(o, d, c);
  }

  lemma BuildWith(o: LoadOpt, d: seq<Byte>, c: seq<Byte>)
    requires Build(o) == d && |c| == 4 && Le32(U32(c)) == c
    ensures Build(o.(attr := U32(c))) == c + d[4..]
  {
    hide Body, Le32, U32;
    assert d[4..] == Body(o);
    assert Body(o.(attr := U32(c))) == Body(o) by { BodyOf(o, U32(c)); }
  }

  lemma BodyOf(o: LoadOpt, a: nat)
    ensures Body(o.(attr := a)) == Body(o)
  {
  }

  lemma ActiveLow(b: seq<Byte>, on: bool)
    requires |b| == 4
    ensures U32(b[0 := WithActive(b[0], on)]) == WithActive(U32(b), on)
  {
    assert U32(b) % 2 == b[0] % 2;
  }
}
