/** Where everything is in a load option, byte by byte (section 3.1.3 of the UEFI Specification 2.10),
    and in a device path (section 10.3.1). */
module LoadOptionLayout {
  import opened Bits
  import opened Utf8
  import opened Optional
  import opened LoadOptions

  /** d holds option o: 32 bits of attributes and the length of the device path, low bytes first, the
      units of the description and a NUL, the device path, and the rest as data. */
  ghost predicate Layout(d: seq<Byte>, o: LoadOpt, u: seq<Unit>) {
    var at := 8 + 2 * |u|;
    && |d| == at + |o.dp| + |o.opt|
    && o.attr == d[0] as int + 256 * (d[1] as int) + 65536 * (d[2] as int) + 16777216 * (d[3] as int)
    && |o.dp| == d[4] as int + 256 * (d[5] as int)
    && (forall i :: 0 <= i < |u| ==> u[i] != 0 && u[i] == d[6 + 2 * i] as int + 256 * (d[7 + 2 * i] as int))
    && d[at - 2] == 0 && d[at - 1] == 0 && o.desc == Text(u)
    && d[at..at + |o.dp|] == o.dp && d[at + |o.dp|..] == o.opt && DevPath(o.dp)
  }

  lemma {:induction false} UnitsAt(b: seq<Byte>, i: nat)
    requires |b| % 2 == 0 && 2 * i < |b|
    ensures UnitsIn(b)[i] == b[2 * i] as int + 256 * (b[2 * i + 1] as int)
  {
    if i > 0 {
      UnitsAt(b[2..], i - 1);
    }
  }

  lemma {:induction false} NulIs(d: seq<Byte>, p: nat, n: nat)
    requires p + 2 * n + 1 < |d| && d[p + 2 * n] == 0 && d[p + 2 * n + 1] == 0
    requires forall i :: 0 <= i < n ==> d[p + 2 * i] != 0 || d[p + 2 * i + 1] != 0
    ensures NulAt(d, p) == p + 2 * n
    decreases n
  {
    if n > 0 {
      assert d[p + 2 * 0] != 0 || d[p + 2 * 0 + 1] != 0;
      forall i | 0 <= i < n - 1 ensures d[p + 2 + 2 * i] != 0 || d[p + 2 + 2 * i + 1] != 0 {
        assert d[p + 2 * (i + 1)] != 0 || d[p + 2 * (i + 1) + 1] != 0;
      }
      NulIs(d, p + 2, n - 1);
    }
  }

  lemma LayoutParses(d: seq<Byte>, o: LoadOpt, u: seq<Unit>)
    requires Layout(d, o, u)
    ensures Parse(d) == Some(o)
  {
    hide DevPath, Text, UnitsIn, NulAt;
    var at := 8 + 2 * |u|;
    var b := d[6..at - 2];
    forall i | 0 <= i < |u| ensures d[6 + 2 * i] != 0 || d[6 + 2 * i + 1] != 0 {
      assert u[i] != 0;
    }
    NulIs(d, 6, |u|);
    forall i | 0 <= i < |u| ensures UnitsIn(b)[i] == u[i] {
      UnitsAt(b, i);
    }
    assert UnitsIn(b) == u;
  }

  lemma ParsesAsLayout(d: seq<Byte>)
    requires Parse(d).Some?
    ensures Layout(d, Parse(d).value, UnitsIn(d[6..NulAt(d, 6)]))
  {
    hide DevPath, Text, UnitsIn, NulAt;
    var p := NulAt(d, 6);
    var b := d[6..p];
    var u := UnitsIn(b);
    NoNulBefore(d, 6);
    forall i | 0 <= i < |u| ensures u[i] != 0 && u[i] == d[6 + 2 * i] as int + 256 * (d[7 + 2 * i] as int) {
      UnitsAt(b, i);
      assert u[i] in u;
    }
  }

  /** An option is accepted exactly when its bytes are laid out like this, and is then what they hold. */
  lemma ParsedExactly(d: seq<Byte>, o: LoadOpt)
    ensures Parse(d) == Some(o) <==> exists u :: Layout(d, o, u)
  {
    hide Parse, Layout;
    if Parse(d) == Some(o) {
      ParsesAsLayout(d);
    }
    forall u | Layout(d, o, u) ensures Parse(d) == Some(o) {
      LayoutParses(d, o, u);
    }
  }

  /** What is built of a storable option is laid out like this. */
  lemma BuiltLayout(o: LoadOpt)
    requires Storable(o)
    ensures exists u :: Layout(Build(o), o, u)
  {
    hide Layout, Parse, Build, Storable;
    StorableParses(o);
    ParsesAsLayout(Build(o));
  }

  lemma {:induction false} UnitBytesAt(u: seq<Unit>, i: nat)
    requires i < |u|
    ensures UnitBytes(u)[2 * i] == u[i] % 256 && UnitBytes(u)[2 * i + 1] == u[i] / 256
  {
    if i > 0 {
      UnitBytesAt(u[1..], i - 1);
    }
  }

  /** What is built of any option, storable or not: numbers too large for their bytes lose their high part. */
  lemma BuildLaw(o: LoadOpt)
    ensures var d, u := Build(o), Units(o.desc);
      var at := 8 + 2 * |u|;
      && |d| == at + |o.dp| + |o.opt|
      && d[0] == o.attr % 256 && d[1] == o.attr / 256 % 256 && d[2] == o.attr / 256 / 256 % 256
      && d[3] == o.attr / 256 / 256 / 256 % 256 && d[4] == |o.dp| % 256 && d[5] == |o.dp| / 256 % 256
      && (forall i :: 0 <= i < |u| ==> d[6 + 2 * i] == u[i] % 256 && d[7 + 2 * i] == u[i] / 256)
      && d[at - 2] == 0 && d[at - 1] == 0 && d[at..at + |o.dp|] == o.dp && d[at + |o.dp|..] == o.opt
  {
    var d, u := Build(o), Units(o.desc);
    hide Units, UnitBytes;
    var t := UnitBytes(u);
    assert d == Le32(o.attr) + (Le16(|o.dp|) + (t + ([0, 0] + (o.dp + o.opt))));
    Pieces(Le32(o.attr), Le16(|o.dp|), t, [0, 0], o.dp, o.opt, d);
    forall i | 0 <= i < |u| ensures d[6 + 2 * i] == u[i] % 256 && d[7 + 2 * i] == u[i] / 256 {
      UnitBytesAt(u, i);
      assert d[6..6 + |t|][2 * i] == t[2 * i] && d[6..6 + |t|][2 * i + 1] == t[2 * i + 1];
    }
  }

  lemma Pieces(a: seq<Byte>, b: seq<Byte>, c: seq<Byte>, z: seq<Byte>, p: seq<Byte>, q: seq<Byte>, d: seq<Byte>)
    requires |a| == 4 && |b| == 2 && |z| == 2 && d == a + (b + (c + (z + (p + q))))
    ensures d[..4] == a && d[4..6] == b && d[6..6 + |c|] == c && d[6 + |c|..8 + |c|] == z
    ensures d[8 + |c|..8 + |c| + |p|] == p && d[8 + |c| + |p|..] == q && |d| == 8 + |c| + |p| + |q|
    ensures d[0] == a[0] && d[1] == a[1] && d[2] == a[2] && d[3] == a[3] && d[4] == b[0] && d[5] == b[1]
    ensures d[6 + |c|] == z[0] && d[7 + |c|] == z[1]
  {
  }

  /** A node of a device path: type, subtype and its length in two bytes, low byte first. Type 0x7F and
      subtype 0xFF end the path. */
  lemma NodeLaw(p: seq<Byte>, l: nat)
    requires |p| >= 4 && l == p[2] as int + 256 * (p[3] as int)
    ensures DevPath(p) <==> 4 <= l <= |p| && if p[0] == 0x7F && p[1] == 0xFF then l == |p| else DevPath(p[l..])
  {
    hide DevPath, NodeLength;
    PathStep(p);
    LengthLaw(p);
  }

  lemma PathStep(p: seq<Byte>)
    requires |p| >= 4
    ensures DevPath(p) <==> 4 <= NodeLength(p) <= |p| && if IsEnd(p) then NodeLength(p) == |p| else DevPath(p[NodeLength(p)..])
  {
    hide NodeLength;
  }

  lemma LengthLaw(p: seq<Byte>)
    requires |p| >= 4
    ensures NodeLength(p) == p[2] as int + 256 * (p[3] as int)
  {
  }

  lemma NoNode(p: seq<Byte>)
    requires |p| < 4
    ensures !DevPath(p)
  {
  }

  /** The shortest device path, and an option that holds it: active, described as "A", with one byte of data. */
  lemma SmallestOption()
    ensures DevPath([0x7F, 0xFF, 4, 0])
    ensures Parse([1, 0, 0, 0, 4, 0, 0x41, 0, 0, 0, 0x7F, 0xFF, 4, 0, 9]) == Some(LoadOpt(1, [0x41], [0x7F, 0xFF, 4, 0], [9]))
  {
    var d: seq<Byte> := [1, 0, 0, 0, 4, 0, 0x41, 0, 0, 0, 0x7F, 0xFF, 4, 0, 9];
    var o := LoadOpt(1, [0x41], [0x7F, 0xFF, 4, 0], [9]);
    NodeLaw([0x7F, 0xFF, 4, 0], 4);
    assert [0x41 as Unit][1..] == [];
    assert Text([0x41]) == Encode(0x41) + Text([]);
    assert d[10..14] == o.dp && d[14..] == o.opt;
    LayoutParses(d, o, [0x41]);
  }
}
