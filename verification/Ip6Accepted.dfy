/** The program reads every address of the grammar as the grammar does; of the other texts it accepts
    none that is plain. Hence every address reads back from the text written for it. */
module Ip6Accepted {
  import opened Optional
  import opened Ip6
  import opened Ip6Grammar

  // ---- every address of the grammar is accepted ----

  lemma {:induction false} NoDotYet(p: string, t: string)
    requires H16(p) || p == ""
    requires t == "" || t[0] == ':'
    ensures !DotFirst(p + t)
    decreases p
  {
    if p == "" {
      assert p + t == t;
    } else {
      assert (p + t)[1..] == p[1..] + t;
      NoDotYet(p[1..], t);
    }
  }

  /** One field, followed by t. */
  lemma ParseField(p: string, t: string, a: Acc)
    requires H16(p) && Count(a) < 8 && (t == "" || t[0] == ':')
    ensures var b := Put(a, [GroupOf(p)]);
      ParseFrom(p + t, a) == (
        if t == "" then Some(b)
        else if |t| == 1 then None
        else if t[1] != ':' then ParseFrom(t[1..], b)
        else if a.gap then None
        else ParseFrom(t[2..], b.(gap := true)))
  {
    hide HexRun, DotFirst, V4Groups, HexValue, Put;
    HexRunOf(p, t, 5);
    var s := p + t;
    assert s[..|p|] == p && s[|p|..] == t;
    NoDotYet(p, t);
  }

  lemma {:induction false} DotAhead(s: string, t: string)
    requires forall i :: 0 <= i < |s| ==> s[i] != ':'
    ensures DotFirst(s + ("." + t))
  {
    if s == "" {
      assert s + ("." + t) == "." + t;
    } else {
      assert (s + ("." + t))[1..] == s[1..] + ("." + t);
      DotAhead(s[1..], t);
    }
  }

  lemma ParseDotted(v: Dotted, a: Acc)
    requires DottedOk(v) && Count(a) <= 6
    ensures ParseFrom(DottedText(v), a) == Some(Put(a, DottedGroups(v)))
  {
    hide V4Groups, DottedGroups, HexRun, HexValue, Put, Decimal;
    DottedReads(v);
    DotAhead(v.a, v.b + ("." + (v.c + ("." + v.d))));
  }

  lemma PutTwice(a: Acc, gs: seq<Group>, hs: seq<Group>)
    ensures Put(Put(a, gs), hs) == Put(a, gs + hs)
    ensures Put(a, []) == a
  {
    assert a.tail + gs + hs == a.tail + (gs + hs) && a.tail + [] == a.tail;
    assert a.head + gs + hs == a.head + (gs + hs) && a.head + [] == a.head;
  }

  /** What a field list starts with. */
  lemma SideStart(x: Side)
    requires SideOk(x) && (x.ps != [] || x.v4.Some?)
    ensures SideText(x) != "" && SideText(x)[0] != ':'
  {
    hide Decimal, GroupOf;
  }

  lemma SideSplit(x: Side)
    requires SideOk(x) && x.ps != []
    ensures var y := Side(x.ps[1..], x.v4);
      && H16(x.ps[0]) && SideOk(y) && SideGroups(x) == [GroupOf(x.ps[0])] + SideGroups(y)
      && SideText(x) == (if y == Side([], None) then x.ps[0] else x.ps[0] + (":" + SideText(y)))
  {
    hide Decimal, GroupOf, DottedText, DottedGroups;
    var more := if x.v4.Some? then [DottedText(x.v4.value)] else [];
    assert (x.ps + more)[1..] == x.ps[1..] + more;
  }

  lemma {:induction false} ParseSide(x: Side, a: Acc)
    requires SideOk(x) && Count(a) + |SideGroups(x)| <= 8
    ensures ParseFrom(SideText(x), a) == Some(Put(a, SideGroups(x)))
    decreases |x.ps|
  {
    hide SideText, SideGroups, ParseFrom, GroupOf, SideOk;
    if x.ps == [] {
      ParseEnd(x, a);
    } else {
      var p, y := x.ps[0], Side(x.ps[1..], x.v4);
      SideSplit(x);
      var g := [GroupOf(p)];
      PutTwice(a, g, SideGroups(y));
      if y == Side([], None) {
        NoFields();
        ParseField(p, "", a);
        assert p + "" == p && g + [] == g;
      } else {
        SideStart(y);
        var t := ":" + SideText(y);
        assert t[1..] == SideText(y);
        ParseField(p, t, a);
        ParseSide(y, Put(a, g));
      }
    }
  }

  lemma ParseEnd(x: Side, a: Acc)
    requires SideOk(x) && Count(a) + |SideGroups(x)| <= 8 && x.ps == []
    ensures ParseFrom(SideText(x), a) == Some(Put(a, SideGroups(x)))
  {
    hide DottedText, DottedGroups, V4Groups, DotFirst, HexRun;
    PutTwice(a, [], []);
    if x.v4.Some? {
      var v := x.v4.value;
      DottedTwo(v);
      assert [] + DottedGroups(v) == DottedGroups(v) && [] + [DottedText(v)] == [DottedText(v)];
      hide ParseFrom;
      ParseDotted(v, a);
    }
  }

  lemma DottedTwo(v: Dotted)
    requires DottedOk(v)
    ensures |DottedGroups(v)| == 2
  {
  }

  lemma NoFields()
    ensures SideText(Side([], None)) == "" && SideGroups(Side([], None)) == []
  {
  }

  /** Groups, "::" and the rest. */
  lemma {:induction false} ParseLeft(l: seq<string>, u: string, a: Acc)
    requires l != [] && AllH16(l) && !a.gap && |a.head| + |l| <= 8
    ensures ParseFrom(Colons(l) + "::" + u, a) == ParseFrom(u, Put(a, GroupsOf(l)).(gap := true))
    decreases |l|
  {
    hide ParseFrom, GroupOf;
    var p, s := l[0], Colons(l) + "::" + u;
    var g := [GroupOf(p)];
    if |l| == 1 {
      var t := "::" + u;
      assert s == p + t && t[2..] == u && GroupsOf(l) == g;
      ParseField(p, t, a);
    } else {
      var rest := Colons(l[1..]);
      LeftStart(l[1..]);
      var t := ":" + (rest + "::" + u);
      assert s == p + t && t[1..] == rest + "::" + u && t[1] == rest[0];
      ParseField(p, t, a);
      ParseLeft(l[1..], u, Put(a, g));
      PutTwice(a, g, GroupsOf(l[1..]));
    }
  }

  lemma LeftStart(l: seq<string>)
    requires l != [] && AllH16(l)
    ensures Colons(l) != "" && Colons(l)[0] == l[0][0]
  {
  }

  /** Every text of the grammar is plain, is accepted, and is read as the groups the grammar gives it. */
  lemma GrammarAccepted(a: Address)
    requires AddressOk(a)
    ensures Plain(AddressText(a)) && Parse(AddressText(a)) == Some(AddressGroups(a))
  {
    PlainAddress(a);
    var s := AddressText(a);
    NotBracketed(s);
    match a {
      case Full(x) => FullAccepted(x);
      case Gap(l, x) => GapAccepted(l, x);
    }
  }

  lemma NotBracketed(s: string)
    requires Plain(s)
    ensures Unbracketed(s) == s
  {
  }

  lemma FullAccepted(x: Side)
    requires AddressOk(Full(x)) && Unbracketed(SideText(x)) == SideText(x)
    ensures Parse(SideText(x)) == Some(SideGroups(x))
  {
    hide SideText, SideGroups, ParseFrom, Unbracketed;
    SideStartOf(x);
    ParseSide(x, Acc([], [], false));
    assert [] + SideGroups(x) == SideGroups(x);
  }

  lemma SideStartOf(x: Side)
    requires SideOk(x) && |SideGroups(x)| > 0
    ensures SideText(x) != "" && SideText(x)[0] != ':'
  {
    hide Decimal, GroupOf, SideText;
    SideStart(x);
  }

  lemma GapAccepted(l: seq<string>, x: Side)
    requires AddressOk(Gap(l, x)) && Unbracketed(AddressText(Gap(l, x))) == AddressText(Gap(l, x))
    ensures Parse(AddressText(Gap(l, x))) == Some(AddressGroups(Gap(l, x)))
  {
    hide SideText, SideGroups, ParseFrom, Unbracketed, SideOk, GroupOf;
    var s := AddressText(Gap(l, x));
    var hs, ts := GroupsOf(l), SideGroups(x);
    assert [] + ts == ts && [] + hs == hs;
    ParseSide(x, Acc(hs, [], true));
    if l == [] {
      assert s[2..] == SideText(x);
    } else {
      LeftStart(l);
      assert s[0] == Colons(l)[0];
      ParseLeft(l, SideText(x), Acc([], [], false));
    }
  }

  // ---- a plain text that is accepted is one of the grammar ----

  lemma NoPrefix(t: string)
    requires Plain(t)
    ensures Spaces(t) == 0 && (t != "" ==> t[0] != '+' && t[0] != '-')
  {
    if t != "" {
      var c := t[0];
      assert IsHexDigit(c) || c == ':' || c == '.';
    }
  }

  lemma ScanNoDigits(t: string)
    requires Decimals(t) == 0 && Spaces(t) == 0 && (t != "" ==> t[0] != '+' && t[0] != '-')
    ensures Scan(t).size == 0
  {
    hide DecValue;
    assert t[0..] == t;
  }

  /** In plain text a number starts with its digits; next to a dot there are at most three. */
  lemma ScanPlain(t: string)
    requires Plain(t) && Scan(t).size > 0
    ensures var d := Decimals(t);
      d > 0 && IsDigits(t[..d]) && Scan(t) == Number(Signed(Decimal(t[..d]) % 0x1_0000_0000_0000_0000), d)
  {
    hide Scan, Plain, Spaces, Decimal, Decimals;
    var d := Decimals(t);
    NoPrefix(t);
    if d == 0 {
      ScanNoDigits(t);
    }
    DecimalsStop(t);
    assert t[..d] + t[d..] == t;
    ScanDigits(t[..d], t[d..]);
  }

  lemma {:induction false} DecimalsStop(t: string)
    ensures var d := Decimals(t); d < |t| ==> !('0' <= t[d] <= '9')
  {
    if t != "" && '0' <= t[0] <= '9' {
      DecimalsStop(t[1..]);
    }
  }

  lemma NotLong(t: string, i: nat)
    requires Plain(t) && i + 5 <= |t|
    ensures t[i + 4] == '.' ==> !IsDigits(t[i..i + 4])
  {
    assert !LongNumber(t, i);
  }

  lemma ShortNumber(t: string)
    requires Plain(t) && Decimals(t) < |t| && t[Decimals(t)] == '.'
    ensures Decimals(t) <= 3
  {
    hide Plain, Decimals;
    var d := Decimals(t);
    if d > 3 {
      NotLong(t, d - 4);
    }
  }

  lemma ShortLast(t: string)
    requires Plain("." + t)
    ensures Decimals(t) <= 3
  {
    var u := "." + t;
    if Decimals(t) > 3 {
      assert u[1..5] == t[..4];
      assert LongNumber(u, 0);
    }
  }

  /** The first of k numbers in plain text, and the rest. */
  lemma FirstOctet(t: string, k: nat) returns (p: string, rest: string)
    requires k > 0 && Octets(t, k).Some? && Plain(t) && (k == 1 ==> Plain("." + t))
    ensures Octet(p) && Octets(t, k).value[0] == Decimal(p)
    ensures k == 1 ==> t == p && |Octets(t, k).value| == 1
    ensures k > 1 ==> t == p + ("." + rest) && Plain("." + rest) && Plain(rest)
    ensures k > 1 ==> Octets(rest, k - 1).Some? && Octets(t, k).value == [Decimal(p)] + Octets(rest, k - 1).value
  {
    hide Plain, Scan, Decimal, Octets, Decimals;
    OctetsFrom(t, k);
    ScanPlain(t);
    var d := Decimals(t);
    p, rest := t[..d], "";
    if k == 1 {
      ShortLast(t);
      assert p == t;
    } else {
      ShortNumber(t);
      rest := t[d + 1..];
      assert "." + rest == t[d..];
      PlainSuffix(t, d);
      PlainSuffix(t, d + 1);
      assert t == p + ("." + rest);
    }
    DecimalBound(p);
  }

  lemma DottedSound(t: string) returns (v: Dotted)
    requires V4Groups(t).Some? && Plain(t)
    ensures DottedOk(v) && DottedText(v) == t && DottedGroups(v) == V4Groups(t).value
  {
    hide Plain, Octets, Decimal, Octet;
    var a, t1 := FirstOctet(t, 4);
    var b, t2 := FirstOctet(t1, 3);
    var c, t3 := FirstOctet(t2, 2);
    var d, t4 := FirstOctet(t3, 1);
    OctetsBounds(t, 4);
    OctetsBounds(t1, 3);
    OctetsBounds(t2, 2);
    v := Dotted(a, b, c, d);
  }

  /** l and x are what was read of t: only x, or l up to the gap and x behind it. */
  predicate WasRead(t: string, a: Acc, r: Acc, l: seq<string>, x: Side) {
    && AllH16(l) && SideOk(x)
    && if r.gap == a.gap then l == [] && t == SideText(x) && r == Put(a, SideGroups(x))
       else r.gap && l != [] && t == Colons(l) + "::" + SideText(x) && r == Acc(a.head + GroupsOf(l), SideGroups(x), true)
  }

  /** What is read of plain text: fields and, if that is where the gap is, "::" and more fields. */
  lemma {:induction false} FromSound(t: string, a: Acc) returns (l: seq<string>, x: Side)
    requires Plain(t) && ParseFrom(t, a).Some? && (!a.gap ==> a.tail == [])
    ensures WasRead(t, a, ParseFrom(t, a).value, l, x)
    decreases |t|
  {
    l, x := [], Side([], None);
    if t == "" {
      PutTwice(a, [], []);
    } else if DotFirst(t) {
      hide Plain, DottedText, DottedGroups, V4Groups, DotFirst, HexRun;
      var v := DottedSound(t);
      x := Side([], Some(v));
      assert [] + DottedGroups(v) == DottedGroups(v) && [] + [DottedText(v)] == [DottedText(v)];
    } else {
      l, x := FieldSound(t, a);
    }
  }

  lemma OnlyField(p: string, a: Acc)
    requires H16(p)
    ensures WasRead(p, a, Put(a, [GroupOf(p)]), [], Side([p], None))
  {
    hide SideText, SideGroups, HexValue;
    OneField(p);
  }

  lemma FieldThen(p: string, u: string, a: Acc, r: Acc, m: seq<string>, y: Side) returns (l: seq<string>, x: Side)
    requires H16(p) && u != "" && WasRead(u, Put(a, [GroupOf(p)]), r, m, y)
    ensures WasRead(p + (":" + u), a, r, l, x)
  {
    hide SideText, SideGroups, Colons, GroupsOf, GroupOf;
    var g := [GroupOf(p)];
    NoFields();
    if r.gap == a.gap {
      l, x := [], Side([p] + y.ps, y.v4);
      SideSplit(x);
      PutTwice(a, g, SideGroups(y));
    } else {
      l, x := [p] + m, y;
      LeftSplit(l);
      assert p + (":" + (Colons(m) + "::" + SideText(y))) == Colons(l) + "::" + SideText(y);
      assert a.head + g + GroupsOf(m) == a.head + GroupsOf(l);
    }
  }

  lemma FieldGap(p: string, u: string, a: Acc, r: Acc, m: seq<string>, y: Side) returns (l: seq<string>, x: Side)
    requires H16(p) && !a.gap && a.tail == [] && WasRead(u, Put(a, [GroupOf(p)]).(gap := true), r, m, y)
    ensures WasRead(p + "::" + u, a, r, l, x)
  {
    hide SideText, SideGroups, Colons, GroupsOf, GroupOf;
    l, x := [p], y;
    NoLeft();
    LeftSplit(l);
    assert [GroupOf(p)] + [] == [GroupOf(p)] && [] + SideGroups(y) == SideGroups(y);
  }

  lemma FieldSound(t: string, a: Acc) returns (l: seq<string>, x: Side)
    requires t != "" && !DotFirst(t)
    requires Plain(t) && ParseFrom(t, a).Some? && (!a.gap ==> a.tail == [])
    ensures WasRead(t, a, ParseFrom(t, a).value, l, x)
    decreases |t|, 0
  {
    hide Plain, ParseFrom, HexValue, HexRun, DotFirst, WasRead;
    var n := HexRun(t, 5);
    var p, rest := t[..n], t[n..];
    GroupStep(t, a, n, HexValue(p));
    var r := ParseFrom(t, a).value;
    if rest == "" {
      OnlyField(p, a);
      l, x := [], Side([p], None);
      assert t == p;
    } else if rest[1] != ':' {
      PlainSuffix(t, n + 1);
      var u := t[n + 1..];
      assert rest[1..] == u && t == p + (":" + u);
      var m, y := FromSound(u, Put(a, [GroupOf(p)]));
      l, x := FieldThen(p, u, a, r, m, y);
    } else {
      PlainSuffix(t, n + 2);
      var u := t[n + 2..];
      assert rest[2..] == u && t == p + "::" + u;
      var m, y := FromSound(u, Put(a, [GroupOf(p)]).(gap := true));
      l, x := FieldGap(p, u, a, r, m, y);
    }
  }

  lemma LeftSplit(l: seq<string>)
    requires l != [] && AllH16(l)
    ensures GroupsOf(l) == [GroupOf(l[0])] + GroupsOf(l[1..])
    ensures Colons(l) == if |l| == 1 then l[0] else l[0] + (":" + Colons(l[1..]))
  {
  }

  lemma OneField(p: string)
    requires H16(p)
    ensures SideText(Side([p], None)) == p && SideGroups(Side([p], None)) == [GroupOf(p)]
  {
  }

  lemma GapTree(u: string, r: Acc, l: seq<string>, x: Side)
    requires WasRead(u, Acc([], [], true), r, l, x) && (r.gap ==> |r.head| + |r.tail| <= 7)
    ensures var a := Gap([], x);
      && r.gap && AddressOk(a) && AddressText(a) == "::" + u
      && AddressGroups(a) == r.head + Zeros(8 - |r.head| - |r.tail|) + r.tail
  {
    hide SideText, SideGroups, Colons, SideOk, Put;
    NoLeft();
    PutFirst(SideGroups(x));
    assert "" + "::" + u == "::" + u;
  }

  lemma FullTree(s: string, r: Acc, l: seq<string>, x: Side)
    requires WasRead(s, Acc([], [], false), r, l, x)
    requires if r.gap then |r.head| + |r.tail| <= 7 else |r.head| == 8
    ensures var a := if l == [] then Full(x) else Gap(l, x);
      && AddressOk(a) && AddressText(a) == s
      && AddressGroups(a) == if r.gap then r.head + Zeros(8 - |r.head| - |r.tail|) + r.tail else r.head
  {
    hide SideText, SideGroups, Colons, SideOk, Put, GroupsOf;
    PutFirst(SideGroups(x));
    assert [] + GroupsOf(l) == GroupsOf(l);
  }

  lemma PutFirst(gs: seq<Group>)
    ensures Put(Acc([], [], true), gs) == Acc([], gs, true) && Put(Acc([], [], false), gs) == Acc(gs, [], false)
  {
    assert [] + gs == gs;
  }

  lemma Started(s: string) returns (r: Acc)
    requires Unbracketed(s) == s && Parse(s).Some?
    ensures Start(s) == Some(r) && (if r.gap then |r.head| + |r.tail| <= 7 else |r.head| == 8)
    ensures Parse(s).value == if r.gap then r.head + Zeros(8 - |r.head| - |r.tail|) + r.tail else r.head
  {
    hide Start, Unbracketed;
    r := Start(s).value;
  }

  lemma TreeOf(s: string) returns (a: Address)
    requires Plain(s) && Parse(s).Some?
    ensures AddressOk(a) && AddressText(a) == s && AddressGroups(a) == Parse(s).value
  {
    NotBracketed(s);
    hide Plain, Parse, ParseFrom, WasRead, AddressOk, AddressText, AddressGroups, Unbracketed;
    var r := Started(s);
    if |s| >= 2 && s[0] == ':' && s[1] == ':' {
      PlainSuffix(s, 2);
      var l, x := FromSound(s[2..], Acc([], [], true));
      GapTree(s[2..], r, l, x);
      assert s == "::" + s[2..];
      a := Gap([], x);
    } else {
      var l, x := FromSound(s, Acc([], [], false));
      FullTree(s, r, l, x);
      a := if l == [] then Full(x) else Gap(l, x);
    }
  }

  lemma NoLeft()
    ensures Colons([]) == "" && GroupsOf([]) == []
  {
  }

  /** s is a text of section 2.2 of RFC 4291 for the address g. */
  ghost predicate IsAddress(s: string, g: seq<Group>) {
    exists a :: AddressOk(a) && AddressText(a) == s && AddressGroups(a) == g
  }

  /** The texts of the standard are exactly the plain ones that the program accepts, and it reads the
      address the standard says. */
  lemma AcceptedExactly(s: string, g: seq<Group>)
    ensures IsAddress(s, g) <==> Plain(s) && Parse(s) == Some(g)
  {
    hide Plain, Parse, AddressOk, AddressText, AddressGroups;
    if IsAddress(s, g) {
      var a :| AddressOk(a) && AddressText(a) == s && AddressGroups(a) == g;
      GrammarAccepted(a);
    }
    if Plain(s) && Parse(s) == Some(g) {
      var a := TreeOf(s);
    }
  }

  /** A dotted IPv4 address may stand at the end of every form. */
  lemma ParseMapped(hs: seq<string>, ts: seq<string>, v: Dotted)
    requires AllH16(hs) && AllH16(ts) && DottedOk(v)
    ensures |hs| + |ts| <= 5 ==>
      Parse(Colons(hs) + "::" + Colons(ts + [DottedText(v)]))
        == Some(GroupsOf(hs) + Zeros(6 - |hs| - |ts|) + (GroupsOf(ts) + DottedGroups(v)))
    ensures |hs| == 6 ==> Parse(Colons(hs + [DottedText(v)])) == Some(GroupsOf(hs) + DottedGroups(v))
  {
    hide Parse, DottedText, DottedGroups, Colons, GroupsOf, DottedOk, H16;
    DottedTwo(v);
    if |hs| + |ts| <= 5 {
      GrammarAccepted(Gap(hs, Side(ts, Some(v))));
    } else if |hs| == 6 {
      GrammarAccepted(Full(Side(hs, Some(v))));
    }
  }

  // ---- what is accepted besides ----

  /** The scanner takes p for the number v. */
  ghost predicate Scans(p: string, v: nat) {
    && p != "" && v <= 255 && (forall i :: 0 <= i < |p| ==> p[i] != ':')
    && forall t: string :: t == "" || t[0] == '.' ==> Scan(p + t) == Number(v, |p|)
  }

  lemma OctetScans(p: string)
    requires Octet(p)
    ensures Scans(p, Decimal(p))
  {
    hide Scan, Decimal;
    forall t: string | t == "" || t[0] == '.' ensures Scan(p + t) == Number(Decimal(p), |p|) {
      ScanOctet(p, t);
    }
  }

  /** A number of any length counts modulo 2^64. */
  lemma LongScans(p: string)
    requires p != "" && IsDigits(p) && Decimal(p) % 0x1_0000_0000_0000_0000 <= 255
    ensures Scans(p, Decimal(p) % 0x1_0000_0000_0000_0000)
  {
    hide Scan, Decimal;
    forall t: string | t == "" || t[0] == '.'
      ensures Scan(p + t) == Number(Decimal(p) % 0x1_0000_0000_0000_0000, |p|)
    {
      ScanDigits(p, t);
    }
  }

  /** A plus sign needs no digits. */
  lemma SignScans()
    ensures Scans("+", 0)
  {
    forall t: string | t == "" || t[0] == '.' ensures Scan("+" + t) == Number(0, 1) {
      var u := "+" + t;
      assert Decimals(t) == 0 && DecValue("") == 0;
      hide Decimals, DecValue;
      assert u[0..] == u && u[1..] == t && u[1..1] == "";
      assert Spaces(u) == 0;
      assert ScanUnsigned(u) == Number(0, 1);
    }
  }

  /** Spaces may come before a number. */
  lemma SpaceScans(p: string)
    requires Octet(p)
    ensures Scans(" " + p, Decimal(p))
  {
    hide Decimal, Scan;
    forall t: string | t == "" || t[0] == '.' ensures Scan(" " + p + t) == Number(Decimal(p), |p| + 1) {
      ScanOctet(p, t);
      ScanAfterSpace(p + t);
      assert " " + p + t == " " + (p + t);
    }
  }

  lemma ScanAfterSpace(u: string)
    requires u != "" && '0' <= u[0] <= '9'
    ensures Scan(" " + u) == Number(Scan(u).value, Scan(u).size + 1)
  {
    hide Decimals, DecValue;
    var s := " " + u;
    assert s[1..] == u && u[0..] == u;
    assert Spaces(u) == 0 && Spaces(s) == 1;
  }

  /** Whatever the scanner takes for numbers is accepted as a dotted address. */
  lemma LooseAccepted(a: string, b: string, c: string, d: string, w: nat, x: nat, y: nat, z: nat)
    requires Scans(a, w) && Scans(b, x) && Scans(c, y) && Scans(d, z)
    ensures Parse("::" + DottedText(Dotted(a, b, c, d))) == Some(Zeros(6) + [w * 256 + x, y * 256 + z])
  {
    hide Octets, Scan, HexRun;
    var t3 := d;
    var t2 := c + ("." + t3);
    var t1 := b + ("." + t2);
    var t := a + ("." + t1);
    LooseLast(d, z);
    LooseThen(c, y, t3, 2);
    LooseThen(b, x, t2, 3);
    LooseThen(a, w, t1, 4);
    assert [y] + [z] == [y, z] && [x] + [y, z] == [x, y, z] && [w] + [x, y, z] == [w, x, y, z];
    DotAhead(a, t1);
    var s := "::" + t;
    assert s[2..] == t;
    assert [] + [w * 256 + x, y * 256 + z] == [w * 256 + x, y * 256 + z];
    assert [] + Zeros(6) == Zeros(6);
  }

  lemma LooseThen(p: string, v: nat, t: string, k: nat)
    requires Scans(p, v) && k > 1
    ensures Octets(p + ("." + t), k) == var r := Octets(t, k - 1); if r.None? then None else Some([v] + r.value)
  {
    hide Scan;
    var u := p + ("." + t);
    assert u[|p|] == '.' && u[|p| + 1..] == t;
  }

  lemma LooseLast(p: string, v: nat)
    requires Scans(p, v)
    ensures Octets(p, 1) == Some([v])
  {
    hide Scan;
    assert p + "" == p;
  }

  /** Signs for numbers: accepted, and not a text of the standard. */
  lemma SignsAreNumbers()
    ensures Parse("::+.+.+.+") == Some(Zeros(8)) && !Plain("::+.+.+.+")
  {
    hide Parse, Scans, IsHexDigit;
    SignScans();
    LooseAccepted("+", "+", "+", "+", 0, 0, 0, 0);
    var s := "::+.+.+.+";
    assert s[2] == '+' && !IsHexDigit('+') by { NotHex(); }
    assert s == "::" + DottedText(Dotted("+", "+", "+", "+"));
    assert Zeros(6) + [0, 0] == Zeros(8);
  }

  lemma NotHex()
    ensures !IsHexDigit('+') && !IsHexDigit('[')
  {
  }

  /** An address in square brackets is accepted as well. */
  lemma BracketsAccepted(s: string, g: seq<Group>)
    requires IsAddress(s, g)
    ensures Parse("[" + s + "]") == Some(g) && !Plain("[" + s + "]")
  {
    hide Start;
    AcceptedExactly(s, g);
    NotBracketed(s);
    var t := "[" + s + "]";
    assert t[1..|t| - 1] == s;
    assert !Plain(t) by { NotHex(); assert t[0] == '['; }
  }

  // ---- what is written is read ----

  function Fields(gs: seq<Group>): (ps: seq<string>)
    ensures |ps| == |gs|
  {
    if gs == [] then [] else [Hex(gs[0])] + Fields(gs[1..])
  }

  lemma {:induction false} FieldsOk(gs: seq<Group>)
    ensures AllH16(Fields(gs)) && GroupsOf(Fields(gs)) == gs && Colons(Fields(gs)) == Joined(gs)
  {
    hide Hex;
    if gs != [] {
      HexForm(gs[0]);
      FieldsOk(gs[1..]);
      var ps := Fields(gs);
      assert ps[1..] == Fields(gs[1..]);
      assert Hex(gs[0]) + (":" + Joined(gs[1..])) == Hex(gs[0]) + ":" + Joined(gs[1..]);
    }
  }

  /** With any run of zero groups written as "::", or with none, the text reads back as the address. */
  lemma ParseCompressed(g: seq<Group>, b: nat, n: nat)
    requires |g| == 8 && b + n <= 8 && forall k :: b <= k < b + n ==> g[k] == 0
    ensures Parse(Compressed(g, b, n)) == Some(g)
  {
    hide Parse, Joined, SideOk, SideText, SideGroups, Colons, Fields, GroupsOf, H16;
    if n == 0 {
      AsSide(g);
      GrammarAccepted(Full(Side(Fields(g), None)));
    } else {
      var head, tail := g[..b], g[b + n..];
      FieldsOk(head);
      AsSide(tail);
      GrammarAccepted(Gap(Fields(head), Side(Fields(tail), None)));
      assert g == head + Zeros(n) + tail;
    }
  }

  lemma AsSide(gs: seq<Group>)
    ensures var x := Side(Fields(gs), None);
      SideOk(x) && SideText(x) == Joined(gs) && SideGroups(x) == gs
  {
    FieldsOk(gs);
    assert Fields(gs) + [] == Fields(gs) && gs + [] == gs;
  }

  /** Every address reads back from its text. */
  lemma ParseOfText(g: seq<Group>)
    requires |g| == 8
    ensures Parse(Text(g)) == Some(g)
  {
    hide Parse, Compressed;
    BestFound(g, 0, 0, 0);
    var r := BestFrom(g, 0, 0, 0);
    ParseCompressed(g, r.0, r.1);
  }

  /** Writing what was read, in whatever form it came, and reading it again changes nothing; and
      texts of the same address are written the same. */
  lemma ParseStable(s: string, t: string)
    requires Parse(s).Some?
    ensures Parse(Text(Parse(s).value)) == Parse(s)
    ensures Parse(t) == Parse(s) <==> Parse(t).Some? && Text(Parse(t).value) == Text(Parse(s).value)
  {
    ParseOfText(Parse(s).value);
    if Parse(t).Some? {
      ParseOfText(Parse(t).value);
    }
  }
}
