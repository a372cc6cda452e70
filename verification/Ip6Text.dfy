/** The scanner and the printer of IPv6 addresses, as loops over characters and groups. */
module Ip6Text {
  import opened Bits
  import opened Ascii
  import opened Optional
  import opened Ip6

  /** An address in network byte order as groups. */
  function Groups(b: seq<Byte>): (g: seq<Group>)
    requires |b| == 16
    ensures |g| == 8 && forall i :: 0 <= i < 8 ==> g[i] == GroupAt(b, i)
  {
    seq(8, i requires 0 <= i < 8 => GroupAt(b, i))
  }

  function GroupAt(b: seq<Byte>, i: nat): Group
    requires |b| == 16 && i < 8
  {
    b[2 * i] as int * 256 + b[2 * i + 1] as int
  }

  // ---- reading ----

  /** The four numbers of an IPv4 address, up to the end of t. */
  method ReadOctets(t: string) returns (v: Option<seq<nat>>)
    ensures v == Octets(t, 4)
  {
    hide Scan, Octets;
    var o: seq<nat> := [];
    var r: nat := 0;
    assert t[0..] == t;
    AfterNone(Octets(t, 4));
    for n := 0 to 4
      invariant r <= |t| && |o| == n
      invariant n < 4 ==> Octets(t, 4) == After(o, Octets(t[r..], 4 - n))
      invariant n == 4 ==> Octets(t, 4) == Some(o)
    {
      var u := t[r..];
      var x := Scan(u);
      OctetsFrom(u, 4 - n);
      if x.size == 0 || x.value < 0 || x.value > 255 {
        return None;
      }
      ghost var was := o;
      o := o + [x.value];
      r := r + x.size;
      if n < 3 {
        if r >= |t| || t[r] != '.' {
          return None;
        }
        r := r + 1;
        assert u[x.size + 1..] == t[r..];
        AfterSnoc(was, x.value, Octets(t[r..], 3 - n));
      } else if r != |t| {
        return None;
      }
    }
    return Some(o);
  }

  lemma AfterNone(rest: Option<seq<nat>>)
    ensures After([], rest) == rest
  {
    if rest.Some? {
      assert [] + rest.value == rest.value;
    }
  }

  lemma AfterSnoc(o: seq<nat>, x: nat, rest: Option<seq<nat>>)
    ensures After(o + [x], rest) == After(o, After([x], rest))
  {
    if rest.Some? {
      assert o + [x] + rest.value == o + ([x] + rest.value);
    }
  }

  /** Whether the first colon or dot of t[p..] is a dot. */
  method SeesDot(t: string, p: nat) returns (dot: bool)
    requires p <= |t|
    ensures dot == DotFirst(t[p..])
  {
    var q := p;
    while q < |t| && t[q] != ':' && t[q] != '.'
      invariant p <= q <= |t| && DotFirst(t[q..]) == DotFirst(t[p..])
    {
      assert t[q..][1..] == t[q + 1..];
      q := q + 1;
    }
    dot := q < |t| && t[q] == '.';
  }

  /** Up to five hexadecimal digits from p on, and their value. */
  method ReadDigits(t: string, p: nat) returns (digits: nat, g: nat)
    requires p <= |t|
    ensures digits == HexRun(t[p..], 5) && g == HexValue(t[p..][..digits])
  {
    digits, g := 0, 0;
    assert HexValue("") == 0;
    hide HexRun, HexValue, DigitValue, IsHexDigit;
    while p + digits < |t| && IsHexDigit(t[p + digits]) && digits < 5
      invariant p + digits <= |t| && digits <= 5
      invariant forall i :: p <= i < p + digits ==> IsHexDigit(t[i])
      invariant HexRun(t[p..], 5) == digits + HexRun(t[p + digits..], 5 - digits)
      invariant g == HexValue(t[p..p + digits])
    {
      DigitStep(t, p, p + digits, 5 - digits);
      g := g * 16 + DigitValue(t[p + digits]);
      digits := digits + 1;
    }
    DigitsEnd(t[p + digits..], 5 - digits);
    assert t[p..][..digits] == t[p..p + digits];
  }

  lemma DigitStep(t: string, p: nat, q: nat, limit: nat)
    requires p <= q < |t| && limit > 0 && forall i :: p <= i <= q ==> IsHexDigit(t[i])
    ensures HexRun(t[q..], limit) == 1 + HexRun(t[q + 1..], limit - 1)
    ensures HexValue(t[p..q + 1]) == HexValue(t[p..q]) * 16 + DigitValue(t[q])
  {
    assert t[q..][1..] == t[q + 1..];
    assert t[p..q + 1][..q - p] == t[p..q];
  }

  lemma DigitsEnd(t: string, limit: nat)
    requires limit == 0 || t == "" || !IsHexDigit(t[0])
    ensures HexRun(t, limit) == 0
  {
  }

  lemma NoneJoined()
    ensures Joined([]) == ""
  {
  }

  lemma AtEnd(a: Acc)
    ensures ParseFrom("", a) == Some(a)
  {
  }

  lemma AtV4(t: string, a: Acc)
    requires DotFirst(t)
    ensures ParseFrom(t, a) == if V4Groups(t).None? || Count(a) > 6 then None else Some(Put(a, V4Groups(t).value))
  {
    hide DotFirst, V4Groups, HexRun, HexValue, Put;
    assert t != "" by { NonEmpty(t); }
  }

  lemma NonEmpty(t: string)
    requires DotFirst(t)
    ensures t != ""
  {
  }

  /** The groups scanned so far. */
  class Scanner {
    const head: array<Group>
    const tail: array<Group>
    var nh: nat
    var nt: nat
    var gap: bool

    ghost predicate Valid()
      reads this, head, tail
    {
      head != tail && head.Length == 8 && tail.Length == 8 && nh <= 8 && nt <= 8 && (!gap ==> nt == 0)
    }

    ghost function Read(): Acc
      reads this, head, tail
      requires Valid()
    {
      Acc(head[..nh], tail[..nt], gap)
    }

    constructor ()
      ensures Valid() && fresh(head) && fresh(tail) && Read() == Acc([], [], false)
    {
      head := new Group[8](_ => 0);
      tail := new Group[8](_ => 0);
      nh, nt, gap := 0, 0, false;
    }

    method Add(g: Group)
      requires Valid() && Count(Read()) < 8
      modifies this`nh, this`nt, head, tail
      ensures Valid() && Read() == Put(old(Read()), [g])
    {
      if gap {
        tail[nt] := g;
        nt := nt + 1;
        assert tail[..nt] == old(tail[..nt]) + [g];
      } else {
        head[nh] := g;
        nh := nh + 1;
        assert head[..nh] == old(head[..nh]) + [g];
      }
    }

    /** Reads the groups of t into head and tail. */
    method ScanGroups(t: string) returns (ok: bool)
      requires Valid() && Read() == Acc([], [], false)
      modifies this, head, tail
      ensures Valid() && ok == Start(t).Some? && (ok ==> Read() == Start(t).value)
    {
      hide ParseFrom, DotFirst;
      var p := 0;
      assert t[0..] == t;
      if |t| >= 2 && t[0] == ':' && t[1] == ':' {
        gap := true;
        p := 2;
      }
      while p < |t|
        invariant Valid() && p <= |t| && Start(t) == ParseFrom(t[p..], Read())
      {
        var dot := SeesDot(t, p);
        if dot {
          AtV4(t[p..], Read());
          ok := AddV4(t[p..]);
          return;
        }
        ok, p := ScanGroup(t, p);
        if !ok {
          return;
        }
      }
      AtEnd(Read());
      assert t[p..] == "";
      return true;
    }

    /** One group from p on, and the colons behind it. */
    method ScanGroup(t: string, p: nat) returns (ok: bool, next: nat)
      requires Valid() && p < |t| && !DotFirst(t[p..])
      modifies this, head, tail
      ensures Valid() && p < next <= |t|
      ensures ParseFrom(t[p..], old(Read())) == if ok then ParseFrom(t[next..], Read()) else None
    {
      hide HexRun, HexValue, DotFirst, V4Groups, Put, ParseFrom;
      next := p + 1;
      var digits, g := ReadDigits(t, p);
      GroupStep(t[p..], Read(), digits, g);
      if digits == 0 || digits > 4 {
        return false, next;
      }
      if gap {
        if nt >= 8 {
          return false, next;
        }
      } else if nh >= 8 {
        return false, next;
      }
      ghost var rest := t[p..][digits..];
      Add(g);
      next := p + digits;
      assert rest == t[next..];
      if next == |t| {
        AtEnd(Read());
        return true, next;
      }
      if t[next] != ':' {
        return false, next;
      }
      next := next + 1;
      assert rest[1..] == t[next..];
      if next < |t| && t[next] == ':' {
        if gap {
          return false, next;
        }
        gap := true;
        next := next + 1;
        assert rest[2..] == t[next..];
      } else if next == |t| {
        return false, next;
      }
      ok := true;
    }

    /** An IPv4 address up to the end of t, as two groups. */
    method AddV4(t: string) returns (ok: bool)
      requires Valid()
      modifies this`nh, this`nt, head, tail
      ensures Valid() && ok == (V4Groups(t).Some? && Count(old(Read())) <= 6)
      ensures ok ==> Read() == Put(old(Read()), V4Groups(t).value)
    {
      hide Octets;
      var v := ReadOctets(t);
      if v.None? {
        return false;
      }
      if (if gap then nt else nh) > 6 {
        return false;
      }
      OctetsBounds(t, 4);
      ghost var a := Read();
      var g1, g2 := v.value[0] * 256 + v.value[1], v.value[2] * 256 + v.value[3];
      Add(g1);
      Add(g2);
      assert a.head + [g1] + [g2] == a.head + [g1, g2] && a.tail + [g1] + [g2] == a.tail + [g1, g2];
      return true;
    }
  }

  /** Group k when i groups of the tail are in place. */
  function Target(head: seq<Group>, tail: seq<Group>, i: nat, k: nat): Group
    requires k < 8 && i <= |tail| && |head| + |tail| <= 8
  {
    if k < |head| then head[k] else if 8 - |tail| <= k < 8 - |tail| + i then tail[k - (8 - |tail|)] else 0
  }

  /** ip6_parse: the address is stored only when the whole text is accepted. */
  method Ip6Parse(s: string, ip: array<Byte>) returns (ok: bool)
    requires ip.Length == 16
    modifies ip
    ensures ok == Parse(s).Some?
    ensures ok ==> Groups(ip[..]) == Parse(s).value
    ensures !ok ==> ip[..] == old(ip[..])
  {
    hide Start, Groups;
    var t := Unbracketed(s);
    var a := new Scanner();
    ok := a.ScanGroups(t);
    if !ok || (if a.gap then a.nh + a.nt > 7 else a.nh != 8) {
      return false;
    }
    ghost var g := Parse(s).value;
    forall i | 0 <= i < 16 {
      ip[i] := 0;
    }
    for i := 0 to a.nh
      modifies ip
      invariant forall k :: 0 <= k < 8 ==> GroupAt(ip[..], k) == if k < i then a.head[k] else 0
    {
      Store(ip, i, a.head[i]);
    }
    for i := 0 to a.nt
      modifies ip
      invariant forall k :: 0 <= k < 8 ==> GroupAt(ip[..], k) == Target(a.head[..a.nh], a.tail[..a.nt], i, k)
    {
      Store(ip, 8 - a.nt + i, a.tail[i]);
    }
    assert Groups(ip[..]) == g;
    return true;
  }

  method Store(ip: array<Byte>, k: nat, g: Group)
    requires ip.Length == 16 && k < 8
    modifies ip
    ensures GroupAt(ip[..], k) == g
    ensures forall j :: 0 <= j < 8 && j != k ==> GroupAt(ip[..], j) == old(GroupAt(ip[..], j))
  {
    ip[2 * k] := g / 256;
    ip[2 * k + 1] := g % 256;
  }

  // ---- writing ----

  lemma {:induction false} JoinedSnoc(gs: seq<Group>, x: Group)
    ensures Joined(gs + [x]) == (if gs == [] then "" else Joined(gs) + ":") + Hex(x)
  {
    if gs == [] {
      assert gs + [x] == [x];
    } else {
      assert (gs + [x])[1..] == gs[1..] + [x];
      JoinedSnoc(gs[1..], x);
    }
  }

  lemma {:induction false} InsideRun(g: seq<Group>, i: nat, k: nat)
    requires i <= k <= |g| && k == i + ZeroRun(g, i)
    ensures forall j :: i <= j <= k ==> (j < k ==> ZeroRun(g, j) == k - j)
    decreases k - i
  {
    if i < k {
      InsideRun(g, i + 1, k);
    }
  }

  /** The starts inside a run of zero groups are no better than its own start. */
  lemma {:induction false} SkipRun(g: seq<Group>, i: nat, k: nat, b: nat, n: nat)
    requires i <= k <= |g| && forall j :: i <= j < k ==> ZeroRun(g, j) <= n || ZeroRun(g, j) <= 1
    ensures BestFrom(g, i, b, n) == BestFrom(g, k, b, n)
    decreases k - i
  {
    if i < k {
      SkipRun(g, i + 1, k, b, n);
    }
  }

  /** Looking at a zero group looks at its whole run. */
  lemma LookAtRun(g: seq<Group>, i: nat, k: nat, b: nat, n: nat)
    requires i < k <= |g| && g[i] == 0 && ZeroRun(g, i) == k - i
    ensures BestFrom(g, i, b, n) == if k - i > n && k - i > 1 then BestFrom(g, k, i, k - i) else BestFrom(g, k, b, n)
  {
    InsideRun(g, i, k);
    if k - i > n && k - i > 1 {
      SkipRun(g, i + 1, k, i, k - i);
    } else {
      SkipRun(g, i + 1, k, b, n);
    }
  }

  lemma LookAtGroup(g: seq<Group>, i: nat, b: nat, n: nat)
    requires i < |g| && g[i] != 0
    ensures BestFrom(g, i, b, n) == BestFrom(g, i + 1, b, n)
  {
  }

  method FindBest(g: seq<Group>) returns (best: int, len: nat)
    requires |g| == 8
    ensures (best == -1 && len == 1 && BestFrom(g, 0, 0, 0).1 == 0) || (best >= 0 && len >= 2 && (best as nat, len) == BestFrom(g, 0, 0, 0))
  {
    hide BestFrom;
    best, len := -1, 1;
    var i := 0;
    while i < 8
      invariant i <= 8 && (best == -1 ==> len == 1) && best >= -1 && (best >= 0 ==> len >= 2)
      invariant BestFrom(g, 0, 0, 0) == (if best == -1 then BestFrom(g, i, 0, 0) else BestFrom(g, i, best, len))
    {
      if g[i] != 0 {
        LookAtGroup(g, i, if best == -1 then 0 else best, if best == -1 then 0 else len);
        i := i + 1;
      } else {
        var k := i;
        while k < 8 && g[k] == 0
          invariant i <= k <= 8 && ZeroRun(g, i) == k - i + ZeroRun(g, k)
        {
          k := k + 1;
        }
        LookAtRun(g, i, k, if best == -1 then 0 else best, if best == -1 then 0 else len);
        if k - i > len {
          best, len := i, k - i;
        }
        i := k;
      }
    }
    AllSeen(g, if best == -1 then 0 else best, if best == -1 then 0 else len);
  }

  lemma AllSeen(g: seq<Group>, b: nat, n: nat)
    ensures BestFrom(g, |g|, b, n) == (b, n)
  {
  }

  /** ip6_str. */
  method Ip6Str(ip: seq<Byte>) returns (s: string)
    requires |ip| == 16
    ensures s == Text(Groups(ip))
  {
    hide BestFrom, Hex, GroupAt, IsBest, Joined;
    NoneJoined();
    var g := Groups(ip);
    BestFound(g, 0, 0, 0);
    var best, len := FindBest(g);
    BestFits(g, best, len);
    s := "";
    var i := 0;
    while i < 8
      invariant i <= 8 && (best >= 0 ==> i <= best || best + len <= i)
      invariant best < 0 || i <= best ==> s == Joined(g[..i])
      invariant best >= 0 && best + len <= i ==> s == Joined(g[..best]) + "::" + Joined(g[best + len..i])
    {
      if i == best {
        s := s + "::";
        i := i + len;
        assert g[i..i] == [];
        assert s == Joined(g[..best]) + "::" + "";
      } else {
        ghost var was := s;
        if i != 0 && i != best + len {
          s := s + ":";
        }
        s := s + Hex(g[i]);
        if best < 0 || i < best {
          assert g[..i + 1] == g[..i] + [g[i]];
          JoinedSnoc(g[..i], g[i]);
        } else {
          assert g[best + len..i + 1] == g[best + len..i] + [g[i]];
          JoinedSnoc(g[best + len..i], g[i]);
        }
        i := i + 1;
      }
    }
    assert g[..8] == g;
    assert best >= 0 ==> g[best + len..8] == g[best + len..];
  }

  lemma BestFits(g: seq<Group>, best: int, len: nat)
    requires |g| == 8 && best >= 0 ==> (best as nat, len) == BestFrom(g, 0, 0, 0)
    requires |g| == 8
    ensures best >= 0 ==> best + len <= 8
  {
    BestFound(g, 0, 0, 0);
  }
}
