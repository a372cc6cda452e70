/** IPv6 addresses as text: what the program reads, and the one form in which it writes an address
    (section 4 of RFC 5952). */
module Ip6 {
  import opened Ascii
  import opened Optional

  /** A 16-bit group of an address. */
  type Group = g: int | 0 <= g < 0x10000

  // ---- hexadecimal groups ----

  function Digit(d: nat): char
    requires d < 16
  {
    "0123456789abcdef"[d]
  }

  predicate IsHexDigit(c: char) {
    '0' <= c <= '9' || 'a' <= Lower(c) <= 'f'
  }

  function DigitValue(c: char): nat
    requires IsHexDigit(c)
  {
    if '0' <= c <= '9' then (c - '0') as nat else (Lower(c) - 'a') as nat + 10
  }

  function Hex(v: nat): (s: string)
    ensures s != ""
    decreases v
  {
    if v < 16 then [Digit(v)] else Hex(v / 16) + [Digit(v % 16)]
  }

  /** The number of hexadecimal digits t starts with, up to a limit. */
  function HexRun(t: string, limit: nat): (n: nat)
    ensures n <= limit && n <= |t| && forall i :: 0 <= i < n ==> IsHexDigit(t[i])
  {
    if limit == 0 || t == "" || !IsHexDigit(t[0]) then 0 else 1 + HexRun(t[1..], limit - 1)
  }

  function HexValue(s: string): nat
    requires forall i :: 0 <= i < |s| ==> IsHexDigit(s[i])
  {
    if s == "" then 0 else HexValue(s[..|s| - 1]) * 16 + DigitValue(s[|s| - 1])
  }

  lemma DigitInverse(d: nat)
    requires d < 16
    ensures IsHexDigit(Digit(d)) && DigitValue(Digit(d)) == d && Digit(d) != '.' && Digit(d) != ':'
    ensures Lower(Digit(d)) == Digit(d) && (Digit(d) == '0' <==> d == 0)
  {
  }

  /** A group is written in lower case, without leading zeros, and reads back as itself. */
  lemma {:induction false} HexForm(v: nat)
    ensures forall i :: 0 <= i < |Hex(v)| ==> IsHexDigit(Hex(v)[i]) && Lower(Hex(v)[i]) == Hex(v)[i] && Hex(v)[i] != '.'
    ensures HexValue(Hex(v)) == v
    ensures v > 0 ==> Hex(v)[0] != '0'
    ensures v < 0x10 ==> |Hex(v)| == 1
    ensures v < 0x100 ==> |Hex(v)| <= 2
    ensures v < 0x1000 ==> |Hex(v)| <= 3
    ensures v < 0x10000 ==> |Hex(v)| <= 4
    decreases v
  {
    DigitInverse(v % 16);
    if v < 16 {
      assert [Digit(v)][..0] == "";
    } else {
      HexForm(v / 16);
      var s := Hex(v);
      assert s[..|s| - 1] == Hex(v / 16);
    }
  }

  lemma {:induction false} HexRunOf(s: string, t: string, limit: nat)
    requires forall i :: 0 <= i < |s| ==> IsHexDigit(s[i])
    requires |s| <= limit && (t == "" || !IsHexDigit(t[0]))
    ensures HexRun(s + t, limit) == |s|
  {
    if s == "" {
      assert s + t == t;
    } else {
      assert (s + t)[1..] == s[1..] + t;
      HexRunOf(s[1..], t, limit - 1);
    }
  }

  // ---- writing ----

  function Joined(gs: seq<Group>): string {
    if gs == [] then "" else if |gs| == 1 then Hex(gs[0]) else Hex(gs[0]) + ":" + Joined(gs[1..])
  }

  /** The number of zero groups from i on. */
  function ZeroRun(g: seq<Group>, i: nat): (n: nat)
    requires i <= |g|
    ensures i + n <= |g| && (forall k :: i <= k < i + n ==> g[k] == 0) && (i + n < |g| ==> g[i + n] != 0)
    decreases |g| - i
  {
    if i == |g| || g[i] != 0 then 0 else 1 + ZeroRun(g, i + 1)
  }

  /** The zero groups g[b..b+n] are at least two, no other zero groups are more, and none as many
      come before; or there are no two zero groups in a row, and n is 0. */
  predicate IsBest(g: seq<Group>, b: nat, n: nat) {
    && b + n <= |g| && n != 1
    && (forall k :: b <= k < b + n ==> g[k] == 0)
    && (forall i :: 0 <= i <= |g| ==> ZeroRun(g, i) <= n || (n == 0 && ZeroRun(g, i) == 1))
    && (forall i :: 0 <= i < b && n > 0 ==> ZeroRun(g, i) < n)
  }

  lemma BestIsUnique(g: seq<Group>, b: nat, n: nat, c: nat, m: nat)
    requires IsBest(g, b, n) && IsBest(g, c, m) && (n > 0 || m > 0)
    ensures b == c && n == m
  {
    ZeroRunCovers(g, b, n);
    ZeroRunCovers(g, c, m);
  }

  lemma {:induction false} ZeroRunCovers(g: seq<Group>, b: nat, n: nat)
    requires b + n <= |g| && forall k :: b <= k < b + n ==> g[k] == 0
    ensures ZeroRun(g, b) >= n
    decreases n
  {
    if n > 0 {
      ZeroRunCovers(g, b + 1, n - 1);
    }
  }

  /** The text with the groups g[b..b+n] as "::". */
  function Compressed(g: seq<Group>, b: nat, n: nat): string
    requires b + n <= |g|
  {
    if n == 0 then Joined(g) else Joined(g[..b]) + "::" + Joined(g[b + n..])
  }

  // ---- reading ----

  /** The groups read so far, before and after "::". */
  datatype Acc = Acc(head: seq<Group>, tail: seq<Group>, gap: bool)

  function Count(a: Acc): nat {
    if a.gap then |a.tail| else |a.head|
  }

  function Put(a: Acc, gs: seq<Group>): Acc {
    if a.gap then a.(tail := a.tail + gs) else a.(head := a.head + gs)
  }

  /** The first colon or dot is a dot: an IPv4 address follows. */
  predicate DotFirst(t: string) {
    t != "" && (t[0] == '.' || (t[0] != ':' && DotFirst(t[1..])))
  }

  predicate IsSpace(c: char) {
    c == ' ' || '\t' <= c <= '\r'
  }

  function Spaces(t: string): (n: nat)
    ensures n <= |t|
  {
    if t != "" && IsSpace(t[0]) then 1 + Spaces(t[1..]) else 0
  }

  function Decimals(t: string): (n: nat)
    ensures n <= |t| && forall i :: 0 <= i < n ==> '0' <= t[i] <= '9'
  {
    if t != "" && '0' <= t[0] <= '9' then 1 + Decimals(t[1..]) else 0
  }

  /** The value of the digits, in 64 bits. */
  function DecValue(s: string): nat
    requires forall i :: 0 <= i < |s| ==> '0' <= s[i] <= '9'
  {
    if s == "" then 0 else (DecValue(s[..|s| - 1]) * 10 + (s[|s| - 1] - '0') as nat) % 0x1_0000_0000_0000_0000
  }

  function Signed(v: nat): int {
    if v >= 0x8000_0000_0000_0000 then v - 0x1_0000_0000_0000_0000 else v
  }

  datatype Number = Number(value: int, size: nat)

  /** The program's strtoull in base 10: spaces and a sign count even when no digit follows. */
  function ScanUnsigned(t: string): (r: Number)
    ensures r.size <= |t|
  {
    var n := Spaces(t);
    var m := if n < |t| && t[n] == '+' then n + 1 else n;
    var d := Decimals(t[m..]);
    assert t[m..m + d] == t[m..][..d];
    Number(DecValue(t[m..m + d]), m + d)
  }

  /** The program's strtol. */
  function Scan(t: string): (r: Number)
    ensures r.size <= |t|
  {
    var n := Spaces(t);
    if n < |t| && t[n] == '-' then
      var u := ScanUnsigned(t[n + 1..]);
      Number(-Signed(u.value), n + 1 + u.size)
    else
      var u := ScanUnsigned(t[n..]);
      Number(Signed(u.value), n + u.size)
  }

  /** k numbers up to 255 separated by dots, up to the end. */
  function Octets(t: string, k: nat): Option<seq<nat>>
    decreases k
  {
    if k == 0 then None
    else
      var r := Scan(t);
      if r.size == 0 || r.value < 0 || r.value > 255 then None
      else if k == 1 then (if r.size == |t| then Some([r.value]) else None)
      else if r.size == |t| || t[r.size] != '.' then None
      else
        var rest := Octets(t[r.size + 1..], k - 1);
        if rest.None? then None else Some([r.value] + rest.value)
  }

  lemma OctetsFrom(u: string, k: nat)
    requires k > 0
    ensures var x := Scan(u);
      Octets(u, k) ==
        if x.size == 0 || x.value < 0 || x.value > 255 then None
        else if k == 1 then (if x.size == |u| then Some([x.value]) else None)
        else if x.size == |u| || u[x.size] != '.' then None
        else After([x.value], Octets(u[x.size + 1..], k - 1))
  {
    hide Scan;
  }

  function After(o: seq<nat>, rest: Option<seq<nat>>): Option<seq<nat>> {
    if rest.None? then None else Some(o + rest.value)
  }

  lemma {:induction false} OctetsBounds(t: string, k: nat)
    requires Octets(t, k).Some?
    ensures |Octets(t, k).value| == k && forall i :: 0 <= i < k ==> Octets(t, k).value[i] <= 255
    decreases k
  {
    if k > 1 {
      OctetsBounds(t[Scan(t).size + 1..], k - 1);
    }
  }

  /** The two groups of an IPv4 address. */
  function V4Groups(t: string): Option<seq<Group>> {
    var o := Octets(t, 4);
    if o.None? then None else
      OctetsBounds(t, 4);
      Some([o.value[0] * 256 + o.value[1], o.value[2] * 256 + o.value[3]])
  }

  function ParseFrom(t: string, a: Acc): Option<Acc>
    decreases |t|
  {
    if t == "" then Some(a)
    else if DotFirst(t) then
      var v := V4Groups(t);
      if v.None? || Count(a) > 6 then None else Some(Put(a, v.value))
    else
      var n := HexRun(t, 5);
      if n == 0 || n > 4 || Count(a) >= 8 then None
      else
        FourDigits(t[..n]);
        var b := Put(a, [HexValue(t[..n])]);
        var rest := t[n..];
        if rest == "" then Some(b)
        else if rest[0] != ':' || |rest| == 1 then None
        else if rest[1] != ':' then ParseFrom(rest[1..], b)
        else if a.gap then None
        else ParseFrom(rest[2..], b.(gap := true))
  }

  lemma FourDigits(s: string)
    requires |s| <= 4 && forall i :: 0 <= i < |s| ==> IsHexDigit(s[i])
    ensures HexValue(s) < 0x10000
  {
    HexBound(s);
  }

  lemma {:induction false} HexBound(s: string)
    requires forall i :: 0 <= i < |s| ==> IsHexDigit(s[i])
    ensures |s| <= 1 ==> HexValue(s) < 0x10
    ensures |s| <= 2 ==> HexValue(s) < 0x100
    ensures |s| <= 3 ==> HexValue(s) < 0x1000
    ensures |s| <= 4 ==> HexValue(s) < 0x10000
  {
    if s != "" {
      HexBound(s[..|s| - 1]);
    }
  }

  /** One step of the reading: what the digits in front make of the groups so far. */
  lemma GroupStep(t: string, a: Acc, digits: nat, g: nat)
    requires t != "" && !DotFirst(t) && digits == HexRun(t, 5) && g == HexValue(t[..digits])
    ensures digits == 0 || digits > 4 || Count(a) >= 8 ==> ParseFrom(t, a) == None
    ensures 0 < digits <= 4 && Count(a) < 8 ==>
      && g < 0x10000
      && var b, rest := Put(a, [g]), t[digits..];
      ParseFrom(t, a) == (
        if rest == "" then Some(b)
        else if rest[0] != ':' || |rest| == 1 then None
        else if rest[1] != ':' then ParseFrom(rest[1..], b)
        else if a.gap then None
        else ParseFrom(rest[2..], b.(gap := true)))
  {
    hide HexRun, HexValue, DotFirst, V4Groups, Put;
    if digits <= 4 {
      FourDigits(t[..digits]);
    }
  }

  /** An address may stand in square brackets. */
  function Unbracketed(s: string): string {
    if |s| >= 2 && s[0] == '[' && s[|s| - 1] == ']' then s[1..|s| - 1] else s
  }

  function Zeros(n: nat): (z: seq<Group>)
    ensures |z| == n && forall i :: 0 <= i < n ==> z[i] == 0
  {
    seq(n, i => 0)
  }

  function Start(s: string): Option<Acc> {
    if |s| >= 2 && s[0] == ':' && s[1] == ':' then ParseFrom(s[2..], Acc([], [], true)) else ParseFrom(s, Acc([], [], false))
  }

  /** The address as eight groups; None when the text is refused. */
  function Parse(s: string): (r: Option<seq<Group>>)
    ensures r.Some? ==> |r.value| == 8
  {
    var a := Start(Unbracketed(s));
    if a.None? || (if a.value.gap then |a.value.head| + |a.value.tail| > 7 else |a.value.head| != 8) then None
    else if a.value.gap then Some(a.value.head + Zeros(8 - |a.value.head| - |a.value.tail|) + a.value.tail)
    else Some(a.value.head)
  }

  // ---- the form in which an address is written ----

  /** Where the best run starts, looking at the starts from i on, when [b, b + n) is the best before. */
  function BestFrom(g: seq<Group>, i: nat, b: nat, n: nat): (nat, nat)
    requires i <= |g|
    decreases |g| - i
  {
    if i == |g| then (b, n)
    else if ZeroRun(g, i) > n && ZeroRun(g, i) > 1 then BestFrom(g, i + 1, i, ZeroRun(g, i))
    else BestFrom(g, i + 1, b, n)
  }

  /** The RFC 5952 form. */
  function Text(g: seq<Group>): string
    requires |g| == 8
  {
    BestFound(g, 0, 0, 0);
    var r := BestFrom(g, 0, 0, 0);
    Compressed(g, r.0, r.1)
  }

  /** [b, b + n) is the best run among the starts below i, or n is 0 and no two zero groups start there. */
  predicate BestBefore(g: seq<Group>, i: nat, b: nat, n: nat)
    requires i <= |g|
  {
    && b + n <= |g| && n != 1 && (n > 0 ==> b < i)
    && (forall k :: b <= k < b + n ==> g[k] == 0)
    && (forall j :: 0 <= j < i ==> ZeroRun(g, j) <= n || (n == 0 && ZeroRun(g, j) == 1))
    && (forall j :: 0 <= j < b && n > 0 ==> ZeroRun(g, j) < n)
  }

  lemma BestStep(g: seq<Group>, i: nat, b: nat, n: nat)
    requires i < |g| && BestBefore(g, i, b, n)
    ensures var z := ZeroRun(g, i);
      if z > n && z > 1 then BestBefore(g, i + 1, i, z) else BestBefore(g, i + 1, b, n)
  {
  }

  lemma BestLast(g: seq<Group>, b: nat, n: nat)
    requires BestBefore(g, |g|, b, n)
    ensures IsBest(g, b, n)
  {
    assert ZeroRun(g, |g|) == 0;
  }

  lemma {:induction false} BestFound(g: seq<Group>, i: nat, b: nat, n: nat)
    requires i <= |g| && BestBefore(g, i, b, n)
    ensures var r := BestFrom(g, i, b, n); IsBest(g, r.0, r.1)
    decreases |g| - i
  {
    hide BestBefore, IsBest, ZeroRun;
    if i < |g| {
      var z := ZeroRun(g, i);
      BestStep(g, i, b, n);
      if z > n && z > 1 {
        BestFound(g, i + 1, i, z);
      } else {
        BestFound(g, i + 1, b, n);
      }
    } else {
      BestLast(g, b, n);
    }
  }

  /** The text of an address is the compressed one with the leftmost longest run of zero groups, two or more, as "::". */
  lemma TextForm(g: seq<Group>, b: nat, n: nat)
    requires |g| == 8 && IsBest(g, b, n)
    ensures Text(g) == Compressed(g, b, n)
  {
    BestFound(g, 0, 0, 0);
    var r := BestFrom(g, 0, 0, 0);
    if n > 0 || r.1 > 0 {
      BestIsUnique(g, b, n, r.0, r.1);
    }
  }
}
