/** What digits, dots and bytes of an address stand for, written out, and two addresses in full. */
module Ip6Laws {
  import opened Ascii
  import opened Bits
  import opened Optional
  import opened Ip6
  import opened Ip6Grammar
  import opened Ip6Accepted
  import opened Ip6Text

  function NumberOf(c: char): nat {
    if '0' <= c <= '9' then (c - '0') as nat
    else if 'a' <= c <= 'f' then (c - 'a') as nat + 10
    else if 'A' <= c <= 'F' then (c - 'A') as nat + 10
    else 0
  }

  /** Hexadecimal digits are written in lower case, and read in both. */
  lemma Digits(d: nat, q: nat, s: string, c: char)
    requires d < 16 && forall i :: 0 <= i < |s| ==> IsHexDigit(s[i])
    ensures Hex(d) == [if d < 10 then '0' + d as char else 'a' + (d - 10) as char]
    ensures q > 0 ==> Hex(16 * q + d) == Hex(q) + Hex(d)
    ensures IsHexDigit(c) <==> '0' <= c <= '9' || 'a' <= c <= 'f' || 'A' <= c <= 'F'
    ensures IsHexDigit(c) ==> HexValue(s + [c]) == 16 * HexValue(s) + NumberOf(c)
    ensures HexValue("") == 0
  {
    assert q > 0 ==> (16 * q + d) / 16 == q && (16 * q + d) % 16 == d;
    if IsHexDigit(c) {
      assert (s + [c])[..|s|] == s;
    }
  }

  /** A group is two bytes, the high one first. */
  lemma GroupBytes(ip: seq<Byte>, k: nat)
    requires |ip| == 16 && k < 8
    ensures Groups(ip)[k] == 256 * (ip[2 * k] as int) + ip[2 * k + 1] as int
  {
  }

  lemma MappedNumbers()
    ensures IsDigits("192") && Decimal("192") == 192 && IsDigits("0") && Decimal("0") == 0
    ensures IsDigits("2") && Decimal("2") == 2 && IsDigits("1") && Decimal("1") == 1
  {
    assert "192"[..2] == "19" && "19"[..1] == "1" && "1"[..0] == "" && "0"[..0] == "" && "2"[..0] == "";
    assert Decimal("") == 0;
    assert Decimal("1") == 1;
    assert Decimal("19") == 19;
  }

  lemma MappedGroups()
    ensures var v := Dotted("192", "0", "2", "1");
      DottedOk(v) && DottedText(v) == "192.0.2.1" && DottedGroups(v) == [0xC000, 0x0201]
  {
    hide Decimal, IsDigits;
    MappedNumbers();
  }

  /** The four numbers of a dotted address are the bytes of two groups, the high ones first. */
  lemma Mapped()
    ensures Parse("::192.0.2.1") == Some([0, 0, 0, 0, 0, 0, 0xC000, 0x0201])
  {
    hide Parse, Decimal, DottedGroups, DottedText, DottedOk, Octet;
    var v := Dotted("192", "0", "2", "1");
    MappedGroups();
    ParseMapped([], [], v);
    assert Colons([]) + "::" + Colons([] + [DottedText(v)]) == "::192.0.2.1";
    assert GroupsOf([]) + Zeros(6) + (GroupsOf([]) + [0xC000, 0x0201]) == [0, 0, 0, 0, 0, 0, 0xC000, 0x0201];
  }

  function Example(): seq<Group> {
    [0x2001, 0xDB8, 0, 0, 0, 0, 0, 1]
  }

  lemma ExampleHex()
    ensures Hex(0x2001) == "2001" && Hex(0xDB8) == "db8" && Hex(1) == "1"
  {
    assert Hex(2) == "2" && Hex(0x20) == "20" && Hex(0x200) == "200";
    assert Hex(0xD) == "d" && Hex(0xDB) == "db";
  }

  lemma ExampleBest()
    ensures IsBest(Example(), 2, 5)
  {
    var g := Example();
    assert ZeroRun(g, 8) == 0 && ZeroRun(g, 7) == 0 && ZeroRun(g, 6) == 1 && ZeroRun(g, 5) == 2;
    assert ZeroRun(g, 4) == 3 && ZeroRun(g, 3) == 4 && ZeroRun(g, 2) == 5 && ZeroRun(g, 1) == 0 && ZeroRun(g, 0) == 0;
  }

  /** 2001:db8::1 is written and read as such. */
  lemma WrittenAndRead()
    ensures Text(Example()) == "2001:db8::1" && Parse("2001:db8::1") == Some(Example())
  {
    hide Parse, IsBest;
    var g := Example();
    ExampleBest();
    TextForm(g, 2, 5);
    ExampleHex();
    hide Text, Hex;
    assert g[..2] == [0x2001, 0xDB8] && g[7..] == [1] && g[..2][1..] == [0xDB8];
    assert Joined([0xDB8]) == "db8" && Joined(g[..2]) == "2001:db8" && Joined(g[7..]) == "1";
    assert Compressed(g, 2, 5) == "2001:db8::1";
    ParseOfText(g);
  }
}
