/** The "-data" text and what is read from any text, character by character. */
module RecordLaws {
  import opened Ascii
  import opened Optional
  import opened Records

  /** Letters are the same when they differ in case only. */
  lemma SameLetters(a: char, b: char)
    ensures SameText([a], [b]) <==> a == b || ('A' <= a <= 'Z' && b == a + 32 as char) || ('A' <= b <= 'Z' && a == b + 32 as char)
  {
    assert [a][0] == a && [b][0] == b;
  }

  lemma {:induction false} OneLineAt(v: string, i: nat)
    requires i < |v|
    ensures OneLine(v)[i] == if v[i] == '\n' || v[i] == '\r' then ' ' else v[i]
  {
    if i > 0 {
      OneLineAt(v[1..], i - 1);
    }
  }

  /** Two records, one with two fields: key, equals sign, value, end of line; an empty line between. */
  lemma TwoRecords()
    ensures Printed([[Field("id", "1"), Field("name", "a\nb")], [Field("id", "2")]]) == "id=1\nname=a b\n\nid=2\n"
  {
    var r, q := [Field("id", "1"), Field("name", "a\nb")], [Field("id", "2")];
    var rs := [r, q];
    forall i | 0 <= i < 3 ensures OneLine("a\nb")[i] == "a b"[i] {
      OneLineAt("a\nb", i);
    }
    assert OneLine("a\nb") == "a b";
    OneLineAt("1", 0);
    OneLineAt("2", 0);
    assert OneLine("1") == "1" && OneLine("2") == "2";
    hide OneLine;
    assert r[1..] == [Field("name", "a\nb")] && r[1..][1..] == [] && q[1..] == [] && rs[1..] == [q];
    assert RecordText(r[1..]) == "name=a b\n";
    assert RecordText(r) == "id=1\nname=a b\n" && RecordText(q) == "id=2\n";
  }

  /** Line ends are taken off the end, and only there. */
  lemma StripLaw(s: string, c: char)
    ensures Stripped("") == ""
    ensures Stripped(s + [c]) == if c == '\n' || c == '\r' then Stripped(s) else s + [c]
  {
    assert (s + [c])[..|s|] == s;
  }

  /** The value of the first line that begins with the key and an equals sign; a carriage return at the
      end of the line does not belong to it. */
  lemma FieldLaw(k: string, v: string, rest: string, key: string, cr: bool)
    requires SameText(k, key) && '\n' !in k && '\n' !in v && (v != "" ==> v[|v| - 1] != '\r')
    ensures Lookup(k + "=" + v + (if cr then "\r" else "") + ("\n" + rest), key) == Some(v)
  {
    var line := k + "=" + v + (if cr then "\r" else "");
    LineLengthOf(line, rest);
    var s := line + ("\n" + rest);
    assert s[..|line|] == line;
    LineHas(k, v, key, cr);
    hide LineMatches, LineValue, LineLength;
  }

  lemma LineHas(k: string, v: string, key: string, cr: bool)
    requires SameText(k, key) && (v != "" ==> v[|v| - 1] != '\r')
    ensures var line := k + "=" + v + (if cr then "\r" else ""); LineMatches(line, key) && LineValue(line, key) == v
  {
    var line := k + "=" + v + (if cr then "\r" else "");
    assert line[..|key|] == k && line[|key| + 1..] == v + (if cr then "\r" else "");
    assert (v + "\r")[..|v|] == v && v + "" == v;
  }

  /** Any other line is passed over. */
  lemma OtherLine(line: string, rest: string, key: string)
    requires '\n' !in line && (|line| <= |key| || line[|key|] != '=' || !SameText(line[..|key|], key))
    ensures Lookup(line + ("\n" + rest), key) == Lookup(rest, key) && Lookup(line, key) == None
  {
    hide Lookup, LineValue, LineLength, SameText;
    NoMatch(line, key);
    LineLengthOf(line, rest);
    NoLineEnd(line);
    hide LineMatches;
    var s := line + ("\n" + rest);
    assert s[..|line|] == line && s[|line| + 1..] == rest;
    LookupStep(s, key);
    if line != "" {
      LookupStep(line, key);
      assert line[..|line|] == line;
    } else {
      LookupNothing(key);
    }
  }

  lemma NoMatch(line: string, key: string)
    requires |line| <= |key| || line[|key|] != '=' || !SameText(line[..|key|], key)
    ensures !LineMatches(line, key)
  {
    hide SameText;
  }

  lemma LookupNothing(key: string)
    ensures Lookup("", key) == None
  {
  }

  lemma LookupStep(s: string, key: string)
    requires s != ""
    ensures var n := LineLength(s);
      !LineMatches(s[..n], key) ==> Lookup(s, key) == if n == |s| then None else Lookup(s[n + 1..], key)
  {
    hide LineMatches, LineValue, LineLength;
  }

  lemma {:induction false} NoLineEnd(line: string)
    requires '\n' !in line
    ensures LineLength(line) == |line|
  {
    if line != "" {
      NoLineEnd(line[1..]);
    }
  }

  /** An empty line, also one that ends with a carriage return, is the end of a record. */
  lemma ForeignRecords()
    ensures Split("a=1\r\n\r\nb=2\n") == ["a=1\r\n", "b=2\n"]
  {
    var s, u, t := "a=1\r\n\r\nb=2\n", "\r\nb=2\n", "b=2\n";
    FirstLength();
    SecondLength();
    hide RecordLength;
    assert s[..5] == "a=1\r\n" && s[5..] == u;
    assert u[1..] == "\nb=2\n" && "\nb=2\n"[1..] == t && SkipLineEnds(u) == t;
    assert t[..4] == t && t[4..] == "" && Split("") == [];
    assert SkipLineEnds(t) == t && SkipLineEnds(s) == s;
    assert Split(u) == [t];
  }

  lemma FirstLength()
    ensures RecordLength("a=1\r\n\r\nb=2\n") == 5
  {
    var s := "a=1\r\n\r\nb=2\n";
    assert s[1..] == "=1\r\n\r\nb=2\n" && s[1..][1..] == "1\r\n\r\nb=2\n" && s[1..][1..][1..] == "\r\n\r\nb=2\n";
    assert s[1..][1..][1..][1..] == "\n\r\nb=2\n";
    assert RecordLength("\n\r\nb=2\n") == 1 && RecordLength("\r\n\r\nb=2\n") == 2;
    assert RecordLength("1\r\n\r\nb=2\n") == 3 && RecordLength("=1\r\n\r\nb=2\n") == 4;
  }

  lemma SecondLength()
    ensures RecordLength("b=2\n") == 4
  {
    var t := "b=2\n";
    assert t[1..] == "=2\n" && t[1..][1..] == "2\n" && t[1..][1..][1..] == "\n";
    assert RecordLength("\n") == 1 && RecordLength("2\n") == 2 && RecordLength("=2\n") == 3;
  }
}
