/** The "-data" output of commands, and the BASIC functions that read it back: RUN$ strips the last
    line ends, RECORDS splits the text into records, FIELD$ finds a value. */
module Records {
  import opened Ascii
  import opened Optional

  datatype Field = Field(key: string, value: string)

  type Record = seq<Field>

  // ---- printing ----

  predicate IsLineEnd(c: char) {
    c == '\n' || c == '\r'
  }

  /** The value on one line. */
  function OneLine(v: string): (r: string)
    ensures |r| == |v| && forall i :: 0 <= i < |v| ==> !IsLineEnd(r[i])
  {
    if v == "" then "" else [if IsLineEnd(v[0]) then ' ' else v[0]] + OneLine(v[1..])
  }

  function LineText(f: Field): string {
    f.key + "=" + OneLine(f.value)
  }

  function RecordText(r: Record): string {
    if r == [] then "" else LineText(r[0]) + "\n" + RecordText(r[1..])
  }

  /** Records are separated by empty lines. */
  function Printed(rs: seq<Record>): string {
    if rs == [] then ""
    else if |rs| == 1 then RecordText(rs[0])
    else RecordText(rs[0]) + "\n" + Printed(rs[1..])
  }

  class DataOutput {
    var text: string
    var first: bool

    constructor ()
      ensures text == "" && first
    {
      text := "";
      first := true;
    }

    method DataRecord()
      modifies this
      ensures text == old(text) + (if old(first) then "" else "\n") && !first
    {
      if !first {
        text := text + "\n";
      }
      first := false;
    }

    method DataField(key: string, value: string)
      modifies this
      ensures text == old(text) + (LineText(Field(key, value)) + "\n") && first == old(first)
    {
      var b := new char[|value|](i requires 0 <= i < |value| => value[i]);
      for i := 0 to b.Length
        invariant forall k :: 0 <= k < i ==> b[k] == (if IsLineEnd(value[k]) then ' ' else value[k])
        invariant forall k :: i <= k < b.Length ==> b[k] == value[k]
        invariant text == old(text) && first == old(first)
      {
        if IsLineEnd(b[i]) {
          b[i] := ' ';
        }
      }
      OneLineIs(value, b[..]);
      text := text + key;
      text := text + "=";
      text := text + b[..];
      text := text + "\n";
    }

    /** What a command does with "-data". */
    method PrintRecords(rs: seq<Record>)
      requires first
      modifies this
      ensures text == old(text) + Printed(rs)
    {
      hide RecordText;
      assert rs[..0] == [];
      for i := 0 to |rs|
        invariant text == old(text) + Printed(rs[..i]) && (first <==> i == 0)
      {
        DataRecord();
        PrintFields(rs[i]);
        PrintedSnoc(rs[..i], rs[i]);
        assert rs[..i + 1] == rs[..i] + [rs[i]];
      }
      assert rs[..|rs|] == rs;
    }

    method PrintFields(r: Record)
      modifies this
      ensures text == old(text) + RecordText(r) && first == old(first)
    {
      hide RecordText, LineText;
      assert RecordText(r[..0]) == "" by { NoFields(r); }
      for j := 0 to |r|
        invariant text == old(text) + RecordText(r[..j]) && first == old(first)
      {
        RecordTextSnoc(r[..j], r[j]);
        assert r[..j + 1] == r[..j] + [r[j]];
        DataField(r[j].key, r[j].value);
      }
      assert r[..|r|] == r;
    }
  }

  lemma NoFields(r: Record)
    ensures RecordText(r[..0]) == ""
  {
  }

  lemma {:induction false} OneLineIs(v: string, b: string)
    requires |b| == |v| && forall k :: 0 <= k < |v| ==> b[k] == (if IsLineEnd(v[k]) then ' ' else v[k])
    ensures OneLine(v) == b
  {
    if v != "" {
      OneLineIs(v[1..], b[1..]);
    }
  }

  lemma {:induction false} RecordTextSnoc(r: Record, f: Field)
    ensures RecordText(r + [f]) == RecordText(r) + (LineText(f) + "\n")
  {
    if r == [] {
      assert r + [f] == [f] && [f][1..] == [];
    } else {
      assert (r + [f])[1..] == r[1..] + [f];
      RecordTextSnoc(r[1..], f);
      assert LineText(r[0]) + "\n" + (RecordText(r[1..]) + (LineText(f) + "\n"))
        == LineText(r[0]) + "\n" + RecordText(r[1..]) + (LineText(f) + "\n");
    }
  }

  lemma {:induction false} PrintedSnoc(rs: seq<Record>, r: Record)
    ensures Printed(rs + [r]) == Printed(rs) + (if rs == [] then "" else "\n") + RecordText(r)
  {
    if rs == [] {
      assert rs + [r] == [r];
    } else {
      assert (rs + [r])[1..] == rs[1..] + [r];
      PrintedSnoc(rs[1..], r);
    }
  }

  // ---- reading ----

  function Stripped(s: string): string {
    if s != "" && IsLineEnd(s[|s| - 1]) then Stripped(s[..|s| - 1]) else s
  }

  /** What RUN$ does to the captured text. */
  method StripLineEnds(s: string) returns (r: string)
    ensures r == Stripped(s)
  {
    r := s;
    while r != "" && IsLineEnd(r[|r| - 1])
      invariant Stripped(r) == Stripped(s)
      decreases |r|
    {
      r := r[..|r| - 1];
    }
  }

  function SkipLineEnds(s: string): string {
    if s != "" && IsLineEnd(s[0]) then SkipLineEnds(s[1..]) else s
  }

  /** The first character ends a line, and no line or an empty one follows. */
  predicate EndsRecord(s: string)
    requires s != ""
  {
    s[0] == '\n' && (|s| == 1 || s[1] == '\n' || (s[1] == '\r' && |s| > 2 && s[2] == '\n'))
  }

  function RecordLength(s: string): (n: nat)
    ensures n <= |s| && (s != "" ==> n > 0)
  {
    if s == "" then 0 else if EndsRecord(s) then 1 else 1 + RecordLength(s[1..])
  }

  function Split(s: string): seq<string>
    decreases |s|
  {
    var t := SkipLineEnds(s);
    if t == "" then [] else
      SkipShortens(s);
      [t[..RecordLength(t)]] + Split(t[RecordLength(t)..])
  }

  lemma {:induction false} SkipShortens(s: string)
    ensures |SkipLineEnds(s)| <= |s|
  {
    if s != "" && IsLineEnd(s[0]) {
      SkipShortens(s[1..]);
    }
  }

  lemma RecordStep(s: string, i: nat)
    requires i < |s| && !EndsRecord(s[i..])
    ensures RecordLength(s[i..]) == 1 + RecordLength(s[i + 1..])
  {
    assert s[i..][1..] == s[i + 1..];
  }

  lemma RecordEnds(s: string, i: nat)
    requires i <= |s| && (i < |s| ==> EndsRecord(s[i..]))
    ensures RecordLength(s[i..]) == if i < |s| then 1 else 0
  {
  }

  lemma SplitStep(s: string, i: nat, start: nat, end: nat, recs: seq<string>)
    requires i <= start < end <= |s| && SkipLineEnds(s[i..]) == s[start..]
    requires RecordLength(s[start..]) == end - start
    ensures recs + Split(s[i..]) == recs + [s[start..end]] + Split(s[end..])
  {
    hide SkipLineEnds, RecordLength;
    var t := s[start..];
    assert t[..RecordLength(t)] == s[start..end] && t[RecordLength(t)..] == s[end..];
    assert recs + ([s[start..end]] + Split(s[end..])) == recs + [s[start..end]] + Split(s[end..]);
  }

  /** RECORDS. */
  method SplitRecords(s: string) returns (recs: seq<string>)
    ensures recs == Split(s)
  {
    recs := [];
    var i := 0;
    assert s[0..] == s;
    while i < |s|
      invariant i <= |s| && recs + Split(s[i..]) == Split(s)
    {
      ghost var i0 := i;
      while i < |s| && IsLineEnd(s[i])
        invariant i0 <= i <= |s| && SkipLineEnds(s[i..]) == SkipLineEnds(s[i0..])
      {
        assert s[i..][1..] == s[i + 1..];
        i := i + 1;
      }
      if i >= |s| {
        assert s[i..] == "";
        break;
      }
      var start := i;
      ghost var t := s[start..];
      assert SkipLineEnds(s[i0..]) == t;
      hide RecordLength, Split, SkipLineEnds;
      while i < |s| && !(s[i] == '\n' && (i + 1 >= |s| || s[i + 1] == '\n' || (s[i + 1] == '\r' && i + 2 < |s| && s[i + 2] == '\n')))
        invariant start <= i <= |s| && RecordLength(t) == i - start + RecordLength(s[i..])
      {
        RecordStep(s, i);
        i := i + 1;
      }
      var end := if i < |s| then i + 1 else |s|;
      RecordEnds(s, i);
      SplitStep(s, i0, start, end, recs);
      recs := recs + [s[start..end]];
      i := end;
    }
    assert s[i..] == "";
  }

  function LineLength(s: string): (n: nat)
    ensures n <= |s| && '\n' !in s[..n] && (n < |s| ==> s[n] == '\n')
  {
    if s == "" || s[0] == '\n' then 0 else
      var n := LineLength(s[1..]);
      assert s[..n + 1] == [s[0]] + s[1..][..n];
      n + 1
  }

  predicate LineMatches(line: string, key: string) {
    |line| > |key| && line[|key|] == '=' && SameText(line[..|key|], key)
  }

  /** What follows the equals sign, without a carriage return at the end. */
  function LineValue(line: string, key: string): string
    requires LineMatches(line, key)
  {
    var v := line[|key| + 1..];
    if v != "" && v[|v| - 1] == '\r' then v[..|v| - 1] else v
  }

  /** The value of the first line with that key. */
  function Lookup(s: string, key: string): Option<string>
    decreases |s|
  {
    if s == "" then None
    else
      var n := LineLength(s);
      if LineMatches(s[..n], key) then Some(LineValue(s[..n], key))
      else if n == |s| then None
      else Lookup(s[n + 1..], key)
  }

  /** FIELD$; None stands for an empty result with ERR = 1. */
  method FindField(s: string, key: string) returns (v: Option<string>)
    ensures v == Lookup(s, key)
  {
    hide LineMatches, LineValue, LineLength;
    var at := 0;
    v := None;
    assert s[0..] == s;
    while at < |s|
      invariant at <= |s| && Lookup(s[at..], key) == Lookup(s, key) && v == None
    {
      var line := s[at..];
      var ll := LineLength(line);
      if LineMatches(line[..ll], key) {
        return Some(LineValue(line[..ll], key));
      }
      if ll == |line| {
        return None;
      }
      assert line[ll + 1..] == s[at + ll + 1..];
      at := at + ll + 1;
    }
    assert s[at..] == "";
  }

  // ---- the round trip ----

  predicate KeyOk(k: string) {
    forall i :: 0 <= i < |k| ==> k[i] != '=' && !IsLineEnd(k[i])
  }

  /** Records with fields, and keys that are distinct in more than case. */
  predicate RecordOk(r: Record) {
    && r != []
    && (forall j :: 0 <= j < |r| ==> KeyOk(r[j].key))
    && (forall i, j :: 0 <= i < j < |r| ==> !SameText(r[i].key, r[j].key))
  }

  predicate RecordsOk(rs: seq<Record>) {
    forall i :: 0 <= i < |rs| ==> RecordOk(rs[i])
  }

  /** A line holds at least one character and no line end. */
  predicate IsLine(s: string) {
    s != "" && forall i :: 0 <= i < |s| ==> !IsLineEnd(s[i])
  }

  lemma LineTextIsLine(f: Field)
    requires KeyOk(f.key)
    ensures IsLine(LineText(f))
  {
  }

  predicate KeysOk(r: Record) {
    forall j :: 0 <= j < |r| ==> KeyOk(r[j].key)
  }

  /** Text without the line end it ends with. */
  function Cut(s: string): string {
    if s == "" then "" else s[..|s| - 1]
  }

  lemma {:induction false} LengthThroughLine(l: string, s: string)
    requires forall i :: 0 <= i < |l| ==> !IsLineEnd(l[i])
    ensures RecordLength(l + s) == |l| + RecordLength(s)
  {
    if l == "" {
      assert l + s == s;
    } else {
      assert (l + s)[1..] == l[1..] + s;
      LengthThroughLine(l[1..], s);
    }
  }

  /** A record ends where an empty line follows it. */
  lemma {:induction false} LengthOfRecord(r: Record, s: string)
    requires r != [] && KeysOk(r)
    ensures RecordLength(RecordText(r) + ("\n" + s)) == |RecordText(r)|
    decreases |r|
  {
    var l, rest := LineText(r[0]), RecordText(r[1..]);
    var u := "\n" + s;
    LineTextIsLine(r[0]);
    assert RecordText(r) + u == l + ("\n" + (rest + u));
    LengthThroughLine(l, "\n" + (rest + u));
    var t := "\n" + (rest + u);
    assert t[1..] == rest + u;
    if |r| == 1 {
      assert rest == "" && t[1] == '\n';
    } else {
      StartsWithKey(r[1..]);
      assert t[1] == rest[0];
      LengthOfRecord(r[1..], s);
    }
  }

  lemma StartsWithKey(r: Record)
    requires r != [] && KeysOk(r)
    ensures RecordText(r) != "" && !IsLineEnd(RecordText(r)[0]) && RecordText(r)[|RecordText(r)| - 1] == '\n'
    decreases |r|
  {
    LineTextIsLine(r[0]);
    if |r| > 1 {
      StartsWithKey(r[1..]);
    }
  }

  /** The last record has lost its line end and goes up to the end of the text. */
  lemma {:induction false} LengthOfLast(r: Record)
    requires r != [] && KeysOk(r)
    ensures RecordLength(Cut(RecordText(r))) == |Cut(RecordText(r))|
    ensures Cut(RecordText(r)) != "" && !IsLineEnd(Cut(RecordText(r))[0])
    ensures !IsLineEnd(Cut(RecordText(r))[|Cut(RecordText(r))| - 1])
    decreases |r|
  {
    var l, rest := LineText(r[0]), RecordText(r[1..]);
    LineTextIsLine(r[0]);
    if |r| == 1 {
      assert Cut(RecordText(r)) == l && l + "" == l;
      LengthThroughLine(l, "");
    } else {
      LengthOfLast(r[1..]);
      var t := "\n" + Cut(rest);
      assert Cut(RecordText(r)) == l + t;
      LengthThroughLine(l, t);
      assert t[1..] == Cut(rest);
    }
  }

  lemma {:induction false} StripKeeps(a: string, b: string)
    requires b != "" && !IsLineEnd(b[|b| - 1])
    ensures Stripped(a + b + "\n") == a + b
  {
    var s := a + b + "\n";
    assert s[..|s| - 1] == a + b;
  }

  /** The text RUN$ returns. */
  function RunText(rs: seq<Record>): string {
    if rs == [] then ""
    else if |rs| == 1 then Cut(RecordText(rs[0]))
    else RecordText(rs[0]) + "\n" + RunText(rs[1..])
  }

  lemma {:induction false} RunTextEnds(rs: seq<Record>)
    requires RecordsOk(rs) && rs != []
    ensures RunText(rs) != "" && !IsLineEnd(RunText(rs)[|RunText(rs)| - 1])
    ensures Printed(rs) == RunText(rs) + "\n"
    decreases |rs|
  {
    assert RecordOk(rs[0]);
    StartsWithKey(rs[0]);
    LengthOfLast(rs[0]);
    if |rs| > 1 {
      RunTextEnds(rs[1..]);
      assert RecordText(rs[0]) + "\n" + (RunText(rs[1..]) + "\n") == RecordText(rs[0]) + "\n" + RunText(rs[1..]) + "\n";
    }
  }

  lemma RunTextIsStripped(rs: seq<Record>)
    requires RecordsOk(rs)
    ensures Stripped(Printed(rs)) == RunText(rs)
  {
    if rs != [] {
      RunTextEnds(rs);
      StripKeeps("", RunText(rs));
      assert "" + RunText(rs) == RunText(rs);
    }
  }

  /** The records as RECORDS returns them. */
  function Texts(rs: seq<Record>): (ts: seq<string>)
    ensures |ts| == |rs|
    ensures forall i :: 0 <= i < |rs| ==> ts[i] == RecordText(rs[i]) || ts[i] == Cut(RecordText(rs[i]))
  {
    if rs == [] then []
    else if |rs| == 1 then [Cut(RecordText(rs[0]))]
    else [RecordText(rs[0])] + Texts(rs[1..])
  }

  lemma {:induction false} SplitRunText(rs: seq<Record>)
    requires RecordsOk(rs)
    ensures Split(RunText(rs)) == Texts(rs)
    decreases |rs|
  {
    if rs != [] {
      var r := rs[0];
      assert RecordOk(r) && KeysOk(r);
      if |rs| == 1 {
        LengthOfLast(r);
        var t := Cut(RecordText(r));
        assert SkipLineEnds(t) == t && t[|t|..] == "" && t[..|t|] == t;
      } else {
        SplitRunText(rs[1..]);
        StartsWithKey(r);
        var b, x := RecordText(r), RunText(rs[1..]);
        LengthOfRecord(r, x);
        var t := b + ("\n" + x);
        assert RunText(rs) == t;
        assert SkipLineEnds(t) == t && t[..|b|] == b && t[|b|..] == "\n" + x;
        assert ("\n" + x)[1..] == x;
        assert Split("\n" + x) == Split(x);
      }
    }
  }

  // ---- finding a field ----

  lemma {:induction false} LineLengthOf(l: string, s: string)
    requires '\n' !in l
    ensures LineLength(l + ("\n" + s)) == |l|
  {
    if l == "" {
      assert l + ("\n" + s) == "\n" + s;
    } else {
      assert (l + ("\n" + s))[1..] == l[1..] + ("\n" + s);
      assert forall i :: 0 <= i < |l| - 1 ==> l[1..][i] == l[i + 1];
      LineLengthOf(l[1..], s);
    }
  }

  /** A line has the key it was printed with, and no other. */
  lemma LineHasKey(f: Field, key: string)
    requires KeyOk(f.key) && KeyOk(key)
    ensures LineMatches(LineText(f), key) <==> SameText(f.key, key)
    ensures SameText(f.key, key) ==> LineValue(LineText(f), key) == OneLine(f.value)
  {
    var l := LineText(f);
    var k, n := |f.key|, |key|;
    assert l[k] == '=' && l[..k] == f.key && l[k + 1..] == OneLine(f.value);
    if n < k {
      assert l[n] == f.key[n];
    } else if k < n <= |l| {
      assert Lower(l[..n][k]) != Lower(key[k]);
    }
  }

  /** The value of the first field with that key, on one line. */
  function Find(r: Record, key: string): Option<string> {
    if r == [] then None
    else if SameText(r[0].key, key) then Some(OneLine(r[0].value))
    else Find(r[1..], key)
  }

  lemma {:induction false} LookupIsFind(r: Record, key: string)
    requires KeysOk(r) && KeyOk(key)
    ensures Lookup(RecordText(r), key) == Find(r, key)
    decreases |r|
  {
    hide LineMatches, LineValue, OneLine, SameText, Lookup;
    if r == [] {
      LookupLastLine("", key);
    } else {
      var l, rest := LineText(r[0]), RecordText(r[1..]);
      LineTextIsLine(r[0]);
      assert RecordText(r) == l + ("\n" + rest);
      LookupFirstLine(l, rest, key);
      LineHasKey(r[0], key);
      LookupIsFind(r[1..], key);
    }
  }

  lemma {:induction false} FindsEach(r: Record, j: nat)
    requires j < |r| && forall i :: 0 <= i < j ==> !SameText(r[i].key, r[j].key)
    ensures Find(r, r[j].key) == Some(OneLine(r[j].value))
    decreases |r|
  {
    SameTextIsEquivalence(r[0].key, r[0].key, r[0].key);
    if j > 0 {
      assert forall i :: 0 <= i < j - 1 ==> r[1..][i] == r[i + 1];
      FindsEach(r[1..], j - 1);
    }
  }

  lemma {:induction false} FindsNoOther(r: Record, key: string)
    requires forall j :: 0 <= j < |r| ==> !SameText(r[j].key, key)
    ensures Find(r, key) == None
    decreases |r|
  {
    if r != [] {
      assert forall i :: 0 <= i < |r| - 1 ==> r[1..][i] == r[i + 1];
      FindsNoOther(r[1..], key);
    }
  }

  /** A line end at the end of the text makes no difference. */
  lemma {:induction false} LookupCut(s: string, key: string)
    ensures Lookup(s + "\n", key) == Lookup(s, key)
    decreases |s|
  {
    hide LineMatches, LineValue, Lookup;
    var n := LineLength(s);
    var l := s[..n];
    if n == |s| {
      assert l == s && s + "\n" == l + ("\n" + "");
      LookupFirstLine(l, "", key);
      LookupLastLine(l, key);
    } else {
      var rest := s[n + 1..];
      assert s == l + ("\n" + rest) && s + "\n" == l + ("\n" + (rest + "\n"));
      LookupFirstLine(l, rest, key);
      LookupFirstLine(l, rest + "\n", key);
      LookupCut(rest, key);
    }
  }

  lemma LookupFirstLine(l: string, rest: string, key: string)
    requires '\n' !in l
    ensures Lookup(l + ("\n" + rest), key) == if LineMatches(l, key) then Some(LineValue(l, key)) else Lookup(rest, key)
  {
    hide LineMatches, LineValue, LineLength;
    var s := l + ("\n" + rest);
    LineLengthOf(l, rest);
    assert s[..|l|] == l && s[|l| + 1..] == rest;
  }

  lemma LookupLastLine(l: string, key: string)
    requires LineLength(l) == |l|
    ensures Lookup(l, key) == if LineMatches(l, key) then Some(LineValue(l, key)) else None
    ensures Lookup("", key) == None
  {
    assert l[..|l|] == l;
  }

  /** What is printed with "-data", captured by RUN$ and split by RECORDS gives the records back:
      FIELD$ finds every value, on one line, and no value for any other key. */
  lemma RecordsRoundTrip(rs: seq<Record>)
    requires RecordsOk(rs)
    ensures var got := Split(Stripped(Printed(rs)));
      && |got| == |rs|
      && (forall i, j :: 0 <= i < |rs| && 0 <= j < |rs[i]| ==> Lookup(got[i], rs[i][j].key) == Some(OneLine(rs[i][j].value)))
      && (forall i, key :: 0 <= i < |rs| && KeyOk(key) && (forall j :: 0 <= j < |rs[i]| ==> !SameText(rs[i][j].key, key)) ==>
            Lookup(got[i], key) == None)
  {
    hide Split, Stripped, Printed, Lookup, RecordText, OneLine, Find;
    var got := Split(Stripped(Printed(rs)));
    RunTextIsStripped(rs);
    SplitRunText(rs);
    forall i, key | 0 <= i < |rs| && KeyOk(key) ensures Lookup(got[i], key) == Find(rs[i], key) {
      assert RecordOk(rs[i]);
      OneRecord(rs[i], got[i], key);
    }
    forall i, j | 0 <= i < |rs| && 0 <= j < |rs[i]| ensures Lookup(got[i], rs[i][j].key) == Some(OneLine(rs[i][j].value)) {
      assert RecordOk(rs[i]);
      FindsEach(rs[i], j);
    }
    forall i, key | 0 <= i < |rs| && KeyOk(key) && (forall j :: 0 <= j < |rs[i]| ==> !SameText(rs[i][j].key, key))
      ensures Lookup(got[i], key) == None
    {
      FindsNoOther(rs[i], key);
    }
  }

  lemma OneRecord(r: Record, s: string, key: string)
    requires r != [] && KeysOk(r) && KeyOk(key) && (s == RecordText(r) || s == Cut(RecordText(r)))
    ensures Lookup(s, key) == Find(r, key)
  {
    hide Lookup, Find, RecordText;
    StartsWithKey(r);
    var t := RecordText(r);
    LookupCut(Cut(t), key);
    assert Cut(t) + "\n" == t;
    LookupIsFind(r, key);
  }
}
