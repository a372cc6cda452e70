/** Normal forms as text: directories, "..", and the test whether one path lies inside another. */
module PathText {
  import opened Ascii
  import opened Optional
  import opened Paths

  // ---- the directory of a path ----

  /** The position of the last backslash, or the length. */
  function LastSlash(s: string): (n: nat)
    ensures n <= |s| && (n < |s| ==> s[n] == '\\') && (forall i :: n < i < |s| ==> s[i] != '\\')
    ensures n == |s| ==> '\\' !in s
  {
    if s == "" then 0
    else
      var t := s[..|s| - 1];
      assert s == t + [s[|s| - 1]];
      if s[|s| - 1] == '\\' then |s| - 1
      else
        var n := LastSlash(t);
        if n == |t| then |s| else n
  }

  function Dirname(s: string): string {
    var b := LastSlash(s);
    if b == |s| then s
    else if Colon(s) < |s| && b == Colon(s) + 1 then s[..b + 1]
    else s[..b]
  }

  lemma {:induction false} BelowSnoc(cs: seq<string>, c: string)
    ensures Below(cs + [c]) == Below(cs) + "\\" + c
  {
    if cs == [] {
      assert cs + [c] == [c] && [c][1..] == [];
      assert "\\" + c + "" == "\\" + c;
    } else {
      assert (cs + [c])[1..] == cs[1..] + [c];
      BelowSnoc(cs[1..], c);
      assert "\\" + cs[0] + (Below(cs[1..]) + "\\" + c) == "\\" + cs[0] + Below(cs[1..]) + "\\" + c;
    }
  }

  lemma LastSlashIs(s: string, n: nat)
    requires n < |s| && s[n] == '\\' && forall i :: n < i < |s| ==> s[i] != '\\'
    ensures LastSlash(s) == n
  {
  }

  /** The directory of a normal form has one name less, and a root is its own directory. */
  lemma DirnameDropsLast(volume: string, cs: seq<string>)
    requires PlainName(volume) && AllNames(cs)
    ensures Dirname(Canon(volume, cs)) == Canon(volume, if cs == [] then [] else cs[..|cs| - 1])
  {
    hide Parts, Colon, SepAt, LastSlash, HasVolume, Below;
    var s := Canon(volume, cs);
    CanonParts(volume, cs);
    if cs == [] {
      LastSlashIs(s, |volume| + 1);
      assert s[..|s|] == s;
    } else {
      var up, c := cs[..|cs| - 1], cs[|cs| - 1];
      assert cs == up + [c] && IsName(c);
      BelowSnoc(up, c);
      BelowEmpty(up);
      var t := volume + ":" + Below(up);
      CanonSnoc(volume, up, c);
      LastSlashIs(s, |t|);
      assert s[..|t|] == t;
      if up == [] {
        assert s[..|t| + 1] == volume + ":" + "\\";
      }
    }
  }

  lemma BelowEmpty(cs: seq<string>)
    ensures Below(cs) == "" <==> cs == []
  {
  }

  lemma CanonSnoc(volume: string, up: seq<string>, c: string)
    ensures Canon(volume, up + [c]) == volume + ":" + Below(up) + "\\" + c
  {
    BelowSnoc(up, c);
    assert volume + ":" + (Below(up) + "\\" + c) == volume + ":" + Below(up) + "\\" + c;
  }

  /** ".." is the directory of the current directory. */
  lemma UpIsDirname(vols: seq<string>, aliases: seq<Alias>, cwd: string)
    requires VolumesOk(vols) && Normal(vols, cwd)
    ensures Resolve(vols, aliases, cwd, "..") == Some(Dirname(cwd))
  {
    hide Parts, PushAll, Colon, SepAt, HasVolume, Canon, Dirname, VolumeOf, AllNames;
    var v: nat, cs :| IsNormal(vols, cwd, v, cs);
    CanonParts(vols[v], cs);
    OwnName(vols, aliases, v);
    NoVolumeIn("..");
    PartsConcat(Tail(cs), "..", "");
    DotDot(cs);
    PushAllConcat([], cs, [".."]);
    PushNames([], cs);
    assert [] + cs == cs;
    DirnameDropsLast(vols[v], cs);
  }

  lemma DotDot(cs: seq<string>)
    ensures Parts("..", "") == [".."]
    ensures PushAll(cs, [".."]) == if cs == [] then [] else cs[..|cs| - 1]
  {
    assert ".."[1..] == "." && "."[1..] == "" && "" + ['.'] == "." && "." + ['.'] == "..";
    assert [".."][1..] == [];
  }

  lemma {:induction false} NoVolumeIn(s: string)
    requires ':' !in s
    ensures !HasVolume(s)
  {
  }

  // ---- inside ----

  /** The test mv and cp use: the same text without regard to case, up to the end of a component. */
  predicate InsideText(parent: string, child: string)
    requires parent != ""
  {
    && |parent| <= |child| && SameText(parent, child[..|parent|])
    && (|child| == |parent| || child[|parent|] == '\\' || parent[|parent| - 1] == '\\')
  }

  function Fold(s: string): (r: string)
    ensures |r| == |s| && forall i :: 0 <= i < |s| ==> r[i] == Lower(s[i])
  {
    seq(|s|, i requires 0 <= i < |s| => Lower(s[i]))
  }

  function FoldAll(cs: seq<string>): (r: seq<string>)
    ensures |r| == |cs| && forall i :: 0 <= i < |cs| ==> r[i] == Fold(cs[i])
  {
    seq(|cs|, i requires 0 <= i < |cs| => Fold(cs[i]))
  }

  lemma {:induction false} FoldBelow(cs: seq<string>)
    ensures Fold(Below(cs)) == Below(FoldAll(cs))
  {
    if cs != [] {
      FoldBelow(cs[1..]);
      assert FoldAll(cs)[1..] == FoldAll(cs[1..]);
      assert Fold(Below(cs)) == "\\" + Fold(cs[0]) + Fold(Below(cs[1..]));
    }
  }

  lemma FoldCanon(volume: string, cs: seq<string>)
    ensures Fold(Canon(volume, cs)) == Canon(Fold(volume), FoldAll(cs))
  {
    FoldBelow(cs);
    assert Fold(volume + ":" + Tail(cs)) == Fold(volume) + ":" + Fold(Tail(cs));
    assert Fold("\\") == "\\";
  }

  lemma FoldNames(volume: string, cs: seq<string>)
    requires PlainName(volume) && AllNames(cs)
    ensures PlainName(Fold(volume)) && AllNames(FoldAll(cs))
  {
    forall i | 0 <= i < |cs| ensures IsName(FoldAll(cs)[i]) {
      var c, d := cs[i], Fold(cs[i]);
      assert IsName(c);
      assert d == "." ==> c == ".";
      assert d == ".." ==> c == "..";
    }
  }

  /** Prefixes of normal forms that end with a component, in a file system that knows no case. */
  lemma PrefixIsNames(v: string, a: seq<string>, w: string, b: seq<string>)
    requires PlainName(v) && PlainName(w) && AllNames(a) && AllNames(b)
    ensures var p, c := Canon(v, a), Canon(w, b);
      (p <= c && (|c| == |p| || c[|p|] == '\\' || p[|p| - 1] == '\\')) <==> v == w && a <= b
  {
    var p, c := Canon(v, a), Canon(w, b);
    CanonParts(v, a);
    CanonParts(w, b);
    if p <= c && (|c| == |p| || c[|p|] == '\\' || p[|p| - 1] == '\\') {
      SameStart(v, a, w, b);
    }
    if v == w && a <= b {
      SubPath(v, a, b);
    }
  }

  lemma SameColon(p: string, c: string, v: string)
    requires p <= c && |v| < |p| && p[|v|] == ':' && p[..|v|] == v && PlainName(v)
    ensures Colon(c) == |v| && c[..|v|] == v && c[|v| + 1..] == p[|v| + 1..] + c[|p|..]
  {
    assert forall i :: 0 <= i < |v| ==> c[i] == p[i] == v[i];
    ColonIs(c, |v|);
  }

  lemma EndsWith(v: string, a: seq<string>)
    requires AllNames(a) && a != []
    ensures var p := Canon(v, a); p != "" && p[|p| - 1] != '\\'
  {
    BelowEnds(a);
    var p := Canon(v, a);
    assert p[|p| - 1] == Below(a)[|Below(a)| - 1];
  }

  lemma SameStart(v: string, a: seq<string>, w: string, b: seq<string>)
    requires PlainName(v) && PlainName(w) && AllNames(a) && AllNames(b)
    requires var p, c := Canon(v, a), Canon(w, b);
      p <= c && (|c| == |p| || c[|p|] == '\\' || p[|p| - 1] == '\\')
    ensures v == w && a <= b
  {
    hide Parts, Colon, SepAt, HasVolume, Canon, Tail, Below, AllNames;
    var p, c := Canon(v, a), Canon(w, b);
    CanonParts(v, a);
    CanonParts(w, b);
    SameColon(p, c, v);
    var rest := c[|p|..];
    assert Tail(b) == Tail(a) + rest;
    if a != [] { EndsWith(v, a); }
    if rest == "" {
      assert Tail(b) == Tail(a);
    } else if a == [] {
      assert a <= b;
    } else {
      assert rest[0] == '\\' && rest == "\\" + rest[1..];
      assert Tail(b) == Tail(a) + "\\" + rest[1..];
      PartsConcat(Tail(a), rest[1..], "");
    }
  }

  lemma {:induction false} BelowConcat(a: seq<string>, b: seq<string>)
    ensures Below(a + b) == Below(a) + Below(b)
  {
    if a == [] {
      assert a + b == b;
      assert "" + Below(b) == Below(b);
    } else {
      assert (a + b)[1..] == a[1..] + b;
      BelowConcat(a[1..], b);
      assert "\\" + a[0] + (Below(a[1..]) + Below(b)) == "\\" + a[0] + Below(a[1..]) + Below(b);
    }
  }

  lemma BelowStarts(d: seq<string>)
    ensures Below(d) == "" || Below(d)[0] == '\\'
  {
  }

  lemma SubPath(v: string, a: seq<string>, b: seq<string>)
    requires a <= b
    ensures var p, c := Canon(v, a), Canon(v, b);
      p <= c && (|c| == |p| || c[|p|] == '\\' || p[|p| - 1] == '\\')
  {
    var p, c := Canon(v, a), Canon(v, b);
    hide Below;
    var d := b[|a|..];
    assert b == a + d;
    BelowStarts(b);
    BelowEmpty(b);
    if a == [] {
      assert p[|p| - 1] == '\\';
      assert c == p + Tail(b)[1..];
    } else {
      BelowConcat(a, d);
      BelowStarts(d);
      assert c == p + Below(d);
    }
  }

  /** On normal forms the test means: the same volume, and the names of the parent come first. */
  lemma InsideIsPrefix(v: string, a: seq<string>, w: string, b: seq<string>)
    requires PlainName(v) && PlainName(w) && AllNames(a) && AllNames(b)
    ensures InsideText(Canon(v, a), Canon(w, b)) <==> Fold(v) == Fold(w) && FoldAll(a) <= FoldAll(b)
  {
    var p, c := Canon(v, a), Canon(w, b);
    FoldCanon(v, a);
    FoldCanon(w, b);
    FoldNames(v, a);
    FoldNames(w, b);
    PrefixIsNames(Fold(v), FoldAll(a), Fold(w), FoldAll(b));
    var fp, fc := Fold(p), Fold(c);
    assert fp <= fc <==> |p| <= |c| && SameText(p, c[..|p|]) by {
      if |p| <= |c| {
        assert fp == fc[..|p|] <==> forall i :: 0 <= i < |p| ==> fp[i] == fc[..|p|][i];
      }
    }
    assert forall x :: Lower(x) == '\\' <==> x == '\\';
  }
}
