/** What a path means, piece by piece: both slashes separate, "" and "." stay, ".." goes up, anything
    else goes down. */
module PathLaws {
  import opened Ascii
  import opened Optional
  import opened Paths
  import opened PathText

  // ---- texts of paths ----

  /** A piece of a path: no slash, no backslash, no colon. */
  predicate Piece(s: string) {
    forall i :: 0 <= i < |s| ==> s[i] != '\\' && s[i] != '/' && s[i] != ':'
  }

  /** Pieces, and the separators between them. */
  predicate Pieces(ps: seq<string>, seps: seq<char>) {
    && ps != [] && |seps| == |ps| - 1 && (forall i :: 0 <= i < |ps| ==> Piece(ps[i]))
    && forall i :: 0 <= i < |seps| ==> seps[i] == '\\' || seps[i] == '/'
  }

  function Written(ps: seq<string>, seps: seq<char>): string
    requires ps != [] && |seps| == |ps| - 1
  {
    if |ps| == 1 then ps[0] else ps[0] + ([seps[0]] + Written(ps[1..], seps[1..]))
  }

  /** Where one piece leads from the directory cs; above the root there is nothing. */
  function Go(cs: seq<string>, p: string): seq<string> {
    if p == "" || p == "." then cs
    else if p == ".." then (if cs == [] then [] else cs[..|cs| - 1])
    else cs + [p]
  }

  function Walk(cs: seq<string>, ps: seq<string>): seq<string>
    decreases |ps|
  {
    if ps == [] then cs else Walk(Go(cs, ps[0]), ps[1..])
  }

  /** A directory as it is written: the volume, a colon, and the names behind backslashes. */
  function Full(volume: string, cs: seq<string>): string {
    volume + ":" + (if cs == [] then "\\" else Slashed(cs))
  }

  function Slashed(cs: seq<string>): string {
    if cs == [] then "" else "\\" + cs[0] + Slashed(cs[1..])
  }

  lemma {:induction false} SlashedIsBelow(cs: seq<string>)
    ensures Slashed(cs) == Below(cs)
  {
    if cs != [] {
      SlashedIsBelow(cs[1..]);
    }
  }

  lemma FullIsCanon(volume: string, cs: seq<string>)
    ensures Full(volume, cs) == Canon(volume, cs)
  {
    SlashedIsBelow(cs);
  }

  // ---- walking ----

  lemma PartsOfPiece(p: string)
    requires Piece(p)
    ensures Parts(p, "") == if p == "" then [] else [p]
  {
    PartsOfName(p, "", "");
    assert p + "" == p && "" + p == p;
  }

  lemma PartsOfFirst(p: string, sep: char, rest: string)
    requires Piece(p) && (sep == '\\' || sep == '/')
    ensures Parts(p + ([sep] + rest), "") == (if p == "" then [] else [p]) + Parts(rest, "")
  {
    PartsOfName(p, [sep] + rest, "");
    assert "" + p == p && ([sep] + rest)[0] == sep && ([sep] + rest)[1..] == rest;
  }

  lemma {:induction false} PartsWalk(cs: seq<string>, ps: seq<string>, seps: seq<char>)
    requires Pieces(ps, seps)
    ensures PushAll(cs, Parts(Written(ps, seps), "")) == Walk(cs, ps)
    decreases |ps|
  {
    hide Parts;
    var p := ps[0];
    assert Piece(p);
    if |ps| == 1 {
      PartsOfPiece(p);
      assert ps[1..] == [] && [p][1..] == [];
    } else {
      var rest := Written(ps[1..], seps[1..]);
      PartsOfFirst(p, seps[0], rest);
      PartsWalk(Go(cs, p), ps[1..], seps[1..]);
      var first := if p == "" then [] else [p];
      PushAllConcat(cs, first, Parts(rest, ""));
      PushOne(cs, p);
    }
  }

  lemma PushOne(cs: seq<string>, p: string)
    ensures PushAll(cs, if p == "" then [] else [p]) == Go(cs, p)
  {
    assert [p][1..] == [];
  }

  lemma {:induction false} NoColon(ps: seq<string>, seps: seq<char>)
    requires Pieces(ps, seps)
    ensures ':' !in Written(ps, seps)
    decreases |ps|
  {
    assert Piece(ps[0]);
    if |ps| > 1 {
      NoColon(ps[1..], seps[1..]);
    }
  }

  /** Where the text begins decides where the walk begins. */
  lemma FirstPiece(ps: seq<string>, seps: seq<char>)
    requires Pieces(ps, seps)
    ensures Written(ps, seps) != "" && IsSep(Written(ps, seps)[0]) <==> |ps| > 1 && ps[0] == ""
  {
    assert Piece(ps[0]);
  }

  /** A path without volume is walked from the current directory, or from its root if it begins with a separator. */
  lemma Walked(vols: seq<string>, aliases: seq<Alias>, v: nat, cs: seq<string>, ps: seq<string>, seps: seq<char>)
    requires VolumesOk(vols) && v < |vols| && AllNames(cs) && Pieces(ps, seps)
    ensures Resolve(vols, aliases, Full(vols[v], cs), Written(ps, seps)) ==
      Some(Full(vols[v], Walk(if |ps| > 1 && ps[0] == "" then [] else cs, ps)))
  {
    hide Parts, PushAll, Below, Colon, SepAt, VolumeOf, HasVolume, Canon, AllNames, Full, Written, Walk;
    var t := Written(ps, seps);
    var cwd := Full(vols[v], cs);
    FullIsCanon(vols[v], cs);
    CanonParts(vols[v], cs);
    OwnName(vols, aliases, v);
    NoColon(ps, seps);
    NoVolumeIn(t);
    FirstPiece(ps, seps);
    if |ps| > 1 && ps[0] == "" {
      PartsWalk([], ps, seps);
      FullIsCanon(vols[v], Walk([], ps));
    } else {
      PartsConcat(Tail(cs), t, "");
      PushAllConcat([], cs, Parts(t, ""));
      NamesPushed(cs);
      PartsWalk(cs, ps, seps);
      FullIsCanon(vols[v], Walk(cs, ps));
    }
  }

  lemma NamesPushed(cs: seq<string>)
    requires AllNames(cs)
    ensures PushAll([], cs) == cs
  {
    PushNames([], cs);
    assert [] + cs == cs;
  }

  /** A path with a volume is walked from the root of that volume. */
  lemma WalkedOn(vols: seq<string>, aliases: seq<Alias>, cwd: string, w: nat, ps: seq<string>, seps: seq<char>)
    requires VolumesOk(vols) && w < |vols| && Pieces(ps, seps)
    ensures Resolve(vols, aliases, cwd, vols[w] + ":" + Written(ps, seps)) == Some(Full(vols[w], Walk([], ps)))
  {
    hide Parts, PushAll, Below, Colon, SepAt, VolumeOf, HasVolume, Canon, Full, Written, Walk;
    var t := Written(ps, seps);
    OwnName(vols, aliases, w);
    VolumeGiven(vols[w], t);
    OneSlash(t);
    PartsWalk([], ps, seps);
    FullIsCanon(vols[w], Walk([], ps));
  }

  lemma VolumeGiven(vol: string, t: string)
    requires PlainName(vol)
    ensures var j := vol + ":" + t;
      Colon(j) == |vol| && HasVolume(j) && j[..Colon(j)] == vol && j[Colon(j) + 1..] == t
  {
    var j := vol + ":" + t;
    var n := |vol|;
    assert j[n] == ':' && j[..n] == vol && j[n + 1..] == t;
    assert forall i :: 0 <= i < n ==> j[i] == vol[i];
    ColonIs(j, n);
  }

  /** Without a current directory a path without volume leads nowhere. */
  lemma NoDirectory(vols: seq<string>, aliases: seq<Alias>, cwd: string, p: string)
    requires ':' !in cwd && ':' !in p
    ensures Resolve(vols, aliases, cwd, p) == None
  {
    NoVolumeIn(p);
    assert cwd[..Colon(cwd)] <= cwd;
  }

  // ---- volumes ----

  /** A name means the volume that has it, whatever the case of its letters and whatever the aliases. */
  lemma VolumeLaw(vols: seq<string>, aliases: seq<Alias>, name: string, i: nat)
    requires VolumesOk(vols) && i < |vols| && SameText(vols[i], name)
    ensures VolumeOf(vols, aliases, name) == Some(i)
  {
    OneVolume(vols, name, i);
  }

  /** Else it means the volume of the first alias of that name whose volume exists. */
  lemma AliasLaw(vols: seq<string>, aliases: seq<Alias>, name: string, k: nat, i: nat)
    requires VolumesOk(vols) && forall j :: 0 <= j < |vols| ==> !SameText(vols[j], name)
    requires k < |aliases| && SameText(aliases[k].name, name) && i < |vols| && SameText(vols[i], aliases[k].volume)
    requires forall m :: 0 <= m < k ==> Useless(vols, aliases[m], name)
    ensures VolumeOf(vols, aliases, name) == Some(i)
  {
    hide SameText, VolumesOk;
    RealVolumeFound(vols, name, 0);
    OneVolume(vols, aliases[k].volume, i);
    FirstAlias(vols, aliases, name, k);
  }

  /** Without such an alias it means nothing. */
  lemma NoVolumeLaw(vols: seq<string>, aliases: seq<Alias>, name: string)
    requires forall j :: 0 <= j < |vols| ==> !SameText(vols[j], name)
    requires forall m :: 0 <= m < |aliases| ==> Useless(vols, aliases[m], name)
    ensures VolumeOf(vols, aliases, name) == None
  {
    hide SameText;
    RealVolumeFound(vols, name, 0);
    NoAlias(vols, aliases, name);
  }

  /** An alias with another name, or for a volume that does not exist. */
  ghost predicate Useless(vols: seq<string>, a: Alias, name: string) {
    !SameText(a.name, name) || forall j :: 0 <= j < |vols| ==> !SameText(vols[j], a.volume)
  }

  lemma OneVolume(vols: seq<string>, name: string, i: nat)
    requires VolumesOk(vols) && i < |vols| && SameText(vols[i], name)
    ensures RealVolume(vols, name, 0) == Some(i)
  {
    RealVolumeFound(vols, name, 0);
    var r := RealVolume(vols, name, 0).value;
    SameTextIsEquivalence(vols[r], name, vols[i]);
    SameTextIsEquivalence(vols[i], name, vols[r]);
    if r != i {
      Differ(vols, r, i);
    }
  }

  lemma {:induction false} FirstAlias(vols: seq<string>, aliases: seq<Alias>, name: string, k: nat)
    requires k < |aliases| && SameText(aliases[k].name, name) && RealVolume(vols, aliases[k].volume, 0).Some?
    requires forall m :: 0 <= m < k ==> Useless(vols, aliases[m], name)
    ensures AliasedVolume(vols, aliases, name) == RealVolume(vols, aliases[k].volume, 0)
    decreases k
  {
    hide SameText;
    if k > 0 {
      assert Useless(vols, aliases[0], name);
      RealVolumeFound(vols, aliases[0].volume, 0);
      FirstAlias(vols, aliases[1..], name, k - 1);
    }
  }

  lemma {:induction false} NoAlias(vols: seq<string>, aliases: seq<Alias>, name: string)
    requires forall m :: 0 <= m < |aliases| ==> Useless(vols, aliases[m], name)
    ensures AliasedVolume(vols, aliases, name) == None
    decreases |aliases|
  {
    hide SameText;
    if aliases != [] {
      assert Useless(vols, aliases[0], name);
      RealVolumeFound(vols, aliases[0].volume, 0);
      NoAlias(vols, aliases[1..], name);
    }
  }

  /** ../c/./d from the directory \a\b of the volume fs0. */
  lemma UpAndDown(aliases: seq<Alias>)
    ensures Resolve(["fs0"], aliases, "fs0:\\a\\b", "../c/./d") == Some("fs0:\\a\\c\\d")
  {
    var ps, seps := ["..", "c", ".", "d"], "///";
    var cs, r := ["a", "b"], ["a", "c", "d"];
    assert cs[1..] == ["b"] && ["b"][1..] == [] && r[1..] == ["c", "d"] && ["c", "d"][1..] == ["d"] && ["d"][1..] == [];
    assert Full("fs0", cs) == "fs0:\\a\\b" && Full("fs0", r) == "fs0:\\a\\c\\d";
    assert ps[1..] == ["c", ".", "d"] && ps[1..][1..] == [".", "d"] && ps[1..][1..][1..] == ["d"] && ps[1..][1..][1..][1..] == [];
    assert seps[1..] == "//" && seps[1..][1..] == "/" && seps[1..][1..][1..] == "";
    assert Written(ps, seps) == "../c/./d";
    assert Go(cs, "..") == ["a"] && Go(["a"], "c") == ["a", "c"] && Go(["a", "c"], "d") == r;
    assert Walk(cs, ps) == r;
    Walked(["fs0"], aliases, 0, cs, ps, seps);
  }
}
