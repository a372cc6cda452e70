/** Paths: every path is resolved to a normal form, a volume and the names below its root. */
module Paths {
  import opened Ascii
  import opened Optional

  // ---- components ----

  predicate IsSep(c: char) {
    c == '\\' || c == '/'
  }

  /** The parts of s between separators; part is what was read of the current one. */
  function Parts(s: string, part: string): seq<string>
    decreases |s|
  {
    if s == "" then (if part == "" then [] else [part])
    else if IsSep(s[0]) then (if part == "" then [] else [part]) + Parts(s[1..], "")
    else Parts(s[1..], part + [s[0]])
  }

  function Push(stack: seq<string>, c: string): seq<string> {
    if c == "." then stack
    else if c == ".." then (if stack == [] then [] else stack[..|stack| - 1])
    else stack + [c]
  }

  function PushAll(stack: seq<string>, parts: seq<string>): seq<string>
    decreases |parts|
  {
    if parts == [] then stack else PushAll(Push(stack, parts[0]), parts[1..])
  }

  predicate IsName(c: string) {
    c != "" && c != "." && c != ".." && forall i :: 0 <= i < |c| ==> !IsSep(c[i])
  }

  predicate AllNames(cs: seq<string>) {
    forall i :: 0 <= i < |cs| ==> IsName(cs[i])
  }

  /** The names in their written form. */
  function Below(cs: seq<string>): string {
    if cs == [] then "" else "\\" + cs[0] + Below(cs[1..])
  }

  /** The normal form. */
  function Canon(volume: string, cs: seq<string>): string {
    volume + ":" + (if cs == [] then "\\" else Below(cs))
  }

  // ---- volumes ----

  datatype Alias = Alias(name: string, volume: string)

  /** The first volume with that name, from the i-th on. */
  function RealVolume(vols: seq<string>, name: string, i: nat): Option<nat>
    decreases |vols| - i
  {
    if i >= |vols| then None else if SameText(vols[i], name) then Some(i) else RealVolume(vols, name, i + 1)
  }

  function AliasedVolume(vols: seq<string>, aliases: seq<Alias>, name: string): Option<nat>
    decreases |aliases|
  {
    if aliases == [] then None
    else if SameText(aliases[0].name, name) && RealVolume(vols, aliases[0].volume, 0).Some? then
      RealVolume(vols, aliases[0].volume, 0)
    else AliasedVolume(vols, aliases[1..], name)
  }

  function VolumeOf(vols: seq<string>, aliases: seq<Alias>, name: string): Option<nat> {
    if RealVolume(vols, name, 0).Some? then RealVolume(vols, name, 0) else AliasedVolume(vols, aliases, name)
  }

  /** Volume names contain no separator and no colon, and differ in more than case. */
  predicate VolumesOk(vols: seq<string>) {
    && (forall i :: 0 <= i < |vols| ==> PlainName(vols[i]))
    && (forall i, j :: 0 <= i < j < |vols| ==> !SameText(vols[i], vols[j]))
  }

  predicate PlainName(s: string) {
    forall i :: 0 <= i < |s| ==> s[i] != ':' && !IsSep(s[i])
  }

  lemma {:induction false} RealVolumeFound(vols: seq<string>, name: string, i: nat)
    ensures RealVolume(vols, name, i).Some? ==>
      i <= RealVolume(vols, name, i).value < |vols| && SameText(vols[RealVolume(vols, name, i).value], name)
    ensures RealVolume(vols, name, i).None? ==> forall k :: i <= k < |vols| ==> !SameText(vols[k], name)
    decreases |vols| - i
  {
    if i < |vols| && !SameText(vols[i], name) {
      RealVolumeFound(vols, name, i + 1);
    }
  }

  lemma {:induction false} VolumeOfBound(vols: seq<string>, aliases: seq<Alias>, name: string)
    ensures VolumeOf(vols, aliases, name).Some? ==> VolumeOf(vols, aliases, name).value < |vols|
    decreases |aliases|
  {
    RealVolumeFound(vols, name, 0);
    if aliases != [] {
      RealVolumeFound(vols, aliases[0].volume, 0);
      VolumeOfBound(vols, aliases[1..], name);
    }
  }

  /** A volume is found under its own name, whatever the aliases are. */
  lemma OwnName(vols: seq<string>, aliases: seq<Alias>, v: nat)
    requires VolumesOk(vols) && v < |vols|
    ensures VolumeOf(vols, aliases, vols[v]) == Some(v)
  {
    RealVolumeFound(vols, vols[v], 0);
    SameTextIsEquivalence(vols[v], vols[v], vols[v]);
    var r := RealVolume(vols, vols[v], 0);
    assert r.Some?;
    if r.value != v {
      Differ(vols, r.value, v);
    }
  }

  lemma Differ(vols: seq<string>, i: nat, j: nat)
    requires VolumesOk(vols) && i < |vols| && j < |vols| && i != j
    ensures !SameText(vols[i], vols[j])
  {
    SameTextIsEquivalence(vols[i], vols[j], vols[i]);
    if j < i {
      assert !SameText(vols[j], vols[i]);
    }
  }

  // ---- resolving ----

  /** The position of the first colon, or the length. */
  function Colon(s: string): (n: nat)
    ensures n <= |s| && ':' !in s[..n] && (n < |s| ==> s[n] == ':')
  {
    if s == "" || s[0] == ':' then 0 else
      var n := Colon(s[1..]);
      assert s[..n + 1] == [s[0]] + s[1..][..n];
      n + 1
  }

  /** The length of the part of s before any separator. */
  function SepAt(s: string): (n: nat)
    ensures n <= |s| && (forall i :: 0 <= i < n ==> !IsSep(s[i])) && (n < |s| ==> IsSep(s[n]))
  {
    if s == "" || IsSep(s[0]) then 0 else 1 + SepAt(s[1..])
  }

  lemma {:induction false} ColonIs(s: string, n: nat)
    requires n < |s| && s[n] == ':' && forall i :: 0 <= i < n ==> s[i] != ':' && !IsSep(s[i])
    ensures Colon(s) == n < SepAt(s)
    decreases n
  {
    if n > 0 {
      ColonIs(s[1..], n - 1);
    }
  }

  /** Starts with a volume name and a colon. */
  predicate HasVolume(p: string) {
    Colon(p) < |p| && Colon(p) < SepAt(p)
  }

  /** The volume name in effect, and the text whose parts are the names: both None when cwd is needed but not set. */
  function Source(cwd: string, p: string): Option<(string, string)> {
    if HasVolume(p) then Some((p[..Colon(p)], "\\" + p[Colon(p) + 1..]))
    else if Colon(cwd) == |cwd| then None
    else
      var rest := cwd[Colon(cwd) + 1..];
      Some((cwd[..Colon(cwd)], if p != "" && IsSep(p[0]) then p else rest + "\\" + p))
  }

  function Resolve(vols: seq<string>, aliases: seq<Alias>, cwd: string, p: string): Option<string> {
    var src := Source(cwd, p);
    if src.None? then None
    else
      var v := VolumeOf(vols, aliases, src.value.0);
      if v.None? then None
      else
        VolumeOfBound(vols, aliases, src.value.0);
        Some(Canon(vols[v.value], PushAll([], Parts(src.value.1, ""))))
  }

  /** s is the normal form of the names cs on the volume v. */
  predicate IsNormal(vols: seq<string>, s: string, v: nat, cs: seq<string>) {
    v < |vols| && AllNames(cs) && s == Canon(vols[v], cs)
  }

  ghost predicate Normal(vols: seq<string>, s: string) {
    exists v: nat, cs :: IsNormal(vols, s, v, cs)
  }

  // ---- the result is a normal form ----

  predicate PartOk(c: string) {
    c != "" && forall i :: 0 <= i < |c| ==> !IsSep(c[i])
  }

  lemma {:induction false} PartsAreOk(s: string, part: string)
    requires part == "" || PartOk(part)
    ensures forall i :: 0 <= i < |Parts(s, part)| ==> PartOk(Parts(s, part)[i])
    decreases |s|
  {
    if s != "" {
      if IsSep(s[0]) {
        PartsAreOk(s[1..], "");
      } else {
        PartsAreOk(s[1..], part + [s[0]]);
      }
    }
  }

  lemma {:induction false} PushAllNames(stack: seq<string>, parts: seq<string>)
    requires AllNames(stack) && forall i :: 0 <= i < |parts| ==> PartOk(parts[i])
    ensures AllNames(PushAll(stack, parts))
    decreases |parts|
  {
    if parts != [] {
      assert PartOk(parts[0]);
      PushAllNames(Push(stack, parts[0]), parts[1..]);
    }
  }

  /** Resolving always gives a normal form. */
  lemma ResolveIsNormal(vols: seq<string>, aliases: seq<Alias>, cwd: string, p: string)
    requires Resolve(vols, aliases, cwd, p).Some?
    ensures Normal(vols, Resolve(vols, aliases, cwd, p).value)
  {
    var src := Source(cwd, p).value;
    var v := VolumeOf(vols, aliases, src.0).value;
    VolumeOfBound(vols, aliases, src.0);
    PartsAreOk(src.1, "");
    PushAllNames([], Parts(src.1, ""));
    assert IsNormal(vols, Resolve(vols, aliases, cwd, p).value, v, PushAll([], Parts(src.1, "")));
  }

  // ---- resolving a normal form changes nothing ----

  lemma {:induction false} PartsOfName(c: string, s: string, part: string)
    requires forall i :: 0 <= i < |c| ==> !IsSep(c[i])
    ensures Parts(c + s, part) == Parts(s, part + c)
    decreases |c|
  {
    if c == "" {
      assert c + s == s && part + c == part;
    } else {
      assert (c + s)[0] == c[0] && (c + s)[1..] == c[1..] + s;
      assert part + c == part + [c[0]] + c[1..];
      PartsOfName(c[1..], s, part + [c[0]]);
    }
  }

  lemma {:induction false} PartsConcat(a: string, b: string, part: string)
    ensures Parts(a + "\\" + b, part) == Parts(a, part) + Parts(b, "")
    decreases |a|
  {
    if a == "" {
      assert a + "\\" + b == "\\" + b && ("\\" + b)[1..] == b;
    } else {
      var s := a + "\\" + b;
      assert s[0] == a[0] && s[1..] == a[1..] + "\\" + b;
      PartsConcat(a[1..], b, if IsSep(a[0]) then "" else part + [a[0]]);
    }
  }

  lemma {:induction false} PartsOfBelow(cs: seq<string>)
    requires AllNames(cs)
    ensures Parts(Below(cs), "") == cs
    decreases |cs|
  {
    if cs != [] {
      var c, rest := cs[0], cs[1..];
      var s := Below(cs);
      assert IsName(c) && s[1..] == c + Below(rest);
      PartsOfName(c, Below(rest), "");
      assert "" + c == c;
      PartsOfBelow(rest);
      PartsAfter(rest, c);
      assert cs == [c] + rest;
    }
  }

  lemma PartsAfter(rest: seq<string>, c: string)
    requires c != "" && Parts(Below(rest), "") == rest
    ensures Parts(Below(rest), c) == [c] + rest
  {
    if rest != [] {
      var s := Below(rest);
      assert IsSep(s[0]);
    }
  }

  lemma {:induction false} PushNames(stack: seq<string>, cs: seq<string>)
    requires AllNames(cs)
    ensures PushAll(stack, cs) == stack + cs
    decreases |cs|
  {
    if cs != [] {
      assert IsName(cs[0]);
      PushNames(stack + [cs[0]], cs[1..]);
      assert stack + [cs[0]] + cs[1..] == stack + cs;
    }
  }

  lemma {:induction false} PushAllConcat(stack: seq<string>, a: seq<string>, b: seq<string>)
    ensures PushAll(stack, a + b) == PushAll(PushAll(stack, a), b)
    decreases |a|
  {
    if a == [] {
      assert a + b == b;
    } else {
      assert (a + b)[1..] == a[1..] + b;
      PushAllConcat(Push(stack, a[0]), a[1..], b);
    }
  }

  function Tail(cs: seq<string>): string {
    if cs == [] then "\\" else Below(cs)
  }

  lemma CanonParts(volume: string, cs: seq<string>)
    requires PlainName(volume) && AllNames(cs)
    ensures var s := Canon(volume, cs);
      Colon(s) == |volume| < |s| && HasVolume(s) && s[..Colon(s)] == volume && s[Colon(s) + 1..] == Tail(cs)
    ensures Parts(Tail(cs), "") == cs && Parts("\\" + Tail(cs), "") == cs
  {
    var s := Canon(volume, cs);
    var n := |volume|;
    assert s[n] == ':' && s[..n] == volume && s[n + 1..] == Tail(cs);
    assert forall i :: 0 <= i < n ==> s[i] == volume[i];
    ColonIs(s, n);
    PartsOfBelow(cs);
    if cs == [] {
      assert "\\"[1..] == "" && ("\\" + "\\")[1..] == "\\";
    } else {
      assert ("\\" + Tail(cs))[1..] == Tail(cs);
    }
  }

  /** A normal form resolves to itself, in every directory. */
  lemma NormalIsFixed(vols: seq<string>, aliases: seq<Alias>, cwd: string, s: string)
    requires VolumesOk(vols) && Normal(vols, s)
    ensures Resolve(vols, aliases, cwd, s) == Some(s)
  {
    var v: nat, cs :| IsNormal(vols, s, v, cs);
    CanonParts(vols[v], cs);
    OwnName(vols, aliases, v);
    PushNames([], cs);
    assert [] + cs == cs;
  }

  /** Resolving twice is resolving once. */
  lemma ResolveIdempotent(vols: seq<string>, aliases: seq<Alias>, cwd: string, p: string)
    requires VolumesOk(vols) && Resolve(vols, aliases, cwd, p).Some?
    ensures Resolve(vols, aliases, cwd, Resolve(vols, aliases, cwd, p).value) == Resolve(vols, aliases, cwd, p)
  {
    ResolveIsNormal(vols, aliases, cwd, p);
    NormalIsFixed(vols, aliases, cwd, Resolve(vols, aliases, cwd, p).value);
  }

  // ---- relative paths ----

  function Join(dir: string, name: string): string {
    if dir != "" && dir[|dir| - 1] == '\\' then dir + name else dir + "\\" + name
  }

  predicate IsRelative(p: string) {
    !HasVolume(p) && !(p != "" && IsSep(p[0]))
  }

  lemma {:induction false} BelowEnds(cs: seq<string>)
    requires AllNames(cs) && cs != []
    ensures Below(cs) != "" && Below(cs)[|Below(cs)| - 1] != '\\'
    decreases |cs|
  {
    assert IsName(cs[0]);
    if |cs| > 1 {
      BelowEnds(cs[1..]);
    }
  }

  /** A relative path means the same as the absolute path got by joining it to the directory. */
  lemma RelativeIsJoined(vols: seq<string>, aliases: seq<Alias>, cwd: string, p: string)
    requires VolumesOk(vols) && Normal(vols, cwd) && IsRelative(p)
    ensures Resolve(vols, aliases, cwd, p) == Resolve(vols, aliases, "", Join(cwd, p))
    ensures Resolve(vols, aliases, cwd, p).Some?
  {
    hide Parts, PushAll, Below, Colon, SepAt, VolumeOf, HasVolume, Canon, AllNames;
    var v: nat, cs :| IsNormal(vols, cwd, v, cs);
    var vol := vols[v];
    CanonParts(vol, cs);
    OwnName(vols, aliases, v);
    var t := JoinedBelow(vol, cs, p);
    JoinedVolume(vol, t);
    OneSlash(t);
    assert Source("", vol + ":" + t) == Some((vol, "\\" + t));
    assert Source(cwd, p) == Some((vol, Tail(cs) + "\\" + p));
  }

  /** What the joined path has after the colon. */
  lemma JoinedBelow(vol: string, cs: seq<string>, p: string) returns (t: string)
    requires PlainName(vol) && AllNames(cs)
    ensures t != "" && IsSep(t[0]) && Join(Canon(vol, cs), p) == vol + ":" + t
    ensures Parts(t, "") == Parts(Tail(cs) + "\\" + p, "")
  {
    var c := Canon(vol, cs);
    if cs == [] {
      assert c[|c| - 1] == '\\';
      t := "\\" + p;
      assert c + p == vol + ":" + t;
      OneSlash("\\" + p);
      assert "\\" + ("\\" + p) == "\\" + "\\" + p;
    } else {
      BelowEnds(cs);
      assert c[|c| - 1] == Below(cs)[|Below(cs)| - 1];
      t := Below(cs) + "\\" + p;
      assert c + "\\" + p == vol + ":" + t;
    }
  }

  lemma OneSlash(t: string)
    ensures Parts("\\" + t, "") == Parts(t, "")
  {
    assert ("\\" + t)[1..] == t;
  }

  lemma JoinedVolume(vol: string, t: string)
    requires PlainName(vol) && t != "" && IsSep(t[0])
    ensures var j := vol + ":" + t;
      Colon(j) == |vol| && HasVolume(j) && j[..Colon(j)] == vol && j[Colon(j) + 1..] == t
  {
    var j := vol + ":" + t;
    var n := |vol|;
    assert j[n] == ':' && j[..n] == vol && j[n + 1..] == t;
    assert forall i :: 0 <= i < n ==> j[i] == vol[i];
    ColonIs(j, n);
  }
}
