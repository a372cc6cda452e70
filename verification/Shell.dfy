/** The shell's current directory, and how paths are resolved against it. */
module Shell {
  import opened Ascii
  import opened Optional
  import opened Paths

  datatype Stat = Missing | IsFile | IsDir

  lemma PartFirst(s: string, q: nat, e: nat)
    requires q < e <= |s| && (forall i :: q <= i < e ==> !IsSep(s[i])) && (e < |s| ==> IsSep(s[e]))
    ensures Parts(s[q..], "") == [s[q..e]] + Parts(s[e..], "")
  {
    var c, t := s[q..e], s[e..];
    assert s[q..] == c + t && "" + c == c;
    PartsOfName(c, t, "");
  }

  ghost predicate WasNormal(s: string) {
    exists vols :: VolumesOk(vols) && Normal(vols, s)
  }

  class Shell {
    var vols: seq<string>
    var aliases: seq<Alias>
    var cwd: string

    /** The current directory is not set yet, or is a normal form, maybe of a volume that is gone. */
    ghost predicate Valid()
      reads this
    {
      VolumesOk(vols) && (cwd == "" || WasNormal(cwd))
    }

    constructor (volumes: seq<string>)
      requires VolumesOk(volumes)
      ensures Valid() && vols == volumes && cwd == ""
    {
      vols := volumes;
      aliases := [];
      cwd := "";
    }

    method FindReal(name: string) returns (v: Option<nat>)
      ensures v == RealVolume(vols, name, 0)
    {
      var i := 0;
      while i < |vols|
        invariant i <= |vols| && RealVolume(vols, name, i) == RealVolume(vols, name, 0)
      {
        if SameText(vols[i], name) {
          return Some(i);
        }
        i := i + 1;
      }
      return None;
    }

    method FindVolume(name: string) returns (v: Option<nat>)
      ensures v == VolumeOf(vols, aliases, name)
    {
      v := FindReal(name);
      if v.Some? {
        return;
      }
      var k := 0;
      assert aliases[0..] == aliases;
      while k < |aliases|
        invariant k <= |aliases| && AliasedVolume(vols, aliases[k..], name) == AliasedVolume(vols, aliases, name)
      {
        if SameText(aliases[k].name, name) {
          v := FindReal(aliases[k].volume);
          if v.Some? {
            return;
          }
        }
        assert aliases[k..][1..] == aliases[k + 1..];
        k := k + 1;
      }
      return None;
    }

    /** The names that s leads to, with a stack for "..". */
    method Components(s: string) returns (comp: seq<string>)
      ensures comp == PushAll([], Parts(s, ""))
    {
      comp := [];
      var q := 0;
      assert s[0..] == s;
      while q < |s|
        invariant q <= |s| && PushAll(comp, Parts(s[q..], "")) == PushAll([], Parts(s, ""))
      {
        ghost var q0 := q;
        while q < |s| && IsSep(s[q])
          invariant q0 <= q <= |s| && Parts(s[q..], "") == Parts(s[q0..], "")
        {
          assert s[q..][1..] == s[q + 1..];
          q := q + 1;
        }
        if q == |s| {
          break;
        }
        var e := q;
        while e < |s| && !IsSep(s[e])
          invariant q <= e <= |s| && forall i :: q <= i < e ==> !IsSep(s[i])
        {
          e := e + 1;
        }
        PartFirst(s, q, e);
        var c := s[q..e];
        ghost var rest := Parts(s[e..], "");
        assert ([c] + rest)[1..] == rest;
        if c == "." {
        } else if c == ".." {
          if comp != [] {
            comp := comp[..|comp| - 1];
          }
        } else {
          comp := comp + [c];
        }
        q := e;
      }
      assert s[q..] == "";
    }

    method PathResolve(p: string) returns (r: Option<string>)
      ensures r == Resolve(vols, aliases, cwd, p)
    {
      hide Parts, PushAll, VolumeOf, Colon, SepAt, Canon;
      var name, raw;
      if HasVolume(p) {
        name, raw := p[..Colon(p)], "\\" + p[Colon(p) + 1..];
      } else {
        var c := Colon(cwd);
        if c == |cwd| {
          return None;
        }
        name := cwd[..c];
        raw := if p != "" && IsSep(p[0]) then p else cwd[c + 1..] + "\\" + p;
      }
      var v := FindVolume(name);
      if v.None? {
        return None;
      }
      VolumeOfBound(vols, aliases, name);
      var comp := Components(raw);
      var out := Written(vols[v.value], comp);
      r := Some(out);
    }

    /** A volume and names in their written form. */
    static method Written(volume: string, comp: seq<string>) returns (out: string)
      ensures out == Canon(volume, comp)
    {
      out := volume + ":";
      if comp == [] {
        out := out + "\\";
      }
      assert comp[0..] == comp;
      for i := 0 to |comp|
        invariant comp != [] ==> out + Below(comp[i..]) == volume + ":" + Below(comp)
        invariant comp == [] ==> out == volume + ":" + "\\"
      {
        assert comp[i..][1..] == comp[i + 1..];
        assert out + ("\\" + comp[i] + Below(comp[i + 1..])) == out + "\\" + comp[i] + Below(comp[i + 1..]);
        out := out + "\\" + comp[i];
      }
      assert out + "" == out;
    }

    /** cd. stat tells what lies at a path. */
    method ChDir(p: string, stat: string -> Stat) returns (ok: bool)
      requires Valid()
      modifies this`cwd
      ensures Valid() && (ok ==> Normal(vols, cwd))
      ensures ok <==> var r := Resolve(vols, aliases, old(cwd), p); r.Some? && stat(r.value).IsDir?
      ensures cwd == if ok then Resolve(vols, aliases, old(cwd), p).value else old(cwd)
    {
      var np := PathResolve(p);
      if np.None? {
        return false;
      }
      ResolveIsNormal(vols, aliases, cwd, p);
      if stat(np.value) != IsDir {
        return false;
      }
      cwd := np.value;
      return true;
    }

    /** The volumes are enumerated again; some may be new and some gone. */
    method VolumesRefresh(volumes: seq<string>)
      requires Valid() && VolumesOk(volumes)
      modifies this`vols
      ensures Valid() && vols == volumes
    {
      vols := volumes;
    }

    /** map -r: also looks the current directory up again; when that fails, the root of the boot
        volume, or of the first one, is taken. */
    method Refresh(volumes: seq<string>, boot: Option<nat>, stat: string -> Stat)
      requires Valid() && VolumesOk(volumes) && (boot.Some? ==> boot.value < |volumes|)
      modifies this`vols, this`cwd
      ensures Valid() && vols == volumes
      ensures Normal(vols, old(cwd)) && stat(old(cwd)).IsDir? ==> cwd == old(cwd)
      ensures cwd != old(cwd) ==> Normal(vols, cwd) && stat(cwd).IsDir?
      ensures volumes != [] && !Normal(vols, old(cwd)) ==>
        var b := Canon(volumes[if boot.Some? then boot.value else 0], []);
        stat(b).IsDir? ==> Normal(vols, cwd)
    {
      hide Resolve, Canon;
      var was := cwd;
      VolumesRefresh(volumes);
      if Normal(vols, was) {
        NormalIsFixed(vols, aliases, was, was);
      }
      var ok := ChDir(was, stat);
      if !ok && (boot.Some? || |vols| > 0) {
        var v := if boot.Some? then boot.value else 0;
        var root := vols[v] + ":" + "\\";
        assert root == Canon(vols[v], []) by { RootForm(vols[v]); }
        assert IsNormal(vols, root, v, []);
        NormalIsFixed(vols, aliases, cwd, root);
        ok := ChDir(root, stat);
      }
    }

    static lemma RootForm(volume: string)
      ensures Canon(volume, []) == volume + ":" + "\\"
    {
    }
  }
}
