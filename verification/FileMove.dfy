/** The mv command. An existing target file is set aside, the source is renamed or copied, and the
    old target is deleted or put back: no failure along the way may lose data. */
module FileMove {
  import opened FileTree
  import opened FileSystem
  import opened FileCopy

  // ---- names of set-aside files ----

  function Decimal(n: nat): string {
    var digit := "0123456789"[n % 10];
    if n < 10 then [digit] else Decimal(n / 10) + [digit]
  }

  /** The j-th name tried for setting t aside. */
  function AsideName(t: Path, j: nat): Path
    requires t != []
  {
    t[..|t| - 1] + [t[|t| - 1] + ".mv" + Decimal(j)]
  }

  const ASIDE_NAMES: nat := 1000

  ghost predicate IsAside(t: Path, aside: Path) {
    t != [] && exists j: nat :: j < ASIDE_NAMES && aside == AsideName(t, j)
  }

  /** Set-aside names: .mv and a number below 1000 behind the name of the target. */
  lemma AsideNames(v: string, name: string, q: nat, r: nat)
    requires r < 10
    ensures AsideName([v, name], r) == [v, name + ".mv" + ["0123456789"[r]]]
    ensures q > 0 ==> AsideName([v, name], 10 * q + r) == [v, AsideName([v, name], q)[1] + ["0123456789"[r]]]
    ensures IsAside([v, name], AsideName([v, name], 999))
  {
    assert [v, name][..1] == [v];
    if q > 0 {
      assert Decimal(10 * q + r) == Decimal(q) + ["0123456789"[r]];
      hide Decimal;
      assert name + ".mv" + (Decimal(q) + ["0123456789"[r]]) == name + ".mv" + Decimal(q) + ["0123456789"[r]];
    }
  }

  lemma AsideApart(t: Path, aside: Path)
    requires IsAside(t, aside)
    ensures Apart(t, aside) && |aside| == |t| && aside[..|t| - 1] == t[..|t| - 1] && aside[0] == (if |t| > 1 then t[0] else aside[0])
  {
    var n := |t| - 1;
    assert |aside[n]| > |t[n]|;
  }

  // ---- what may be seen on the way ----

  /** f and g agree away from src, t and aside. */
  ghost predicate Elsewhere(f: Tree, g: Tree, src: Path, t: Path, aside: Path) {
    forall x :: !(src <= x) && !(t <= x) && !(aside <= x) ==> SameAt(f, x, g, x)
  }

  /** The file system in which just src has moved to t, and replaced the file there. */
  ghost function Moved(f: Tree, src: Path, t: Path): Tree {
    Relocated(f - {t}, src, t)
  }

  ghost predicate SourceKept(f: Tree, g: Tree, src: Path, t: Path) {
    SameTree(f, src, g, src) || SameTree(f, src, g, t)
  }

  ghost predicate OldKept(f: Tree, g: Tree, t: Path, aside: Path) {
    t in f ==> (t in g && g[t] == f[t]) || (aside in g && g[aside] == f[t])
  }

  /** Nothing is lost: all of the source is at its old or at its new place, the file it replaces
      is at its place or set aside unless the move is complete, and all else is as it was. */
  ghost predicate Safe(f: Tree, g: Tree, src: Path, t: Path, aside: Path) {
    && Elsewhere(f, g, src, t, aside)
    && SourceKept(f, g, src, t)
    && (OldKept(f, g, t, aside) || g == Moved(f, src, t))
  }

  ghost predicate SafeStates(trace: seq<Tree>, n: nat, f: Tree, src: Path, t: Path, aside: Path) {
    forall i :: n <= i < |trace| ==> Safe(f, trace[i], src, t, aside)
  }

  // ---- the transfer itself ----

  /** Halfway between f and the file system in which src has moved to the free place t. */
  ghost predicate Between(f: Tree, g: Tree, src: Path, t: Path) {
    && (forall x :: !(src <= x) && !(t <= x) ==> SameAt(f, x, g, x))
    && SourceKept(f, g, src, t)
  }

  ghost predicate BetweenStates(trace: seq<Tree>, n: nat, f: Tree, src: Path, t: Path) {
    forall i :: n <= i < |trace| ==> Between(f, trace[i], src, t)
  }

  lemma NotYetBetween(f: Tree, g: Tree, src: Path, t: Path)
    requires SameOutside(f, g, t) && Apart(src, t)
    ensures Between(f, g, src, t)
  {
    ApartKeeps(f, g, src, t);
  }

  lemma CopiedBetween(f: Tree, g: Tree, h: Tree, src: Path, t: Path)
    requires SameOutside(f, g, t) && Apart(src, t) && SameTree(f, src, g, t) && SameOutside(g, h, src)
    ensures Between(f, h, src, t) && SameTree(f, src, h, t)
  {
    hide SameTree;
    ApartKeeps(g, h, t, src);
    SameTreeTrans(f, src, g, t, h, t);
    forall x | !(src <= x) && !(t <= x) ensures SameAt(f, x, h, x) {
      assert SameAt(f, x, g, x) && SameAt(g, x, h, x);
    }
  }

  lemma RenamedBetween(f: Tree, src: Path, t: Path)
    requires Apart(src, t) && Fresh(f, t)
    ensures Between(f, Relocated(f, src, t), src, t) && SameTree(f, src, Relocated(f, src, t), t)
  {
    hide SameTree, Relocated;
    RelocatedTree(f, src, t);
    forall x | !(src <= x) && !(t <= x) ensures SameAt(f, x, Relocated(f, src, t), x) {
      RelocatedAt(f, src, t, x);
    }
  }

  lemma CopiedAndRemoved(f: Tree, g: Tree, h: Tree, src: Path, t: Path)
    requires Wf(h) && src != [] && Fresh(f, t)
    requires SameOutside(f, g, t) && Apart(src, t) && SameTree(f, src, g, t) && SameOutside(g, h, src) && src !in h
    ensures h == Relocated(f, src, t)
  {
    hide SameTree, Relocated, Wf, Fresh;
    CopiedBetween(f, g, h, src, t);
    AbsentIsFresh(h, src);
    RelocatedUnique(f, src, t, h);
  }

  lemma DroppedAgain(f: Tree, g: Tree, t: Path)
    requires SameOutside(f, g, t) && Fresh(f, t) && Wf(g) && t != [] && t !in g
    ensures f == g
  {
    AbsentIsFresh(g, t);
    SameEverywhere(f, g, t);
  }

  lemma BetweenWhileCopying(u: seq<Tree>, n: nat, f: Tree, src: Path, t: Path)
    requires StatesOutside(u, n, f, t) && Apart(src, t)
    ensures BetweenStates(u, n, f, src, t)
  {
    forall i | n <= i < |u| ensures Between(f, u[i], src, t) {
      NotYetBetween(f, u[i], src, t);
    }
  }

  lemma BetweenWhileRemoving(c: seq<Tree>, u: seq<Tree>, n: nat, f: Tree, g: Tree, src: Path, t: Path)
    requires BetweenStates(c, n, f, src, t) && n <= |c| && c <= u && StatesOutside(u, |c|, g, src)
    requires SameOutside(f, g, t) && Apart(src, t) && SameTree(f, src, g, t)
    ensures BetweenStates(u, n, f, src, t)
  {
    forall i | n <= i < |u| ensures Between(f, u[i], src, t) {
      if i >= |c| {
        CopiedBetween(f, g, u[i], src, t);
      } else {
        assert u[i] == c[i];
      }
    }
  }

  /** Renames, or copies and then deletes: the source when the copy is complete, else the copy.
      done: all of the source is at t; cut: when the attempt had failed. */
  method Transfer(v: Volumes, src: Path, t: Path) returns (ok: bool, ghost done: bool, ghost cut: nat)
    requires v.Valid() && src != [] && t != []
    modifies v
    ensures v.Valid() && old(v.trace) <= v.trace && old(v.clock) <= cut <= v.clock
    ensures Ready(old(v.fs), src, t) ==>
      && BetweenStates(v.trace, |old(v.trace)|, old(v.fs), src, t)
      && (ok ==> done && v.fs == Relocated(old(v.fs), src, t))
      && (done ==> Between(old(v.fs), v.fs, src, t) && SameTree(old(v.fs), src, v.fs, t))
      && (!done ==> SameOutside(old(v.fs), v.fs, t))
      && (!done && v.Quiet(cut) ==> v.fs == old(v.fs))
      && (v.Quiet(old(v.clock)) && |src| > 1 && InDir(old(v.fs), t) ==> ok)
    ensures src == t && !CannotRename(v.faults(old(v.clock))) ==> v.fs == old(v.fs)
    ensures (src == t && src in old(v.fs) && CannotRename(v.faults(old(v.clock)))
      && v.Quiet(old(v.clock) + 1)) ==> !ok && v.fs == Emptied(old(v.fs), src)
  {
    hide Wf, SameTree, SameOutside, StatesOutside, Between, BetweenStates, Fresh, Relocated, Ready;
    ghost var f, n, was := v.fs, |v.trace|, v.trace;
    if src in f {
      VolumeKnown(f, src);
    }
    if |t| > 1 && InDir(f, t) {
      VolumeKnown(f, t[..|t| - 1]);
    }
    if Ready(f, src, t) {
      TransferReady(f, was, src, t);
    }
    var e := v.Rename(src, t);
    done := e.Okay?;
    cut := v.clock;
    ok := e.Okay?;
    if e == Failed(NotSupported) {
      ok, done, cut := CopyAcross(v, src, t);
    }
  }

  /** The target is free and apart from the source. */
  ghost predicate Ready(f: Tree, src: Path, t: Path) {
    src in f && Fresh(f, t) && Apart(src, t) && |t| > 1
  }

  predicate CannotRename(f: Fault) {
    f.Fault? && f.error == NotSupported
  }

  lemma VolumeKnown(f: Tree, p: Path)
    requires Wf(f) && p in f && p != []
    ensures [p[0]] in f
  {
    Ancestors(f, [p[0]], p);
  }

  lemma TransferReady(f: Tree, was: seq<Tree>, src: Path, t: Path)
    requires Ready(f, src, t)
    ensures BetweenStates(was, |was|, f, src, t) && SameOutside(f, f, t)
    ensures src in f && src != t && t !in f && Apart(src, t) && |t| > 1
    ensures var g := Relocated(f, src, t);
      BetweenStates(was + [g], |was|, f, src, t) && Between(f, g, src, t) && SameTree(f, src, g, t)
  {
    hide Between, Relocated, SameTree;
    RenamedBetween(f, src, t);
    Unchanged(f, t);
  }

  lemma SourceStays(f: Tree, g: Tree, src: Path, t: Path)
    requires SameOutside(f, g, t) && Ready(f, src, t)
    ensures src in g
  {
    assert SameAt(f, src, g, src);
  }

  method CopyAcross(v: Volumes, src: Path, t: Path) returns (ok: bool, ghost done: bool, ghost cut: nat)
    requires v.Valid() && src != [] && t != []
    modifies v
    ensures v.Valid() && old(v.trace) <= v.trace && old(v.clock) <= cut <= v.clock
    ensures Ready(old(v.fs), src, t) ==>
      && BetweenStates(v.trace, |old(v.trace)|, old(v.fs), src, t)
      && (ok ==> done && v.fs == Relocated(old(v.fs), src, t))
      && (done ==> Between(old(v.fs), v.fs, src, t) && SameTree(old(v.fs), src, v.fs, t))
      && (!done ==> SameOutside(old(v.fs), v.fs, t))
      && (!done && v.Quiet(cut) ==> v.fs == old(v.fs))
      && (v.Quiet(old(v.clock)) && |src| > 1 && InDir(old(v.fs), t) ==> ok)
    ensures src == t ==> !ok
    ensures src == t && src in old(v.fs) && v.Quiet(old(v.clock)) ==> v.fs == Emptied(old(v.fs), src)
  {
    hide Wf, Copying, Removing, Bounded, SameTree, SameOutside, StatesOutside, Between, BetweenStates, Fresh, Relocated;
    ghost var f, n := v.fs, |v.trace|;
    ghost var bound := Longest(f.Keys);
    LongestBounds(f, src);
    ok := CopyTree(v, src, t, true, bound);
    done, cut := ok, v.clock;
    ghost var g, c := v.fs, v.trace;
    CopyingOutside(f, n, c, g, src, t, bound);
    ghost var bound2 := Longest(g.Keys);
    if !ok {
      LongestBounds(g, t);
      var dropped := RemoveTree(v, t, true, true, bound2);
      RemovingOutside(g, |c|, v.trace, v.fs, t);
      StatesExtend(c, n, f, t, v.trace, g, t);
      OutsideTrans(f, g, v.fs, t);
      if Ready(f, src, t) {
        BetweenWhileCopying(v.trace, n, f, src, t);
        if v.Quiet(cut) {
          DroppedAgain(f, v.fs, t);
        }
      }
      if src == t && src in f && v.Quiet(old(v.clock)) {
        AllRemoved(f, v.fs, src);
      }
    } else {
      LongestBounds(g, src);
      if Ready(f, src, t) {
        SourceStays(f, g, src, t);
      }
      ok := RemoveTree(v, src, true, false, bound2);
      RemovingOutside(g, |c|, v.trace, v.fs, src);
      if Ready(f, src, t) {
        BetweenWhileCopying(c, n, f, src, t);
        BetweenWhileRemoving(c, v.trace, n, f, g, src, t);
        CopiedBetween(f, g, v.fs, src, t);
        if ok {
          CopiedAndRemoved(f, g, v.fs, src, t);
        }
      }
    }
  }

  lemma CopyingOutside(f0: Tree, n: nat, u: seq<Tree>, f: Tree, src: Path, dst: Path, bound: nat)
    requires Copying(f0, n, u, f, src, dst, bound)
    ensures n <= |u| && StatesOutside(u, n, f0, dst) && SameOutside(f0, f, dst)
  {
  }

  lemma RemovingOutside(f0: Tree, n: nat, u: seq<Tree>, f: Tree, p: Path)
    requires Removing(f0, n, u, f, p)
    ensures n <= |u| && StatesOutside(u, n, f0, p) && SameOutside(f0, f, p)
  {
  }

  /** f without what is at and below p; the root of a volume stays. */
  ghost function Emptied(f: Tree, p: Path): Tree {
    f - (set x | x in f && p <= x && |x| > 1)
  }

  lemma SomethingBelow(g: Tree, p: Path, x: Path)
    requires Wf(g) && p != [] && p <= x && x != p && x in g
    ensures Children(g, p) != {}
  {
    hide Children;
    Ancestors(g, x[..|p| + 1], x);
    assert x[..|p| + 1] == p + [x[|p|]];
  }

  lemma AllRemoved(f: Tree, g: Tree, p: Path)
    requires SameOutside(f, g, p) && Wf(f) && Wf(g) && p != [] && p in f
    requires if |p| > 1 then p !in g else p in g && Children(g, p) == {}
    ensures g == Emptied(f, p)
  {
    hide Children;
    var h := Emptied(f, p);
    if |p| > 1 {
      AbsentIsFresh(g, p);
    }
    forall x ensures SameAt(g, x, h, x) {
      if !(p <= x) {
        assert SameAt(f, x, g, x);
      } else if |p| == 1 {
        assert f[p] == Dir == g[p];
        if x != p {
          assert |x| > 1;
          if x in g {
            SomethingBelow(g, p, x);
          }
        }
      }
    }
    Agree(g, h);
  }

  // ---- setting the old target aside ----

  /** Renames the file t to the first of its set-aside names that is free. */
  method SetAside(v: Volumes, t: Path) returns (ok: bool, aside: Path)
    requires v.Valid() && t in v.fs && v.fs[t].File?
    modifies v
    ensures v.Valid() && old(v.clock) <= v.clock
    ensures !ok ==> v.fs == old(v.fs) && v.trace == old(v.trace)
    ensures ok ==> IsAside(t, aside) && aside != [] && aside !in old(v.fs)
    ensures ok ==> v.fs == Relocated(old(v.fs), t, aside) && v.trace == old(v.trace) + [v.fs]
    ensures v.Quiet(old(v.clock)) && (exists a :: IsAside(t, a) && a !in old(v.fs)) ==> ok
  {
    hide Relocated, Decimal;
    aside := t;
    var j := 0;
    while j < ASIDE_NAMES && AsideName(t, j) in v.fs
      invariant j <= ASIDE_NAMES
      invariant forall i: nat :: i < j ==> AsideName(t, i) in v.fs
    {
      j := j + 1;
    }
    if j == ASIDE_NAMES {
      return false, aside;
    }
    aside := AsideName(t, j);
    assert IsAside(t, aside);
    AsideApart(t, aside);
    VolumeKnown(v.fs, t);
    assert |t| > 1 && InDir(v.fs, t);
    var e := v.Rename(t, aside);
    ok := e.Okay?;
  }

  /** f1 is f with the file at t, if there is one, moved to aside. */
  ghost predicate Cleared(f: Tree, f1: Tree, src: Path, t: Path, aside: Path) {
    && Wf(f) && Wf(f1) && Ready(f1, src, t) && Apart(src, aside) && SameTree(f, src, f1, src)
    && (if t in f then
          f[t].File? && Apart(t, aside) && Fresh(f, aside) && f1 == Relocated(f, t, aside)
          && aside in f1 && f1[aside] == f[t] && src in f
          && |aside| == |t| > 1 && aside[..|t| - 1] == t[..|t| - 1]
        else f1 == f && aside == t)
  }

  lemma ClearedFree(f: Tree, src: Path, t: Path)
    requires Wf(f) && src in f && src != t && !(src <= t) && t != [] && t !in f && |t| > 1
    ensures Cleared(f, f, src, t, t)
  {
    AbsentIsFresh(f, t);
  }

  lemma ClearedAside(f: Tree, f1: Tree, src: Path, t: Path, aside: Path)
    requires Wf(f) && Wf(f1) && src in f && src != t && !(src <= t) && t in f && f[t].File?
    requires IsAside(t, aside) && aside !in f && f1 == Relocated(f, t, aside)
    ensures Cleared(f, f1, src, t, aside)
  {
    hide Relocated, Wf;
    assert src != [] && t != [] && |t| > 1 by { NotRoot(f, src); NotRoot(f, t); }
    AsideApart(t, aside);
    AbsentIsFresh(f, aside);
    if t <= src {
      FileIsLeaf(f, t, src);
    }
    var up := t[..|t| - 1];
    assert up <= t && (src <= aside && src != aside ==> src <= up);
    RelocatedTree(f, t, aside);
    RelocatedAt(f, t, aside, aside);
    assert t + aside[|aside|..] == t;
    forall r: Path ensures SameAt(f, src + r, f1, src + r) {
      ApartBelow(src, t, src + r);
      ApartBelow(src, aside, src + r);
      RelocatedAt(f, t, aside, src + r);
    }
    assert SameTree(f, src, f1, src);
    assert src + [] == src;
    assert SameAt(f, src + [], f1, src + []);
  }

  lemma NotRoot(f: Tree, p: Path)
    requires Wf(f) && p in f
    ensures p != [] && (f[p].File? ==> |p| > 1)
  {
  }

  /** Every state between f1 and the end of the transfer is safe. */
  lemma BetweenSafe(f: Tree, f1: Tree, g: Tree, src: Path, t: Path, aside: Path)
    requires Cleared(f, f1, src, t, aside) && Between(f1, g, src, t)
    ensures Safe(f, g, src, t, aside)
    ensures t in f ==> aside in g && g[aside] == f[t]
  {
    hide SameTree, Wf, Fresh, Relocated, Moved;
    forall x | !(src <= x) && !(t <= x) && !(aside <= x) ensures SameAt(f, x, g, x) {
      if t in f {
        assert SameAt(f, x, f1, x) by { RelocatedAt(f, t, aside, x); }
      }
      assert SameAt(f1, x, g, x);
    }
    if SameTree(f1, src, g, src) {
      SameTreeTrans(f, src, f1, src, g, src);
    } else {
      SameTreeTrans(f, src, f1, src, g, t);
    }
    if t in f {
      assert SameAt(f1, aside, g, aside);
    }
  }

  lemma BetweenStatesSafe(f: Tree, f1: Tree, u: seq<Tree>, n: nat, src: Path, t: Path, aside: Path)
    requires Cleared(f, f1, src, t, aside) && BetweenStates(u, n, f1, src, t)
    ensures SafeStates(u, n, f, src, t, aside)
  {
    hide Cleared, Between, Safe;
    forall i | n <= i < |u| ensures Safe(f, u[i], src, t, aside) {
      BetweenSafe(f, f1, u[i], src, t, aside);
    }
  }

  lemma ClearedSafe(f: Tree, f1: Tree, src: Path, t: Path, aside: Path)
    requires Cleared(f, f1, src, t, aside)
    ensures Between(f1, f1, src, t)
  {
    Unchanged(f1, t);
    NotYetBetween(f1, f1, src, t);
  }

  /** Deleting the old target completes the move. */
  lemma Completed(f: Tree, f1: Tree, src: Path, t: Path, aside: Path)
    requires Cleared(f, f1, src, t, aside)
    ensures (if t in f then Relocated(f1, src, t) - {aside} else Relocated(f1, src, t)) == Moved(f, src, t)
  {
    hide Relocated, Wf, SameTree;
    if t !in f {
      assert f - {t} == f;
    } else {
      var f2, h := f - {t}, Relocated(f1, src, t);
      var g := h - {aside};
      RelocatedTree(f1, src, t);
      SameTreeTrans(f, src, f1, src, h, t);
      assert Fresh(f2, t) by {
        forall x | t <= x ensures x !in f2 { if x != t { FileIsLeaf(f, t, x); } }
      }
      forall x | !(src <= x) && !(t <= x) ensures SameAt(f2, x, g, x) {
        RelocatedAt(f1, src, t, x);
        RelocatedAt(f, t, aside, x);
        if aside <= x && x != aside {
          AsideLeaf(f, t, aside, x);
        }
      }
      assert SameTree(f2, src, g, t) by { WithoutTwo(f, f2, src, t, h, g, t, aside); }
      RelocatedUnique(f2, src, t, g);
    }
  }

  lemma AsideLeaf(f: Tree, t: Path, aside: Path, x: Path)
    requires Wf(f) && t in f && t != [] && f[t].File? && aside <= x && x != aside && Fresh(f, aside)
    ensures x !in Relocated(f, t, aside)
  {
    hide Relocated, Wf;
    RelocatedAt(f, t, aside, x);
    var y := t + x[|aside|..];
    assert y != t;
    FileIsLeaf(f, t, y);
  }

  /** Removing a path on each side, away from the trees compared, changes nothing for them. */
  lemma WithoutTwo(f: Tree, f2: Tree, src: Path, t: Path, h: Tree, g: Tree, to: Path, aside: Path)
    requires SameTree(f, src, h, to) && f2 == f - {t} && g == h - {aside} && !(src <= t) && !(to <= aside)
    ensures SameTree(f2, src, g, to)
  {
    forall r: Path ensures SameAt(f2, src + r, g, to + r) {
      assert SameAt(f, src + r, h, to + r);
      assert src + r != t && to + r != aside;
    }
  }

  /** Putting the old target back undoes setting it aside. */
  lemma PutBack(f: Tree, f1: Tree, src: Path, t: Path, aside: Path)
    requires Cleared(f, f1, src, t, aside) && t in f
    ensures Relocated(f1, aside, t) == f
  {
    hide Relocated, Wf, SameTree;
    RelocatedTree(f, t, aside);
    SameTreeSym(f, t, f1, aside);
    forall x | !(aside <= x) && !(t <= x) ensures SameAt(f1, x, f, x) {
      RelocatedAt(f, t, aside, x);
    }
    RelocatedUnique(f1, aside, t, f);
  }

  // ---- the command ----

  /** One source of mv. aside: where an existing target is set aside; done: all of the source is at
      the target; cut: the time at which the transfer had failed. */
  method Move(v: Volumes, src: Path, t: Path) returns (ok: bool, ghost aside: Path, ghost done: bool, ghost cut: nat)
    requires v.Valid() && src != [] && t != [] && [t[0]] in v.fs
    modifies v
    ensures v.Valid() && old(v.trace) <= v.trace && old(v.clock) <= cut <= v.clock
    ensures aside == t || (IsAside(t, aside) && aside !in old(v.fs))
    ensures src in old(v.fs) && src != t ==>
      && SafeStates(v.trace, |old(v.trace)|, old(v.fs), src, t, aside) && Safe(old(v.fs), v.fs, src, t, aside)
      && (ok ==> v.fs == Moved(old(v.fs), src, t))
      && (ok ==> done)
      && (if done then SameTree(old(v.fs), src, v.fs, t) else SameTree(old(v.fs), src, v.fs, src))
      && (!done && v.Quiet(cut) ==> v.fs == old(v.fs))
      && (v.Quiet(old(v.clock)) && CanMove(old(v.fs), src, t) ==> ok)
    ensures src == t && !CannotRename(v.faults(old(v.clock))) ==> v.fs == old(v.fs)
    ensures (src == t && src in old(v.fs) && CannotRename(v.faults(old(v.clock)))
      && v.Quiet(old(v.clock) + 1)) ==> !ok && v.fs == Emptied(old(v.fs), src)
  {
    hide Wf, Safe, SafeStates, Between, BetweenStates, Cleared, Ready, Fresh, SameTree, Relocated, Moved, IsAside, StatesOutside, SameOutside;
    ghost var f, n := v.fs, |v.trace|;
    aside, done, cut := t, false, v.clock;
    if src in f && src != t {
      StartSafe(f, v.trace, src, t);
    }
    if IsInside(src, t) && src != t {
      return false, t, false, v.clock;
    }
    var old_: Path := [];
    if t in v.fs && src != t {
      if v.fs[t].Dir? {
        return false, t, false, v.clock;
      }
      var set_: bool;
      set_, old_ := SetAside(v, t);
      if !set_ {
        return false, t, false, v.clock;
      }
      aside := old_;
    }
    ghost var f1, t1 := v.fs, v.trace;
    if src in f && src != t {
      IsCleared(f, f1, old(v.trace), t1, src, t, aside);
    }
    ok, done, cut := Transfer(v, src, t);
    if src in f && src != t {
      TransferSafe(f, f1, t1, n, v.trace, v.fs, src, t, aside);
    }
    if old_ != [] {
      ghost var t2 := v.trace;
      ok := Settle(v, f, f1, src, t, old_, ok, done, cut);
      if src in f && src != t {
        SafeStatesJoin(f, n, t2, v.trace, src, t, aside);
      }
    } else if src in f && src != t {
      Completed(f, f1, src, t, aside);
    }
  }

  /** Deletes the old target after a success; else puts it back when its place is free. */
  method Settle(v: Volumes, ghost f: Tree, ghost f1: Tree, src: Path, t: Path, aside: Path, moved: bool, ghost done: bool, ghost cut: nat)
    returns (ok: bool)
    requires v.Valid() && t != [] && aside != [] && cut <= v.clock
    requires src in f && src != t ==>
      && Cleared(f, f1, src, t, aside) && t in f && Safe(f, v.fs, src, t, aside) && aside in v.fs && v.fs[aside].File?
      && (moved ==> done && v.fs == Relocated(f1, src, t))
      && (if done then SameTree(f, src, v.fs, t) else SameOutside(f1, v.fs, t))
      && (!done && v.Quiet(cut) ==> v.fs == f1)
    modifies v
    ensures v.Valid() && old(v.trace) <= v.trace && old(v.clock) <= v.clock
    ensures src in f && src != t ==>
      && SafeStates(v.trace, |old(v.trace)|, f, src, t, aside) && Safe(f, v.fs, src, t, aside)
      && (ok ==> moved && v.fs == Moved(f, src, t))
      && (if done then SameTree(f, src, v.fs, t) else SameTree(f, src, v.fs, src))
      && (!done && v.Quiet(cut) ==> v.fs == f)
      && (moved && v.Quiet(old(v.clock)) ==> ok)
  {
    hide Wf, Safe, SafeStates, Cleared, SameTree, Relocated, Moved, SameOutside;
    ghost var g, was := v.fs, v.trace;
    if src in f && src != t {
      SettleFacts(f, f1, g, was, src, t, aside, moved, done);
    }
    if moved {
      var e := v.Remove(aside);
      ok := e.Okay?;
    } else if t !in v.fs {
      var e := v.Rename(aside, t);
      ok := false;
    } else {
      ok := false;
    }
  }

  lemma SettleFacts(f: Tree, f1: Tree, g: Tree, was: seq<Tree>, src: Path, t: Path, aside: Path, moved: bool, done: bool)
    requires Cleared(f, f1, src, t, aside) && t in f && Safe(f, g, src, t, aside) && aside in g && g[aside].File? && Wf(g)
    requires moved ==> done && g == Relocated(f1, src, t)
    requires if done then SameTree(f, src, g, t) else SameOutside(f1, g, t)
    ensures SafeStates(was, |was|, f, src, t, aside) && SafeStates(was + [f], |was|, f, src, t, aside)
    ensures Safe(f, f, src, t, aside) && SameTree(f, src, f, src)
    ensures moved ==> (
      && g - {aside} == Moved(f, src, t) && Safe(f, g - {aside}, src, t, aside)
      && SameTree(f, src, g - {aside}, t) && SafeStates(was + [g - {aside}], |was|, f, src, t, aside))
    ensures |aside| > 1 && |t| > 1 && aside != t && Apart(aside, t) && Children(g, aside) == {}
    ensures t !in g ==> !done && g == f1
    ensures !done ==> SameTree(f, src, g, src)
    ensures t !in f1 && InDir(f1, t) && Relocated(f1, aside, t) == f && aside in f1
    ensures aside[0] == t[0]
  {
    hide Relocated, Wf, SameTree, Safe, Moved, SameOutside, Children, Cleared;
    StartSafe(f, was, src, t);
    SelfSafe(f, src, t, aside);
    SafeStatesPush(was, f, f, src, t, aside);
    ClearedNames(f, f1, src, t, aside);
    PutBack(f, f1, src, t, aside);
    FileHasNoChildren(g, aside);
    if moved {
      Completed(f, f1, src, t, aside);
      FinishSafe(f, f1, src, t, aside);
      SafeStatesPush(was, f, g - {aside}, src, t, aside);
    }
    if done {
      HereToo(f, g, src, t);
    } else {
      ClearedKeeps(f, f1, g, src, t, aside);
    }
  }

  lemma HereToo(f: Tree, g: Tree, src: Path, t: Path)
    requires SameTree(f, src, g, t) && src in f
    ensures t in g
  {
    SameTreeBelow(f, src, g, t, []);
  }

  lemma ClearedKeeps(f: Tree, f1: Tree, g: Tree, src: Path, t: Path, aside: Path)
    requires Cleared(f, f1, src, t, aside) && SameOutside(f1, g, t) && Wf(g)
    ensures SameTree(f, src, g, src)
    ensures t !in g ==> g == f1
  {
    hide SameTree, Relocated, Wf, Fresh;
    ApartKeeps(f1, g, src, t);
    SameTreeTrans(f, src, f1, src, g, src);
    if t !in g {
      DroppedAgain(f1, g, t);
    }
  }

  lemma SelfSafe(f: Tree, src: Path, t: Path, aside: Path)
    ensures Safe(f, f, src, t, aside)
  {
    hide Moved;
    assert SameTree(f, src, f, src);
  }

  lemma SafeStatesPush(was: seq<Tree>, f: Tree, g: Tree, src: Path, t: Path, aside: Path)
    requires Safe(f, g, src, t, aside)
    ensures SafeStates(was, |was|, f, src, t, aside) && SafeStates(was + [g], |was|, f, src, t, aside)
  {
    hide Safe;
  }

  lemma SafeStatesJoin(f: Tree, n: nat, u: seq<Tree>, w: seq<Tree>, src: Path, t: Path, aside: Path)
    requires SafeStates(u, n, f, src, t, aside) && n <= |u| && u <= w && SafeStates(w, |u|, f, src, t, aside)
    ensures SafeStates(w, n, f, src, t, aside)
  {
    hide Safe;
    forall i | n <= i < |w| ensures Safe(f, w[i], src, t, aside) {
      assert i < |u| ==> w[i] == u[i];
    }
  }

  /** Where the set-aside file and its free place are. */
  lemma ClearedNames(f: Tree, f1: Tree, src: Path, t: Path, aside: Path)
    requires Cleared(f, f1, src, t, aside) && t in f
    ensures |aside| > 1 && |t| > 1 && aside != t && Apart(aside, t) && aside in f1
    ensures t !in f1 && InDir(f1, t) && aside[0] == t[0] && src in f
  {
    hide SameTree, Relocated;
    assert InDir(f1, aside);
    var up := t[..|t| - 1];
    assert up[0] == t[0] && up[0] == aside[0];
    assert t <= t;
  }

  lemma FinishSafe(f: Tree, f1: Tree, src: Path, t: Path, aside: Path)
    requires Cleared(f, f1, src, t, aside) && t in f
    ensures Safe(f, Moved(f, src, t), src, t, aside) && SameTree(f, src, Moved(f, src, t), t)
  {
    hide Relocated, Wf, SameTree, Moved;
    var h := Relocated(f1, src, t);
    RenamedBetween(f1, src, t);
    SameTreeTrans(f, src, f1, src, h, t);
    BetweenSafe(f, f1, h, src, t, aside);
    Completed(f, f1, src, t, aside);
    WithoutAside(f, h, src, t, aside);
    var g := h - {aside};
    forall x | !(src <= x) && !(t <= x) && !(aside <= x) ensures SameAt(f, x, g, x) {
      assert SameAt(f, x, h, x);
    }
  }

  lemma WithoutAside(f: Tree, h: Tree, src: Path, t: Path, aside: Path)
    requires SameTree(f, src, h, t) && !(t <= aside)
    ensures SameTree(f, src, h - {aside}, t)
  {
    forall r: Path ensures SameAt(f, src + r, h - {aside}, t + r) {
      assert SameAt(f, src + r, h, t + r);
      assert t + r != aside;
    }
  }

  /** Nothing is in the way of a move. */
  ghost predicate CanMove(f: Tree, src: Path, t: Path)
    requires t != []
  {
    && |src| > 1 && !(src <= t) && |t| > 1 && InDir(f, t)
    && (t in f ==> f[t].File? && exists a :: IsAside(t, a) && a !in f)
  }

  lemma IsCleared(f: Tree, f1: Tree, was: seq<Tree>, t1: seq<Tree>, src: Path, t: Path, aside: Path)
    requires Wf(f) && Wf(f1) && src in f && src != t && !(src <= t) && t != [] && [t[0]] in f && (t in f ==> f[t].File?)
    requires if t in f then IsAside(t, aside) && aside !in f && f1 == Relocated(f, t, aside) && t1 == was + [f1] else aside == t && f1 == f && t1 == was
    ensures Cleared(f, f1, src, t, aside) && Ready(f1, src, t)
    ensures SafeStates(t1, |was|, f, src, t, aside) && was <= t1
    ensures CanMove(f, src, t) ==> InDir(f1, t)
  {
    hide Relocated, Wf, SameTree, Safe, Moved, IsAside;
    SelfSafe(f, src, t, aside);
    SafeStatesPush(was, f, f, src, t, aside);
    if t in f {
      ClearedAside(f, f1, src, t, aside);
      ClearedNames(f, f1, src, t, aside);
      ClearedSafe(f, f1, src, t, aside);
      BetweenSafe(f, f1, f1, src, t, aside);
      SafeStatesPush(was, f, f1, src, t, aside);
    } else {
      assert t[..1] == [t[0]];
      assert t[..|t|] == t;
      ClearedFree(f, src, t);
    }
  }

  lemma TransferSafe(f: Tree, f1: Tree, t1: seq<Tree>, n: nat, u: seq<Tree>, g: Tree, src: Path, t: Path, aside: Path)
    requires Cleared(f, f1, src, t, aside) && SafeStates(t1, n, f, src, t, aside) && n <= |t1| && t1 <= u && Wf(g)
    requires BetweenStates(u, |t1|, f1, src, t) && (Between(f1, g, src, t) || SameOutside(f1, g, t))
    ensures SafeStates(u, n, f, src, t, aside) && Safe(f, g, src, t, aside)
    ensures t in f ==> aside in g && g[aside].File?
    ensures SameTree(f1, src, g, t) ==> SameTree(f, src, g, t)
    ensures SameOutside(f1, g, t) ==> SameTree(f, src, g, src)
  {
    hide Relocated, Wf, SameTree, Safe, Moved, Between, SameOutside, BetweenStates, SafeStates;
    BetweenStatesSafe(f, f1, u, |t1|, src, t, aside);
    SafeStatesJoin(f, n, t1, u, src, t, aside);
    if SameOutside(f1, g, t) {
      NotYetBetween(f1, g, src, t);
      ClearedKeeps(f, f1, g, src, t, aside);
    }
    BetweenSafe(f, f1, g, src, t, aside);
    if SameTree(f1, src, g, t) {
      SameTreeTrans(f, src, f1, src, g, t);
    }
  }

  lemma StartSafe(f: Tree, u: seq<Tree>, src: Path, t: Path)
    ensures SafeStates(u, |u|, f, src, t, t) && Safe(f, f, src, t, t) && SameTree(f, src, f, src)
  {
  }

  /** For every source, a file system that cannot rename makes moving it onto itself delete it: the
      refused copy is taken for a partial one and dropped. Only the root of a volume itself stays, but
      nothing in it. */
  method MoveOntoItself(f: Tree, src: Path) returns (v: Volumes)
    requires Wf(f) && src in f
    ensures v.fs == Emptied(f, src) && fresh(v)
    ensures |src| > 1 || Children(f, src) != {} ==> !SameTree(f, src, v.fs, src)
  {
    hide Children, SameTree, Wf;
    NotRoot(f, src);
    v := new Volumes(f, (i: nat) => if i == 0 then Fault(NotSupported, 0) else Fine);
    VolumeKnown(f, src);
    var ok, _, _, _ := Move(v, src, src);
    if |src| > 1 || Children(f, src) != {} {
      EmptiedLost(f, src);
    }
  }

  lemma EmptiedLost(f: Tree, p: Path)
    requires p in f && p != [] && (|p| > 1 || Children(f, p) != {})
    ensures !SameTree(f, p, Emptied(f, p), p)
  {
    var r: Path := [];
    if |p| == 1 {
      var n :| n in Children(f, p);
      r := [n];
      assert p + [n] in f;
    } else {
      assert p + [] == p;
    }
    assert p + r in f && |p + r| > 1 && p <= p + r;
    assert !SameAt(f, p + r, Emptied(f, p), p + r);
  }
}
