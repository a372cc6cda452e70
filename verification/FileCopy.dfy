/** Copying and removing trees: what the copy and remove steps of cp, mv and rm leave behind, whatever fails. */
module FileCopy {
  import opened FileTree
  import opened FileSystem

  const CHUNK: nat := 256 * 1024

  /** From the n-th state on, the states differ from f at or below p only. */
  ghost predicate StatesOutside(trace: seq<Tree>, n: nat, f: Tree, p: Path) {
    forall i :: n <= i < |trace| ==> SameOutside(f, trace[i], p)
  }

  lemma StatesExtend(t: seq<Tree>, n: nat, f: Tree, p: Path, u: seq<Tree>, g: Tree, q: Path)
    requires StatesOutside(t, n, f, p) && t <= u && n <= |t|
    requires StatesOutside(u, |t|, g, q) && SameOutside(f, g, p) && p <= q
    ensures StatesOutside(u, n, f, p)
  {
    forall i | n <= i < |u| ensures SameOutside(f, u[i], p) {
      if i >= |t| {
        OutsideWiden(g, u[i], p, q);
        OutsideTrans(f, g, u[i], p);
      } else {
        assert u[i] == t[i];
      }
    }
  }

  predicate IsInside(parent: Path, child: Path) {
    parent <= child
  }

  /** f and g differ at the file p only, which exists in g. */
  ghost predicate OnlyFile(f: Tree, g: Tree, p: Path) {
    p in g && g[p].File? && g == f[p := g[p]]
  }

  ghost predicate OnlyFileStates(trace: seq<Tree>, n: nat, f: Tree, p: Path) {
    forall i :: n <= i < |trace| ==> OnlyFile(f, trace[i], p)
  }

  lemma OnlyFileOutside(t: seq<Tree>, n: nat, f: Tree, p: Path)
    requires OnlyFileStates(t, n, f, p)
    ensures StatesOutside(t, n, f, p)
  {
  }

  lemma OnlyFileOpened(t: seq<Tree>, f: Tree, p: Path)
    ensures OnlyFile(f, f[p := File("")], p) && OnlyFileStates(t + [f[p := File("")]], |t|, f, p)
  {
  }

  lemma OnlyFileWritten(t: seq<Tree>, n: nat, f: Tree, p: Path, g: Tree, h: Tree)
    requires OnlyFileStates(t, n, f, p) && OnlyFile(f, g, p) && p in h && h[p].File? && h == g[p := h[p]]
    ensures OnlyFile(f, h, p) && OnlyFileStates(t + [h], n, f, p)
  {
  }

  lemma OnlyFileOutsideAt(f: Tree, g: Tree, p: Path)
    requires OnlyFile(f, g, p)
    ensures SameOutside(f, g, p) && SameOutside(f, g - {p}, p)
    ensures forall x :: x in g && x !in f ==> x == p
  {
  }

  lemma StatesPush(t: seq<Tree>, n: nat, f: Tree, p: Path, h: Tree)
    requires StatesOutside(t, n, f, p) && SameOutside(f, h, p)
    ensures StatesOutside(t + [h], n, f, p)
  {
  }

  lemma Unchanged(f: Tree, p: Path)
    ensures SameOutside(f, f, p)
  {
  }

  lemma FileHasNoChildren(f: Tree, p: Path)
    requires Wf(f) && p != [] && p in f && f[p].File?
    ensures Children(f, p) == {}
  {
    if Children(f, p) != {} {
      var n :| n in Children(f, p);
      FileIsLeaf(f, p, p + [n]);
    }
  }

  lemma NoStates(t: seq<Tree>, f: Tree, p: Path)
    ensures StatesOutside(t, |t|, f, p)
  {
  }

  /** Copies src from its start to the end of the empty file dst, a piece at a time. */
  method CopyChunks(v: Volumes, src: Path, dst: Path, ghost f0: Tree, ghost n: nat) returns (e: Status)
    requires v.Valid() && src != dst && src in v.fs && v.fs[src].File?
    requires dst in v.fs && v.fs[dst] == File("") && OnlyFile(f0, v.fs, dst) && n <= |v.trace| && OnlyFileStates(v.trace, n, f0, dst)
    modifies v
    ensures v.Valid() && v.clock >= old(v.clock) && old(v.trace) <= v.trace
    ensures OnlyFile(f0, v.fs, dst) && OnlyFileStates(v.trace, n, f0, dst)
    ensures dst in v.fs && v.fs[dst].File?
    ensures e.Okay? ==> v.fs[dst] == old(v.fs)[src]
    ensures v.Quiet(old(v.clock)) ==> e.Okay?
  {
    hide Wf, OnlyFile, OnlyFileStates, Children;
    ghost var q0 := v.clock;
    var data := v.fs[src].data;
    var pos := 0;
    var going := true;
    e := Okay;
    while going
      invariant v.Valid() && v.clock >= q0 && old(v.trace) <= v.trace
      invariant dst in v.fs && v.fs[dst].File?
      invariant OnlyFile(f0, v.fs, dst) && OnlyFileStates(v.trace, n, f0, dst)
      invariant pos <= |data|
      invariant e.Okay? ==> v.fs[dst].data == data[..pos]
      invariant going ==> e.Okay?
      invariant !going && e.Okay? ==> pos == |data|
      invariant v.Quiet(q0) ==> e.Okay?
      decreases going, |data| - pos
    {
      e := v.Poll(); // read
      if e.Failed? || pos == |data| {
        break;
      }
      var end := if |data| - pos > CHUNK then pos + CHUNK else |data|;
      ghost var t, g := v.trace, v.fs;
      e := v.Append(dst, data[pos..end]);
      OnlyFileWritten(t, n, f0, dst, g, v.fs);
      if e.Failed? {
        break;
      }
      assert data[..pos] + data[pos..end] == data[..end];
      pos := end;
      e := v.Poll(); // Ctrl-C
      if e.Failed? {
        break;
      }
    }
    assert e.Okay? ==> data[..pos] == data;
  }

  method CopyFile(v: Volumes, src: Path, dst: Path) returns (ok: bool)
    requires v.Valid() && src != [] && dst != []
    modifies v
    ensures v.Valid() && v.clock >= old(v.clock)
    ensures old(v.trace) <= v.trace && StatesOutside(v.trace, |old(v.trace)|, old(v.fs), dst)
    ensures SameOutside(old(v.fs), v.fs, dst)
    ensures forall x :: x in v.fs && x !in old(v.fs) ==> x == dst
    ensures !ok ==> v.fs == old(v.fs) || dst !in v.fs || (v.clock > 0 && v.faults(v.clock - 1).Fault?)
    ensures ok ==> src in old(v.fs) && dst in v.fs && old(v.fs)[src].File? && v.fs[dst] == old(v.fs)[src]
    ensures src == dst ==> !ok && v.fs == old(v.fs) && v.clock == old(v.clock) && v.trace == old(v.trace)
    ensures (v.Quiet(old(v.clock)) && src != dst && src in old(v.fs) && old(v.fs)[src].File?
      && dst !in old(v.fs) && |dst| > 1 && InDir(old(v.fs), dst)) ==> ok
  {
    hide Wf, OnlyFile, OnlyFileStates, StatesOutside, SameOutside, Children;
    ghost var f0, n := v.fs, |v.trace|;
    Unchanged(f0, dst);
    NoStates(v.trace, f0, dst);
    if src == dst {
      return false;
    }
    var e := v.OpenRead(src);
    if e.Failed? {
      return false;
    }
    ghost var t := v.trace;
    e := v.OpenWrite(dst);
    if e.Failed? {
      return false;
    }
    OnlyFileOpened(t, f0, dst);
    e := CopyChunks(v, src, dst, f0, n);
    OnlyFileOutside(v.trace, n, f0, dst);
    OnlyFileOutsideAt(f0, v.fs, dst);
    var closed := v.Poll();
    if e.Okay? {
      e := closed;
    }
    if e.Failed? {
      StatesPush(v.trace, n, f0, dst, v.fs - {dst});
      FileHasNoChildren(v.fs, dst);
      var removed := v.Remove(dst);
      return false;
    }
    ok := true;
  }

  // ---- removing ----

  ghost predicate Sub(f: Tree, g: Tree) {
    forall x :: x in f ==> x in g && f[x] == g[x]
  }

  /** No state after the n-th has anything that f does not have. */
  ghost predicate StatesSub(t: seq<Tree>, n: nat, f: Tree) {
    forall i :: n <= i < |t| ==> Sub(t[i], f)
  }

  lemma StatesSubPush(t: seq<Tree>, n: nat, f: Tree, g: Tree, p: Path)
    requires StatesSub(t, n, f) && Sub(g, f)
    ensures StatesSub(t + [g - {p}], n, f) && Sub(g - {p}, f)
  {
  }

  lemma StatesSubExtend(t: seq<Tree>, n: nat, f: Tree, u: seq<Tree>, g: Tree)
    requires StatesSub(t, n, f) && t <= u && n <= |t| && StatesSub(u, |t|, g) && Sub(g, f)
    ensures StatesSub(u, n, f)
  {
    forall i | n <= i < |u| ensures Sub(u[i], f) {
      assert i < |t| ==> u[i] == t[i];
    }
  }

  lemma SubStart(t: seq<Tree>, f: Tree)
    ensures StatesSub(t, |t|, f) && Sub(f, f)
  {
  }

  lemma SubBounded(f: Tree, g: Tree, p: Path, q: Path, n: nat)
    requires Bounded(g, p, n) && Sub(f, g) && p <= q
    ensures Bounded(f, q, n)
  {
  }

  lemma InBound(f: Tree, p: Path, x: Path, n: nat)
    requires Bounded(f, p, n) && p <= x && x in f
    ensures |x| <= n
  {
  }

  /** A change below one child leaves the directory and its other children alone. */
  lemma SiblingSame(f: Tree, g: Tree, p: Path, a: string)
    requires SameOutside(f, g, p + [a])
    ensures SameAt(f, p, g, p)
    ensures forall b :: b != a ==> SameAt(f, p + [b], g, p + [b])
  {
    forall b | b != a ensures SameAt(f, p + [b], g, p + [b]) {
      assert (p + [a])[|p|] != (p + [b])[|p|];
    }
  }

  lemma AllChildrenGone(f: Tree, g: Tree, p: Path, all: set<string>)
    requires Sub(f, g) && all == Children(g, p)
    requires forall c :: c in all ==> p + [c] !in f
    ensures Children(f, p) == {}
  {
  }

  lemma RemovedOutside(f: Tree, p: Path)
    ensures SameOutside(f, f - {p}, p)
  {
  }

  /** The names in a directory; a failing read ends the list early. */
  method ListNames(v: Volumes, path: Path) returns (names: set<string>)
    requires v.Valid()
    modifies v`clock
    ensures v.clock >= old(v.clock) && names <= Children(v.fs, path)
    ensures v.Quiet(old(v.clock)) ==> names == Children(v.fs, path)
  {
    hide Wf, Children;
    var left := Children(v.fs, path);
    names := {};
    var e := v.Poll();
    while left != {} && e.Okay?
      invariant v.clock >= old(v.clock)
      invariant left + names == Children(v.fs, path)
      invariant v.Quiet(old(v.clock)) ==> e.Okay?
    {
      var name :| name in left;
      left, names := left - {name}, names + {name};
      e := v.Poll();
    }
  }

  /** What a removal at p that started from f0 with n states behind it has done so far. */
  ghost predicate Removing(f0: Tree, n: nat, t: seq<Tree>, f: Tree, p: Path) {
    n <= |t| && StatesOutside(t, n, f0, p) && SameOutside(f0, f, p) && StatesSub(t, n, f0) && Sub(f, f0)
  }

  lemma RemovingStart(f: Tree, t: seq<Tree>, p: Path)
    ensures Removing(f, |t|, t, f, p)
  {
    Unchanged(f, p);
    NoStates(t, f, p);
    SubStart(t, f);
  }

  lemma RemovingMore(f0: Tree, n: nat, t: seq<Tree>, g: Tree, p: Path, u: seq<Tree>, h: Tree, q: Path)
    requires Removing(f0, n, t, g, p) && Removing(g, |t|, u, h, q) && t <= u && p <= q
    ensures Removing(f0, n, u, h, p)
  {
    hide SameOutside, StatesOutside, StatesSub;
    StatesExtend(t, n, f0, p, u, g, q);
    OutsideWiden(g, h, p, q);
    OutsideTrans(f0, g, h, p);
    StatesSubExtend(t, n, f0, u, g);
  }

  lemma RemovingOne(f0: Tree, n: nat, t: seq<Tree>, g: Tree, p: Path)
    requires Removing(f0, n, t, g, p)
    ensures Removing(f0, n, t + [g - {p}], g - {p}, p)
  {
    hide SameOutside, StatesOutside, StatesSub, Sub;
    var h := g - {p};
    RemovedOutside(g, p);
    OutsideTrans(f0, g, h, p);
    StatesPush(t, n, f0, p, h);
    StatesSubPush(t, n, f0, g, p);
  }

  /** Removes what is at and below path; a failure leaves some of it in place. */
  method RemoveTree(v: Volumes, path: Path, recursive: bool, quietMissing: bool, ghost bound: nat) returns (ok: bool)
    requires v.Valid() && path != [] && Bounded(v.fs, path, bound)
    modifies v
    ensures v.Valid() && v.clock >= old(v.clock) && old(v.trace) <= v.trace
    ensures Removing(old(v.fs), |old(v.trace)|, v.trace, v.fs, path)
    ensures ok ==> path !in v.fs
    ensures path !in old(v.fs) ==> ok == quietMissing && v.fs == old(v.fs)
    ensures v.Quiet(old(v.clock)) && recursive && |path| > 1 && path in old(v.fs) ==> ok
    ensures |path| == 1 && path in old(v.fs) ==> !ok
    ensures v.Quiet(old(v.clock)) && recursive && path in old(v.fs) && !ok ==> path in v.fs && Children(v.fs, path) == {}
    decreases bound - |path|, 1
  {
    hide Wf, Removing, Children, Bounded;
    ghost var f0, n := v.fs, |v.trace|;
    RemovingStart(f0, v.trace, path);
    if path !in v.fs {
      return quietMissing;
    }
    InBound(v.fs, path, path, bound);
    if v.fs[path].Dir? {
      if !recursive {
        return false;
      }
      var e := v.Poll(); // opendir
      if e.Failed? {
        return false;
      }
      var names := ListNames(v, path);
      var c := RemoveChildren(v, path, names, bound);
      if !c {
        return false;
      }
    } else {
      FileHasNoChildren(v.fs, path);
    }
    if |path| == 1 {
      return false;
    }
    RemovingOne(f0, n, v.trace, v.fs, path);
    var e := v.Remove(path);
    ok := e.Okay?;
  }

  method RemoveChildren(v: Volumes, path: Path, all: set<string>, ghost bound: nat) returns (ok: bool)
    requires v.Valid() && path in v.fs && path != [] && Bounded(v.fs, path, bound) && all <= Children(v.fs, path)
    modifies v
    ensures v.Valid() && v.clock >= old(v.clock) && old(v.trace) <= v.trace && path in v.fs
    ensures Removing(old(v.fs), |old(v.trace)|, v.trace, v.fs, path)
    ensures v.Quiet(old(v.clock)) ==> ok
    ensures ok && all == Children(old(v.fs), path) ==> Children(v.fs, path) == {}
    decreases bound - |path|, 0
  {
    hide Wf, Removing, Bounded, Children;
    ghost var f0, n, q0 := v.fs, |v.trace|, v.clock;
    RemovingStart(f0, v.trace, path);
    var names := all;
    ok := true;
    while names != {}
      invariant v.Valid() && v.clock >= q0 && n == |old(v.trace)| && old(v.trace) <= v.trace
      invariant Removing(f0, n, v.trace, v.fs, path)
      invariant names <= all && path in v.fs
      invariant forall c :: c in names ==> path + [c] in v.fs
      invariant ok ==> forall c :: c in all && c !in names ==> path + [c] !in v.fs
      invariant v.Quiet(q0) ==> ok
    {
      var name :| name in names;
      names := names - {name};
      ghost var t, g := v.trace, v.fs;
      ghost var sub := path + [name];
      assert path <= sub;
      RemovingBounded(f0, n, t, g, path, sub, bound);
      var c := RemoveTree(v, path + [name], true, false, bound);
      ok := ok && c;
      RemovingSibling(g, |t|, v.trace, v.fs, path, name);
      RemovingMore(f0, n, t, g, path, v.trace, v.fs, sub);
    }
    if ok && all == Children(f0, path) {
      RemovingAll(f0, n, v.trace, v.fs, path, all);
    }
  }

  lemma RemovingBounded(f0: Tree, n: nat, t: seq<Tree>, g: Tree, p: Path, q: Path, bound: nat)
    requires Removing(f0, n, t, g, p) && Bounded(f0, p, bound) && p <= q && q in g
    ensures Bounded(g, q, bound) && |q| <= bound
  {
    SubBounded(g, f0, p, q, bound);
    InBound(g, q, q, bound);
  }

  lemma RemovingSibling(g: Tree, n: nat, t: seq<Tree>, h: Tree, p: Path, a: string)
    requires Removing(g, n, t, h, p + [a])
    ensures SameAt(g, p, h, p)
    ensures forall b :: b != a ==> SameAt(g, p + [b], h, p + [b])
    ensures p + [a] !in g ==> p + [a] !in h
  {
    hide SameOutside, StatesOutside, StatesSub;
    SiblingSame(g, h, p, a);
  }

  lemma RemovingAll(f0: Tree, n: nat, t: seq<Tree>, f: Tree, p: Path, all: set<string>)
    requires Removing(f0, n, t, f, p) && all == Children(f0, p)
    requires forall c :: c in all ==> p + [c] !in f
    ensures Children(f, p) == {}
  {
    AllChildrenGone(f, f0, p, all);
  }

  // ---- copying trees ----

  /** What a copy of src to dst that started from f0 with n states behind it has done so far: all
      changes are at or below dst, and nothing new lies deeper below dst than the source is deep. */
  ghost predicate Copying(f0: Tree, n: nat, t: seq<Tree>, f: Tree, src: Path, dst: Path, bound: nat) {
    && n <= |t| && StatesOutside(t, n, f0, dst) && SameOutside(f0, f, dst)
    && forall x :: x in f && x !in f0 ==> |x| + |src| <= bound + |dst|
  }

  lemma CopyingStart(f: Tree, t: seq<Tree>, src: Path, dst: Path, bound: nat)
    ensures Copying(f, |t|, t, f, src, dst, bound)
  {
    Unchanged(f, dst);
    NoStates(t, f, dst);
  }

  lemma CopyingDir(f: Tree, t: seq<Tree>, src: Path, dst: Path, bound: nat)
    requires |src| <= bound
    ensures Copying(f, |t|, t + [f[dst := Dir]], f[dst := Dir], src, dst, bound)
  {
    var g := f[dst := Dir];
    NoStates(t, f, dst);
    assert SameOutside(f, g, dst);
    StatesPush(t, |t|, f, dst, g);
  }

  lemma CopyingMore(f0: Tree, n: nat, t: seq<Tree>, g: Tree, src: Path, dst: Path, bound: nat, u: seq<Tree>, h: Tree, a: string)
    requires Copying(f0, n, t, g, src, dst, bound) && t <= u && Copying(g, |t|, u, h, src + [a], dst + [a], bound)
    ensures Copying(f0, n, u, h, src, dst, bound)
  {
    hide SameOutside, StatesOutside;
    StatesExtend(t, n, f0, dst, u, g, dst + [a]);
    OutsideWiden(g, h, dst, dst + [a]);
    OutsideTrans(f0, g, h, dst);
  }

  lemma CopyingThen(f0: Tree, n: nat, t: seq<Tree>, g: Tree, src: Path, dst: Path, bound: nat, u: seq<Tree>, h: Tree)
    requires Copying(f0, n, t, g, src, dst, bound) && t <= u && Copying(g, |t|, u, h, src, dst, bound)
    ensures Copying(f0, n, u, h, src, dst, bound)
  {
    hide SameOutside, StatesOutside;
    StatesExtend(t, n, f0, dst, u, g, dst);
    OutsideTrans(f0, g, h, dst);
  }

  /** A copy never makes the source deeper, even into one of the directories it lies in. */
  lemma CopyingBounded(f0: Tree, n: nat, t: seq<Tree>, f: Tree, src: Path, dst: Path, bound: nat, a: string)
    requires Copying(f0, n, t, f, src, dst, bound) && Bounded(f0, src, bound) && !(src <= dst)
    ensures Bounded(f, src + [a], bound)
  {
    forall x | x in f && src + [a] <= x ensures |x| <= bound {
      assert src <= src + [a];
      if x !in f0 {
        assert dst <= x by { assert !(dst <= x) ==> SameAt(f0, x, f, x); }
        Comparable(src, dst, x);
      }
    }
  }

  /** Only the directory itself exists at dst. */
  ghost predicate Bare(f: Tree, dst: Path) {
    dst in f && f[dst].Dir? && forall x :: dst <= x && x != dst ==> x !in f
  }

  /** dst holds equal copies of the children of src that are in done, and nothing else. */
  ghost predicate CopiedTo(f1: Tree, f: Tree, src: Path, dst: Path, done: set<string>) {
    && dst in f && f[dst].Dir?
    && (forall c :: c !in done ==> Fresh(f, dst + [c]))
    && (forall c :: c in done ==> SameTree(f1, src + [c], f, dst + [c]))
  }

  lemma CopiedNone(f: Tree, src: Path, dst: Path)
    requires Bare(f, dst)
    ensures CopiedTo(f, f, src, dst, {})
  {
    forall c ensures Fresh(f, dst + [c]) {
      forall x | dst + [c] <= x ensures x !in f { assert dst <= dst + [c] <= x; }
    }
  }

  lemma CopiedOneMore(f1: Tree, g: Tree, h: Tree, src: Path, dst: Path, done: set<string>, a: string)
    requires CopiedTo(f1, g, src, dst, done) && a !in done && Apart(src, dst)
    requires SameOutside(f1, g, dst) && SameOutside(g, h, dst + [a]) && SameTree(g, src + [a], h, dst + [a])
    ensures CopiedTo(f1, h, src, dst, done + {a})
  {
    hide SameTree, SameOutside, Fresh;
    SiblingSame(g, h, dst, a);
    forall c | c !in done && c != a ensures Fresh(h, dst + [c]) {
      SiblingApart(dst, a, c);
      ApartKeeps(g, h, dst + [c], dst + [a]);
      FreshSame(g, h, dst + [c]);
    }
    forall c | c in done ensures SameTree(f1, src + [c], h, dst + [c]) {
      SiblingApart(dst, a, c);
      ApartKeeps(g, h, dst + [c], dst + [a]);
      SameTreeTrans(f1, src + [c], g, dst + [c], h, dst + [c]);
    }
    ApartKeeps(f1, g, src, dst);
    SameTreeBelow(f1, src, g, src, [a]);
    SameTreeTrans(f1, src + [a], g, src + [a], h, dst + [a]);
  }

  lemma SiblingApart(p: Path, a: string, b: string)
    requires a != b
    ensures Apart(p + [a], p + [b])
  {
    assert (p + [a])[|p|] != (p + [b])[|p|];
  }

  lemma FreshSame(f: Tree, g: Tree, p: Path)
    requires SameTree(f, p, g, p) && Fresh(f, p)
    ensures Fresh(g, p)
  {
    forall x | p <= x ensures x !in g {
      assert x == p + x[|p|..];
      assert SameAt(f, p + x[|p|..], g, p + x[|p|..]);
    }
  }

  lemma CopiedAll(f1: Tree, f: Tree, src: Path, dst: Path)
    requires Wf(f1) && src != [] && src in f1 && f1[src].Dir? && CopiedTo(f1, f, src, dst, Children(f1, src))
    ensures SameTree(f1, src, f, dst)
  {
    hide Wf, Children;
    forall r: Path ensures SameAt(f1, src + r, f, dst + r) {
      if r == [] {
        assert src + r == src && dst + r == dst;
      } else {
        var c, q := r[0], r[1..];
        assert src + [c] + q == src + r && dst + [c] + q == dst + r;
        if c in Children(f1, src) {
          assert SameTree(f1, src + [c], f, dst + [c]);
          assert SameAt(f1, src + [c] + q, f, dst + [c] + q);
        } else {
          assert Fresh(f, dst + [c]);
          AbsentIsFresh(f1, src + [c]);
        }
      }
    }
  }

  lemma FileCopied(f0: Tree, f: Tree, src: Path, dst: Path)
    requires Wf(f0) && Wf(f) && src != [] && dst != []
    requires src in f0 && f0[src].File? && dst in f && f[dst] == f0[src]
    ensures SameTree(f0, src, f, dst)
  {
    forall r: Path ensures SameAt(f0, src + r, f, dst + r) {
      if r == [] {
        assert src + r == src && dst + r == dst;
      } else {
        FileIsLeaf(f0, src, src + r);
        FileIsLeaf(f, dst, dst + r);
      }
    }
  }

  method CopyTree(v: Volumes, src: Path, dst: Path, recursive: bool, ghost bound: nat) returns (ok: bool)
    requires v.Valid() && src != [] && dst != [] && Bounded(v.fs, src, bound)
    modifies v
    ensures v.Valid() && v.clock >= old(v.clock) && old(v.trace) <= v.trace
    ensures Copying(old(v.fs), |old(v.trace)|, v.trace, v.fs, src, dst, bound)
    ensures ok ==> src in old(v.fs) && (recursive || old(v.fs)[src].File?)
    ensures ok && Fresh(old(v.fs), dst) ==> SameTree(old(v.fs), src, v.fs, dst)
    ensures src == dst ==> !ok && v.fs == old(v.fs) && v.clock == old(v.clock) && v.trace == old(v.trace)
    ensures (v.Quiet(old(v.clock)) && src in old(v.fs) && !(src <= dst) && |dst| > 1 && InDir(old(v.fs), dst)
      && Fresh(old(v.fs), dst) && (recursive || old(v.fs)[src].File?)) ==> ok
    decreases bound - |src|, 2
  {
    hide Wf, Copying, Children, Bounded, Fresh, SameTree;
    ghost var f0, t0 := v.fs, v.trace;
    CopyingStart(f0, t0, src, dst, bound);
    if src !in v.fs {
      return false;
    }
    InBound(v.fs, src, src, bound);
    if v.fs[src].File? {
      ok := CopyFile(v, src, dst);
      CopyingFile(f0, t0, v.trace, v.fs, src, dst, bound);
      if ok {
        FileCopied(f0, v.fs, src, dst);
      }
      FreshHere(f0, dst);
      return;
    }
    if !recursive {
      return false;
    }
    if IsInside(src, dst) {
      return false;
    }
    var e := v.MkDir(dst);
    if e.Failed? && e.error != Exists {
      FreshHere(f0, dst);
      return false;
    }
    if e.Okay? {
      CopyingDir(f0, t0, src, dst, bound);
    }
    FreshHere(f0, dst);
    ghost var f1, t1 := v.fs, v.trace;
    assert src in v.fs && v.fs[src].Dir?;
    e := v.Poll(); // opendir
    if e.Failed? {
      return false;
    }
    assert Bounded(f1, src, bound) by { BoundedKept(f0, |t0|, t1, f1, src, dst, bound); }
    ok := CopyChildren(v, src, dst, bound);
    CopyingThen(f0, |t0|, t1, f1, src, dst, bound, v.trace, v.fs);
    if Fresh(f0, dst) {
      MadeDir(f0, f1, src, dst);
      if ok {
        SameTreeTrans(f0, src, f1, src, v.fs, dst);
      }
    }
  }

  method CopyChildren(v: Volumes, src: Path, dst: Path, ghost bound: nat) returns (ok: bool)
    requires v.Valid() && src in v.fs && src != [] && dst != [] && v.fs[src].Dir? && !(src <= dst) && Bounded(v.fs, src, bound)
    modifies v
    ensures v.Valid() && v.clock >= old(v.clock) && old(v.trace) <= v.trace
    ensures Copying(old(v.fs), |old(v.trace)|, v.trace, v.fs, src, dst, bound)
    ensures ok && Bare(old(v.fs), dst) && Apart(src, dst) ==> SameTree(old(v.fs), src, v.fs, dst)
    ensures v.Quiet(old(v.clock)) && Bare(old(v.fs), dst) && Apart(src, dst) ==> ok
    decreases bound - |src|, 1
  {
    hide Wf, Copying, Bounded, Children, Fresh, SameTree, Bare, CopiedTo;
    ghost var f1, n, q0 := v.fs, |v.trace|, v.clock;
    ghost var bare := Bare(f1, dst) && Apart(src, dst);
    CopyingStart(f1, v.trace, src, dst, bound);
    InBound(f1, src, src, bound);
    if bare {
      CopiedNone(f1, src, dst);
    }
    var names := Children(v.fs, src);
    ghost var all := names;
    ok := true;
    var e := v.Poll(); // readdir
    assert all - names == {};
    while names != {} && e.Okay?
      invariant v.Valid() && v.clock >= q0 && n == |old(v.trace)| && old(v.trace) <= v.trace
      invariant Copying(f1, n, v.trace, v.fs, src, dst, bound)
      invariant names <= all
      invariant bare && ok ==> CopiedTo(f1, v.fs, src, dst, all - names)
      invariant bare && v.Quiet(q0) ==> e.Okay? && ok
    {
      var name :| name in names;
      ghost var done := all - names;
      names := names - {name};
      ok := CopyChild(v, src, dst, bound, f1, n, name, done, bare, ok);
      assert all - names == done + {name};
      e := v.Poll(); // Ctrl-C
      if e.Failed? {
        return false;
      }
      e := v.Poll(); // readdir
    }
    ok := ok && e.Okay?;
    if ok && bare {
      assert all - names == all;
      CopiedAll(f1, v.fs, src, dst);
    }
  }

  /** Copies one entry of a directory; sofar tells whether the entries before it were copied. */
  method CopyChild(v: Volumes, src: Path, dst: Path, ghost bound: nat, ghost f1: Tree, ghost n: nat,
                   name: string, ghost done: set<string>, ghost bare: bool, sofar: bool) returns (ok: bool)
    requires v.Valid() && Wf(f1) && Copying(f1, n, v.trace, v.fs, src, dst, bound) && Bounded(f1, src, bound)
    requires src != [] && dst != [] && !(src <= dst) && |src| <= bound && (bare ==> Apart(src, dst))
    requires name in Children(f1, src) && name !in done && (bare && sofar ==> CopiedTo(f1, v.fs, src, dst, done))
    modifies v
    ensures v.Valid() && v.clock >= old(v.clock) && old(v.trace) <= v.trace
    ensures Copying(f1, n, v.trace, v.fs, src, dst, bound)
    ensures bare && ok ==> CopiedTo(f1, v.fs, src, dst, done + {name})
    ensures ok ==> sofar
    ensures bare && sofar && v.Quiet(old(v.clock)) ==> ok
    decreases bound - |src|, 0
  {
    hide Wf, Copying, Bounded, Children, Fresh, SameTree, CopiedTo;
    ghost var t, g := v.trace, v.fs;
    CopyingBounded(f1, n, t, g, src, dst, bound, name);
    var c := CopyTree(v, src + [name], dst + [name], true, bound);
    if bare && sofar {
      ChildReady(f1, n, t, g, src, dst, bound, done, name);
      if c {
        ChildCopied(f1, n, t, g, src, dst, bound, v.trace, v.fs, done, name);
      }
    }
    CopyingMore(f1, n, t, g, src, dst, bound, v.trace, v.fs, name);
    ok := sofar && c;
  }

  lemma ChildReady(f1: Tree, n: nat, t: seq<Tree>, g: Tree, src: Path, dst: Path, bound: nat, done: set<string>, a: string)
    requires Wf(f1) && Copying(f1, n, t, g, src, dst, bound) && CopiedTo(f1, g, src, dst, done) && Apart(src, dst)
    requires a !in done && a in Children(f1, src)
    ensures Fresh(g, dst + [a]) && InDir(g, dst + [a]) && src + [a] in g && !(src + [a] <= dst + [a])
  {
    ApartKeeps(f1, g, src, dst);
    SameTreeBelow(f1, src, g, src, [a]);
    assert (dst + [a])[..|dst|] == dst;
    if src + [a] <= dst + [a] {
      Comparable(src, dst, dst + [a]);
    }
  }

  lemma ChildCopied(f1: Tree, n: nat, t: seq<Tree>, g: Tree, src: Path, dst: Path, bound: nat, u: seq<Tree>, h: Tree, done: set<string>, a: string)
    requires Copying(f1, n, t, g, src, dst, bound) && Copying(g, |t|, u, h, src + [a], dst + [a], bound)
    requires CopiedTo(f1, g, src, dst, done) && a !in done && Apart(src, dst) && SameTree(g, src + [a], h, dst + [a])
    ensures CopiedTo(f1, h, src, dst, done + {a})
  {
    CopiedOneMore(f1, g, h, src, dst, done, a);
  }

  lemma CopyingFile(f0: Tree, t: seq<Tree>, u: seq<Tree>, f: Tree, src: Path, dst: Path, bound: nat)
    requires t <= u && StatesOutside(u, |t|, f0, dst) && SameOutside(f0, f, dst) && |src| <= bound
    requires forall x :: x in f && x !in f0 ==> x == dst
    ensures Copying(f0, |t|, u, f, src, dst, bound)
  {
  }

  lemma FreshHere(f: Tree, p: Path)
    ensures Fresh(f, p) ==> p !in f
  {
  }

  lemma BoundedKept(f0: Tree, n: nat, t: seq<Tree>, f: Tree, src: Path, dst: Path, bound: nat)
    requires Copying(f0, n, t, f, src, dst, bound) && Bounded(f0, src, bound) && !(src <= dst)
    ensures Bounded(f, src, bound)
  {
    forall x | x in f && src <= x ensures |x| <= bound {
      if x !in f0 {
        assert dst <= x by { assert !(dst <= x) ==> SameAt(f0, x, f, x); }
        Comparable(src, dst, x);
      }
    }
  }

  lemma MadeDir(f0: Tree, f1: Tree, src: Path, dst: Path)
    requires Fresh(f0, dst) && f1 == f0[dst := Dir] && src in f0 && !(src <= dst)
    ensures Bare(f1, dst) && Apart(src, dst) && SameTree(f0, src, f1, src)
  {
    assert SameOutside(f0, f1, dst);
    ApartKeeps(f0, f1, src, dst);
  }
}
