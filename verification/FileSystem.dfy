/** The file operations the commands use. Any of them may fail: the faults of a run are an arbitrary
    function of time, and every state the file system passes through is kept. */
module FileSystem {
  import opened FileTree

  datatype Error = NotFound | Access | Exists | NotDir | IsDir | NoSpace | Io | Invalid
    | NotSupported | NotEmpty | ReadOnly | Abort

  datatype Status = Okay | Failed(error: Error)

  /** What happens to one operation. A failing write may have written some of its data. */
  datatype Fault = Fine | Fault(error: Error, written: nat)

  class Volumes {
    var fs: Tree
    var clock: nat
    const faults: nat -> Fault
    ghost var trace: seq<Tree>

    ghost predicate Valid()
      reads this
    {
      Wf(fs) && trace != [] && trace[|trace| - 1] == fs
    }

    /** No operation fails from time t on. */
    ghost predicate Quiet(t: nat)
      reads this
    {
      forall i: nat :: i >= t ==> faults(i).Fine?
    }

    constructor (f: Tree, when: nat -> Fault)
      requires Wf(f)
      ensures Valid() && fs == f && clock == 0 && faults == when
    {
      fs := f;
      clock := 0;
      faults := when;
      trace := [f];
    }

    /** Whether the next operation fails. Also stands for the question whether Ctrl-C was pressed. */
    method Next() returns (f: Fault)
      modifies this`clock
      ensures clock == old(clock) + 1 && f == faults(old(clock))
    {
      f := faults(clock);
      clock := clock + 1;
    }

    /** An operation that reads: it can only fail. */
    method Poll() returns (e: Status)
      modifies this`clock
      ensures clock == old(clock) + 1
      ensures e.Okay? <==> faults(old(clock)).Fine?
    {
      var f := Next();
      e := if f.Fine? then Okay else Failed(f.error);
    }

    method Set(f: Tree)
      requires Wf(f) && trace != []
      modifies this`fs, this`trace
      ensures Valid() && fs == f && trace == old(trace) + [f]
    {
      fs := f;
      trace := trace + [f];
    }

    /** Opens a file for reading. */
    method OpenRead(p: Path) returns (e: Status)
      modifies this`clock
      ensures clock == old(clock) + 1
      ensures e.Okay? <==> faults(old(clock)).Fine? && p in fs && fs[p].File?
    {
      var f := Next();
      if f.Fault? {
        return Failed(f.error);
      }
      e := if p !in fs then Failed(NotFound) else if fs[p].Dir? then Failed(IsDir) else Okay;
    }

    /** Opens a file for writing, and creates or empties it. */
    method OpenWrite(p: Path) returns (e: Status)
      requires Valid() && p != []
      modifies this
      ensures Valid() && clock == old(clock) + 1
      ensures e.Okay? <==> faults(old(clock)).Fine? && |p| > 1 && InDir(old(fs), p) && (p in old(fs) ==> old(fs)[p].File?)
      ensures e.Okay? ==> fs == old(fs)[p := File("")] && trace == old(trace) + [fs]
      ensures e.Failed? ==> fs == old(fs) && trace == old(trace)
    {
      var f := Next();
      if f.Fault? {
        return Failed(f.error);
      }
      if |p| == 1 || (p in fs && fs[p].Dir?) {
        return Failed(IsDir);
      }
      if !InDir(fs, p) {
        return Failed(NotFound);
      }
      FileIsNoParent(fs, p);
      Set(fs[p := File("")]);
      e := Okay;
    }

    /** Writes at the end of an open file. */
    method Append(p: Path, data: string) returns (e: Status)
      requires Valid() && p in fs && fs[p].File?
      modifies this
      ensures Valid() && clock == old(clock) + 1
      ensures e.Okay? <==> faults(old(clock)).Fine?
      ensures trace == old(trace) + [fs] && p in fs && fs[p].File? && fs == old(fs)[p := fs[p]]
      ensures e.Okay? ==> fs[p].data == old(fs)[p].data + data
    {
      var f := Next();
      var n := if f.Fine? || f.written > |data| then |data| else f.written;
      FileIsNoParent(fs, p);
      Set(fs[p := File(fs[p].data + data[..n])]);
      assert f.Fine? ==> data[..n] == data;
      e := if f.Fine? then Okay else Failed(f.error);
    }

    method MkDir(p: Path) returns (e: Status)
      requires Valid() && p != []
      modifies this
      ensures Valid() && clock == old(clock) + 1
      ensures e.Okay? <==> faults(old(clock)).Fine? && p !in old(fs) && |p| > 1 && InDir(old(fs), p)
      ensures e == Failed(Exists) ==> p in fs
      ensures e.Okay? ==> fs == old(fs)[p := Dir] && trace == old(trace) + [fs]
      ensures e.Failed? ==> fs == old(fs) && trace == old(trace)
    {
      var f := Next();
      if f.Fault? {
        return Failed(if f.error == Exists then Io else f.error);
      }
      if p in fs {
        return Failed(Exists);
      }
      if |p| == 1 || !InDir(fs, p) {
        return Failed(NotFound);
      }
      Set(fs[p := Dir]);
      e := Okay;
    }

    /** Removes a file or an empty directory. */
    method Remove(p: Path) returns (e: Status)
      requires Valid() && p != []
      modifies this
      ensures Valid() && clock == old(clock) + 1
      ensures e.Okay? <==> faults(old(clock)).Fine? && p in old(fs) && |p| > 1 && Children(old(fs), p) == {}
      ensures e.Okay? ==> fs == old(fs) - {p} && trace == old(trace) + [fs]
      ensures e.Failed? ==> fs == old(fs) && trace == old(trace)
    {
      var f := Next();
      if f.Fault? {
        return Failed(f.error);
      }
      if p !in fs {
        return Failed(NotFound);
      }
      if |p| == 1 {
        return Failed(Access);
      }
      if Children(fs, p) != {} {
        return Failed(NotEmpty);
      }
      LeafRemoved(fs, p);
      Set(fs - {p});
      e := Okay;
    }

    /** Renames within a volume. Between volumes it is not supported, and a file system that cannot
        rename says the same. */
    method Rename(a: Path, b: Path) returns (e: Status)
      requires Valid() && a != [] && b != []
      modifies this
      ensures Valid() && old(clock) <= clock <= old(clock) + 1
      ensures e.Okay? <==>
        && a[0] == b[0] && faults(old(clock)).Fine? && |a| > 1 && a in old(fs)
        && (a == b || (Apart(a, b) && |b| > 1 && b !in old(fs) && InDir(old(fs), b)))
      ensures e.Okay? ==> fs == (if a == b then old(fs) else Relocated(old(fs), a, b)) && trace == old(trace) + [fs]
      ensures e.Failed? ==> fs == old(fs) && trace == old(trace)
      ensures [a[0]] in fs && [b[0]] in fs && a[0] != b[0] ==> e == Failed(NotSupported) && clock == old(clock)
      ensures [a[0]] in fs && a[0] == b[0] && faults(old(clock)).Fault? ==>
        e == Failed(faults(old(clock)).error) && clock == old(clock) + 1
      ensures e == Failed(NotSupported) ==> a[0] != b[0] || faults(old(clock)).Fault?
      ensures e == Failed(NotSupported) && a[0] == b[0] ==> faults(old(clock)).error == NotSupported
    {
      if [a[0]] !in fs || [b[0]] !in fs {
        assert a in fs ==> [a[0]] in fs by { if a in fs { Ancestors(fs, [a[0]], a); } }
        return Failed(NotFound);
      }
      if a[0] != b[0] {
        return Failed(NotSupported);
      }
      var f := Next();
      if f.Fault? {
        return Failed(f.error);
      }
      if a !in fs {
        return Failed(NotFound);
      }
      if |a| == 1 {
        return Failed(Access);
      }
      if a == b {
        Set(fs);
        return Okay;
      }
      if b in fs {
        return Failed(Access);
      }
      if !Apart(a, b) || |b| == 1 {
        return Failed(Invalid);
      }
      if !InDir(fs, b) {
        return Failed(NotFound);
      }
      AbsentIsFresh(fs, b);
      RelocatedWf(fs, a, b);
      Set(Relocated(fs, a, b));
      e := Okay;
    }
  }

  lemma FileIsNoParent(f: Tree, p: Path)
    requires Wf(f) && |p| > 1 && InDir(f, p) && (p in f ==> f[p].File?)
    ensures forall d :: Wf(f[p := File(d)])
  {
    forall d ensures Wf(f[p := File(d)]) {
      var g := f[p := File(d)];
      forall x | x in g ensures x != [] && (|x| == 1 ==> g[x].Dir?) && (|x| > 1 ==> InDir(g, x)) {
        if x in f && |x| > 1 {
          assert InDir(f, x);
        }
      }
    }
  }

  lemma NoChild(f: Tree, p: Path, x: Path)
    requires Children(f, p) == {} && x in f && x != []
    ensures x[..|x| - 1] != p
  {
    var n := x[|x| - 1];
    assert x == x[..|x| - 1] + [n];
    assert n !in Children(f, p);
  }

  lemma LeafRemoved(f: Tree, p: Path)
    requires Wf(f) && |p| > 1 && Children(f, p) == {}
    ensures Wf(f - {p})
  {
    hide Children;
    var g := f - {p};
    forall x | x in g ensures x != [] && (|x| == 1 ==> g[x].Dir?) && (|x| > 1 ==> InDir(g, x)) {
      if |x| > 1 {
        assert InDir(f, x);
        NoChild(f, p, x);
      }
    }
  }
}
