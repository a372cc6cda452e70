/** Writing a block: counting symbols, choosing the trees, sending the headers and the tokens. */
module Encoder {
  import opened Bits
  import opened BitIO
  import opened Canonical
  import opened Trees
  import opened HuffmanTrees
  import opened Huffman
  import opened Headers
  import opened Runs
  import opened Lz
  import opened Blocks

  // ---- symbol counts ----

  function Occ(syms: seq<nat>, s: nat): nat {
    if syms == [] then 0 else Occ(syms[..|syms| - 1], s) + (if syms[|syms| - 1] == s then 1 else 0)
  }

  /** f holds the number of occurrences of every symbol. */
  ghost predicate IsFreq(f: seq<nat>, syms: seq<nat>) {
    && (forall s :: 0 <= s < |f| ==> f[s] == Occ(syms, s))
    && Sum(f) == |syms|
  }

  lemma {:induction false} SumUpdate(f: seq<nat>, s: nat, x: nat)
    requires s < |f|
    ensures Sum(f[s := x]) == Sum(f) - f[s] + x
  {
    var n := |f| - 1;
    if s < n {
      SumUpdate(f[..n], s, x);
      assert f[s := x][..n] == f[..n][s := x];
    } else {
      assert f[s := x][..n] == f[..n];
    }
  }

  lemma {:induction false} SumZeros(n: nat)
    ensures Sum(Zeros(n)) == 0
  {
    if n > 0 {
      SumZeros(n - 1);
      assert Zeros(n)[..n - 1] == Zeros(n - 1);
    }
  }

  lemma NoSyms(n: nat)
    ensures IsFreq(Zeros(n), [])
  {
    SumZeros(n);
  }

  lemma OneMore(f: seq<nat>, syms: seq<nat>, s: nat)
    requires IsFreq(f, syms) && s < |f|
    ensures IsFreq(f[s := f[s] + 1], syms + [s])
  {
    SumUpdate(f, s, f[s] + 1);
    assert (syms + [s])[..|syms|] == syms;
  }

  lemma {:induction false} OccUsed(syms: seq<nat>, k: nat)
    requires k < |syms|
    ensures Occ(syms, syms[k]) > 0
  {
    if k < |syms| - 1 {
      OccUsed(syms[..|syms| - 1], k);
    }
  }

  lemma FreqUsed(f: seq<nat>, syms: seq<nat>)
    requires IsFreq(f, syms) && forall k :: 0 <= k < |syms| ==> syms[k] < |f|
    ensures forall k :: 0 <= k < |syms| ==> f[syms[k]] > 0
  {
    forall k | 0 <= k < |syms|
      ensures f[syms[k]] > 0
    {
      OccUsed(syms, k);
    }
  }

  // ---- trees ----

  /** The tree for the frequencies f: a single symbol when only one is used (none, if none is),
      else a complete code. */
  ghost predicate TreeFor(f: seq<nat>, t: Tree, none: int) {
    && |t.lens| == |f|
    && (Used(f) < 2 ==> t.lens == Zeros(|f|))
    && (Used(f) == 0 ==> t.single == none)
    && (Used(f) == 1 ==> 0 <= t.single < |f| && f[t.single] > 0)
    && (Used(f) >= 2 ==> t.single == -1 && CodeLengths(f, t.lens))
  }

  lemma {:induction false} TwoUsed(f: seq<nat>, s: nat, n: nat)
    requires s < |f| && f[s] > 0 && n <= |f|
    ensures s < n ==> UsedCount(f, n) >= 1
    ensures forall r :: 0 <= r < s < n && f[r] > 0 ==> UsedCount(f, n) >= 2
    ensures forall r :: 0 <= r < n && f[r] > 0 ==> UsedCount(f, n) >= 1
    ensures forall r :: s < r < n && f[r] > 0 ==> UsedCount(f, n) >= 2
  {
    if n > 0 {
      TwoUsed(f, s, n - 1);
    }
  }

  lemma TreeCodes(f: seq<nat>, t: Tree, none: int, s: nat)
    requires TreeFor(f, t, none) && s < |f| && f[s] > 0
    ensures Codes(t, s)
  {
    TwoUsed(f, s, |f|);
  }

  lemma TreeSendable(f: seq<nat>, t: Tree, none: int, nbit: nat)
    requires TreeFor(f, t, none) && |f| < Pow2(nbit)
    requires Used(f) > 0 || none == 0
    ensures Sendable(t, |f|, nbit)
  {
  }

  method MakeTree(f: seq<nat>, none: int) returns (t: Tree)
    requires |f| <= NC && Sum(f) < 0x1_0000_0000
    ensures TreeFor(f, t, none)
  {
    var len := new nat[|f|];
    HuffLengths(f, len);
    var used, single := 0, -1;
    for i := 0 to |f|
      invariant used == UsedCount(f, i)
      invariant used > 0 ==> 0 <= single < i && f[single] > 0
    {
      if f[i] > 0 {
        used := used + 1;
        single := i;
      }
    }
    if used != 1 {
      single := if used > 0 then -1 else none;
    }
    assert Unused(len[..]) ==> len[..] == Zeros(|f|);
    t := Tree(len[..], single);
  }

  ghost predicate CodeTable(t: Tree, codes: seq<nat>) {
    t.single < 0 ==>
      |codes| == |t.lens| && forall i :: 0 <= i < |codes| && t.lens[i] > 0 ==> codes[i] == U16(CodeVal(t.lens, i))
  }

  method CodesFor(t: Tree) returns (codes: seq<nat>)
    requires t.single < 0 ==> Bounded(t.lens)
    ensures CodeTable(t, codes)
  {
    codes := [];
    if t.single < 0 {
      codes := CanonCodes(t.lens);
    }
  }

  /** Sends one symbol, unless the tree has a single one. */
  method PutSym(w: BitWriter, t: Tree, codes: seq<nat>, s: nat)
    requires w.Valid() && Codes(t, s) && CodeTable(t, codes)
    modifies w
    ensures w.Valid() && w.Contents() == old(w.Contents()) + EncodeSym(t, s)
  {
    if t.single < 0 {
      CodeFits(t.lens, s);
      w.PutBits(t.lens[s], codes[s]);
    }
  }

  // ---- headers ----

  method FindTrim(lens: seq<nat>) returns (n: nat)
    ensures n == Trim(lens, |lens|)
  {
    n := |lens|;
    while n > 0 && lens[n - 1] == 0
      invariant n <= |lens| && Trim(lens, n) == Trim(lens, |lens|)
    {
      n := n - 1;
    }
  }

  method WriteLen(w: BitWriter, k: nat)
    requires w.Valid() && k <= MAXLEN
    modifies w
    ensures w.Valid() && w.Contents() == old(w.Contents()) + LenBits(k)
  {
    if k <= 6 {
      w.PutBits(3, k);
    } else {
      w.PutBits(k - 3, Pow2(k - 3) - 2);
    }
  }

  method WritePt(w: BitWriter, t: Tree, nbit: nat, special: int)
    requires w.Valid() && Sendable(t, |t.lens|, nbit) && nbit <= 32
    modifies w
    ensures w.Valid() && w.Contents() == old(w.Contents()) + PtBits(t, nbit, special)
  {
    hide BitsOf;
    ghost var start := w.Contents();
    if t.single >= 0 {
      w.PutBits(nbit, 0);
      w.PutBits(nbit, t.single);
      Assoc(start, BitsOf(0, nbit), BitsOf(t.single, nbit));
    } else {
      var n := FindTrim(t.lens);
      w.PutBits(nbit, n);
      WriteLens(w, t.lens, n, special);
      Assoc(start, BitsOf(n, nbit), LensBits(t.lens, n, special, 0));
    }
  }

  method WriteLens(w: BitWriter, lens: seq<nat>, n: nat, special: int)
    requires w.Valid() && n <= |lens| && Bounded(lens)
    modifies w
    ensures w.Valid() && w.Contents() == old(w.Contents()) + LensBits(lens, n, special, 0)
  {
    var i := 0;
    while i < n
      invariant i <= n && w.Valid()
      invariant w.Contents() + LensBits(lens, n, special, i) == old(w.Contents()) + LensBits(lens, n, special, 0)
    {
      i := WriteOne(w, lens, n, special, i);
    }
    assert LensBits(lens, n, special, n) == [];
  }

  /** One length and, at the special position, the zeros after it. */
  method WriteOne(w: BitWriter, lens: seq<nat>, n: nat, special: int, i: nat) returns (j: nat)
    requires w.Valid() && i < n <= |lens| && Bounded(lens)
    modifies w
    ensures w.Valid() && i < j <= n
    ensures w.Contents() + LensBits(lens, n, special, j) == old(w.Contents()) + LensBits(lens, n, special, i)
  {
    hide BitsOf, LenBits;
    ghost var start := w.Contents();
    WriteLen(w, lens[i]);
    j := i + 1;
    if j == special {
      while j < 6 && j < n && lens[j] == 0
        invariant i < j <= n && SkipZeros(lens, n, j) == SkipZeros(lens, n, i + 1)
      {
        j := j + 1;
      }
      w.PutBits(2, (j - 3) % 4);
      Assoc(start + LenBits(lens[i]), BitsOf((j - 3) % 4, 2), LensBits(lens, n, special, j));
      Assoc(start, LenBits(lens[i]), BitsOf((j - 3) % 4, 2) + LensBits(lens, n, special, j));
    } else {
      Assoc(start, LenBits(lens[i]), LensBits(lens, n, special, j));
    }
  }

  // ---- the runs of the C tree ----

  function RunSyms(rs: seq<Run>): (s: seq<nat>)
    ensures |s| == |rs| && forall i :: 0 <= i < |rs| ==> s[i] == RunSym(rs[i])
  {
    seq(|rs|, i requires 0 <= i < |rs| => RunSym(rs[i]))
  }

  lemma RunSymsConcat(rs: seq<Run>, qs: seq<Run>)
    ensures RunSyms(rs + qs) == RunSyms(rs) + RunSyms(qs)
  {
  }

  lemma {:induction false} RunsBitsConcat(rs: seq<Run>, qs: seq<Run>, t: Tree)
    requires Coded(rs + qs, t)
    ensures Coded(rs, t) && Coded(qs, t)
    ensures RunsBits(rs + qs, t) == RunsBits(rs, t) + RunsBits(qs, t)
  {
    CodedParts(rs, qs, t);
    if rs == [] {
      assert rs + qs == qs;
    } else {
      assert (rs + qs)[1..] == rs[1..] + qs;
      CodedTail(rs, t);
      CodedTail(rs + qs, t);
      hide RunBits, Codes, Coded, RunOk, RunSym;
      RunsBitsConcat(rs[1..], qs, t);
      Assoc(RunBits(rs[0], t), RunsBits(rs[1..], t), RunsBits(qs, t));
    }
  }

  lemma CodedTail(rs: seq<Run>, t: Tree)
    requires rs != [] && Coded(rs, t)
    ensures RunOk(rs[0]) && Codes(t, RunSym(rs[0])) && Coded(rs[1..], t)
  {
  }

  lemma CodedParts(rs: seq<Run>, qs: seq<Run>, t: Tree)
    requires Coded(rs + qs, t)
    ensures Coded(rs, t) && Coded(qs, t)
  {
    forall k | 0 <= k < |rs|
      ensures RunOk(rs[k]) && Codes(t, RunSym(rs[k]))
    {
      assert (rs + qs)[k] == rs[k];
    }
    forall k | 0 <= k < |qs|
      ensures RunOk(qs[k]) && Codes(t, RunSym(qs[k]))
    {
      assert (rs + qs)[|rs| + k] == qs[k];
    }
  }

  method FindRunEnd(lens: seq<nat>, n: nat, i: nat) returns (j: nat)
    requires i <= n <= |lens|
    ensures j == RunEnd(lens, n, i)
  {
    j := i;
    while j < n && lens[j] == 0
      invariant i <= j <= n && RunEnd(lens, n, j) == RunEnd(lens, n, i)
    {
      j := j + 1;
    }
  }

  /** Counts the T symbols of the C code lengths. */
  method CountRuns(lens: seq<nat>, n: nat) returns (f: seq<nat>)
    requires n <= |lens| <= NC && Bounded(lens)
    ensures |f| == NT && IsFreq(f, RunSyms(RunsOf(lens, n, 0)))
  {
    hide IsFreq, RunSyms, ZeroRuns, RunEnd;
    ghost var all, done: seq<Run> := RunsOf(lens, n, 0), [];
    var tf := new nat[NT](_ => 0);
    assert tf[..] == Zeros(NT) && RunSyms([]) == [];
    NoSyms(NT);
    var i := 0;
    while i < n
      invariant i <= n && done + RunsOf(lens, n, i) == all
      invariant IsFreq(tf[..], RunSyms(done))
    {
      if lens[i] > 0 {
        CountOne(tf, lens[i] + 2, RunSyms(done));
        LenSyms(done, lens[i]);
        Assoc(done, [Len(lens[i])], RunsOf(lens, n, i + 1));
        done := done + [Len(lens[i])];
        i := i + 1;
      } else {
        var j := FindRunEnd(lens, n, i);
        CountZeros(tf, j - i, RunSyms(done));
        RunSymsConcat(done, ZeroRuns(j - i));
        Assoc(done, ZeroRuns(j - i), RunsOf(lens, n, j));
        done := done + ZeroRuns(j - i);
        i := j;
      }
    }
    assert RunsOf(lens, n, n) == [];
    assert done == all;
    f := tf[..];
  }

  lemma LenSyms(rs: seq<Run>, l: nat)
    ensures RunSyms(rs + [Len(l)]) == RunSyms(rs) + [l + 2]
  {
  }

  method CountOne(f: array<nat>, s: nat, ghost syms: seq<nat>)
    requires s < f.Length && IsFreq(f[..], syms)
    modifies f
    ensures IsFreq(f[..], syms + [s])
  {
    hide IsFreq;
    ghost var f0 := f[..];
    OneMore(f0, syms, s);
    f[s] := f[s] + 1;
    assert f[..] == f0[s := f0[s] + 1];
  }

  method CountZeros(tf: array<nat>, z: nat, ghost syms: seq<nat>)
    requires tf.Length == NT && z > 0 && IsFreq(tf[..], syms)
    modifies tf
    ensures IsFreq(tf[..], syms + RunSyms(ZeroRuns(z)))
  {
    hide IsFreq;
    ghost var f0 := tf[..];
    OneMore(f0, syms, 0);
    if z <= 2 {
      tf[0] := tf[0] + z;
      ghost var f1 := f0[0 := f0[0] + 1];
      OneMore(f1, syms + [0], 0);
      assert tf[..] == if z == 1 then f1 else f1[0 := f1[0] + 1];
      assert syms + RunSyms(ZeroRuns(z)) == if z == 1 then syms + [0] else syms + [0] + [0];
    } else if z <= 18 {
      OneMore(f0, syms, 1);
      tf[1] := tf[1] + 1;
      assert tf[..] == f0[1 := f0[1] + 1];
      assert RunSyms(ZeroRuns(z)) == [1];
    } else if z == 19 {
      ghost var f1 := f0[0 := f0[0] + 1];
      OneMore(f1, syms + [0], 1);
      tf[0] := tf[0] + 1;
      tf[1] := tf[1] + 1;
      assert tf[..] == f1[1 := f1[1] + 1];
      assert syms + RunSyms(ZeroRuns(z)) == syms + [0] + [1];
    } else {
      OneMore(f0, syms, 2);
      tf[2] := tf[2] + 1;
      assert tf[..] == f0[2 := f0[2] + 1];
      assert RunSyms(ZeroRuns(z)) == [2];
    }
  }

  method PutRun(w: BitWriter, t: Tree, codes: seq<nat>, ghost r: Run, s: nat, extra: nat, v: nat)
    requires w.Valid() && RunOk(r) && s == RunSym(r) && Codes(t, s) && CodeTable(t, codes)
    requires extra <= 32 && RunExtra(r) == BitsOf(v, extra)
    modifies w
    ensures w.Valid() && w.Contents() == old(w.Contents()) + RunBits(r, t)
  {
    hide BitsOf, EncodeSym;
    PutSym(w, t, codes, s);
    w.PutBits(extra, v);
    Assoc(old(w.Contents()), EncodeSym(t, s), RunExtra(r));
  }

  lemma RunsBitsOne(r: Run, t: Tree)
    requires Coded([r], t)
    ensures RunOk(r) && Codes(t, RunSym(r)) && RunsBits([r], t) == RunBits(r, t)
  {
    assert [r][0] == r;
    assert RunBits(r, t) + [] == RunBits(r, t);
    assert RunsBits([r][1..], t) == [];
  }

  lemma RunsBitsTwo(r: Run, q: Run, t: Tree)
    requires Coded([r, q], t)
    ensures Coded([r], t) && Coded([q], t) && RunsBits([r, q], t) == RunsBits([r], t) + RunsBits([q], t)
  {
    assert [r, q] == [r] + [q];
    RunsBitsConcat([r], [q], t);
  }

  method WriteZeros(w: BitWriter, t: Tree, codes: seq<nat>, z: nat)
    requires w.Valid() && z > 0 && Coded(ZeroRuns(z), t) && CodeTable(t, codes)
    modifies w
    ensures w.Valid() && w.Contents() == old(w.Contents()) + RunsBits(ZeroRuns(z), t)
  {
    hide RunBits, RunsBits, Codes, CodeTable, Coded;
    assert BitsOf(0, 0) == [];
    if z == 1 {
      RunsBitsOne(Zero, t);
      PutRun(w, t, codes, Zero, 0, 0, 0);
    } else if z == 2 {
      RunsBitsTwo(Zero, Zero, t);
      RunsBitsOne(Zero, t);
      PutRun(w, t, codes, Zero, 0, 0, 0);
      PutRun(w, t, codes, Zero, 0, 0, 0);
      Assoc(old(w.Contents()), RunBits(Zero, t), RunBits(Zero, t));
    } else if z <= 18 {
      RunsBitsOne(Short(z), t);
      PutRun(w, t, codes, Short(z), 1, 4, z - 3);
    } else if z == 19 {
      RunsBitsTwo(Zero, Short(18), t);
      RunsBitsOne(Zero, t);
      RunsBitsOne(Short(18), t);
      PutRun(w, t, codes, Zero, 0, 0, 0);
      PutRun(w, t, codes, Short(18), 1, 4, 15);
      Assoc(old(w.Contents()), RunBits(Zero, t), RunBits(Short(18), t));
    } else {
      RunsBitsOne(Long(z), t);
      PutRun(w, t, codes, Long(z), 2, CBIT, z - 20);
    }
  }

  lemma NoRunsBits(t: Tree)
    ensures Coded([], t) && RunsBits([], t) == []
  {
  }

  lemma EmptyBits()
    ensures BitsOf(0, 0) == []
  {
  }

  method WriteRuns(w: BitWriter, lens: seq<nat>, n: nat, t: Tree, codes: seq<nat>)
    requires w.Valid() && n <= |lens| && Coded(RunsOf(lens, n, 0), t) && CodeTable(t, codes)
    modifies w
    ensures w.Valid() && w.Contents() == old(w.Contents()) + RunsBits(RunsOf(lens, n, 0), t)
  {
    hide Coded, CodeTable, RunBits, RunsBits, Codes, RunEnd, ZeroRuns;
    ghost var start := w.Contents();
    var i := 0;
    NoRunsBits(t);
    while i < n
      invariant i <= n && w.Valid() && Coded(RunsOf(lens, n, i), t)
      invariant w.Contents() + RunsBits(RunsOf(lens, n, i), t) == start + RunsBits(RunsOf(lens, n, 0), t)
    {
      ghost var before := w.Contents();
      if lens[i] > 0 {
        ghost var r, rest := Len(lens[i]), RunsOf(lens, n, i + 1);
        RunsBitsConcat([r], rest, t);
        RunsBitsOne(r, t);
        EmptyBits();
        PutRun(w, t, codes, r, lens[i] + 2, 0, 0);
        i := i + 1;
        Assoc(before, RunBits(r, t), RunsBits(rest, t));
      } else {
        var j := FindRunEnd(lens, n, i);
        ghost var rest := RunsOf(lens, n, j);
        RunsBitsConcat(ZeroRuns(j - i), rest, t);
        WriteZeros(w, t, codes, j - i);
        Assoc(before, RunsBits(ZeroRuns(j - i), t), RunsBits(rest, t));
        i := j;
      }
    }
  }
}
