/** The C tree header: its lengths are sent as runs, coded with the T tree. */
module Runs {
  import opened Bits
  import opened Canonical
  import opened Trees
  import opened Headers

  /** One length, one zero, 3 to 18 zeros, or at least 20 zeros. */
  datatype Run = Len(len: nat) | Zero | Short(count: nat) | Long(count: nat)

  ghost predicate RunOk(r: Run) {
    match r
    case Len(l) => 1 <= l <= MAXLEN
    case Zero => true
    case Short(z) => 3 <= z <= 18
    case Long(z) => 20 <= z < 532
  }

  /** The T symbol of a run. */
  function RunSym(r: Run): nat {
    match r
    case Len(l) => l + 2
    case Zero => 0
    case Short(_) => 1
    case Long(_) => 2
  }

  function RunExtra(r: Run): seq<bool>
    requires RunOk(r)
  {
    match r
    case Short(z) => BitsOf(z - 3, 4)
    case Long(z) => BitsOf(z - 20, CBIT)
    case _ => []
  }

  function RunLens(r: Run): seq<nat> {
    match r
    case Len(l) => [l]
    case Zero => [0]
    case Short(z) => Zeros(z)
    case Long(z) => Zeros(z)
  }

  function RunEnd(lens: seq<nat>, n: nat, i: nat): (j: nat)
    requires i <= n <= |lens|
    ensures i <= j <= n && forall k :: i <= k < j ==> lens[k] == 0
    ensures j < n ==> lens[j] > 0
    ensures i < n && lens[i] == 0 ==> j > i
    decreases n - i
  {
    if i < n && lens[i] == 0 then RunEnd(lens, n, i + 1) else i
  }

  /** How z zeros are sent; 19 of them as 1 + 18. */
  function ZeroRuns(z: nat): seq<Run> {
    if z == 0 then []
    else if z == 1 then [Zero]
    else if z == 2 then [Zero, Zero]
    else if z <= 18 then [Short(z)]
    else if z == 19 then [Zero, Short(18)]
    else [Long(z)]
  }

  function RunsOf(lens: seq<nat>, n: nat, i: nat): seq<Run>
    requires i <= n <= |lens|
    decreases n - i
  {
    if i == n then []
    else if lens[i] > 0 then [Len(lens[i])] + RunsOf(lens, n, i + 1)
    else
      var j := RunEnd(lens, n, i);
      ZeroRuns(j - i) + RunsOf(lens, n, j)
  }

  function LensOfRuns(rs: seq<Run>): seq<nat> {
    if rs == [] then [] else RunLens(rs[0]) + LensOfRuns(rs[1..])
  }

  lemma {:induction false} LensOfConcat(rs: seq<Run>, qs: seq<Run>)
    ensures LensOfRuns(rs + qs) == LensOfRuns(rs) + LensOfRuns(qs)
  {
    hide RunLens;
    if rs == [] {
      assert rs + qs == qs;
    } else {
      LensOfConcat(rs[1..], qs);
      assert (rs + qs)[1..] == rs[1..] + qs;
      assert RunLens(rs[0]) + (LensOfRuns(rs[1..]) + LensOfRuns(qs)) == LensOfRuns(rs) + LensOfRuns(qs);
    }
  }

  lemma LensOfZeroRuns(z: nat)
    ensures LensOfRuns(ZeroRuns(z)) == Zeros(z)
  {
    var rs := ZeroRuns(z);
    if z > 0 {
      assert LensOfRuns(rs[1..]) == if |rs| == 1 then [] else RunLens(rs[1]) + LensOfRuns(rs[1..][1..]);
    }
  }

  /** The runs of a table stand for exactly that table. */
  lemma {:induction false} RunsStandFor(lens: seq<nat>, n: nat, i: nat)
    requires i <= n <= |lens|
    ensures LensOfRuns(RunsOf(lens, n, i)) == lens[i..n]
    decreases n - i
  {
    hide RunEnd, ZeroRuns, Zeros, LensOfRuns;
    if i < n {
      if lens[i] > 0 {
        RunsStandFor(lens, n, i + 1);
        LensOfConcat([Len(lens[i])], RunsOf(lens, n, i + 1));
        LensOfLen(lens[i]);
        assert lens[i..n] == [lens[i]] + lens[i + 1..n];
      } else {
        var j := RunEnd(lens, n, i);
        RunsStandFor(lens, n, j);
        LensOfConcat(ZeroRuns(j - i), RunsOf(lens, n, j));
        LensOfZeroRuns(j - i);
        assert lens[i..n] == Zeros(j - i) + lens[j..n];
      }
    } else {
      NoRuns();
    }
  }

  lemma NoRuns()
    ensures LensOfRuns([]) == []
  {
  }

  lemma LensOfLen(l: nat)
    ensures LensOfRuns([Len(l)]) == [l]
  {
    assert LensOfRuns([Len(l)][1..]) == [];
  }

  ghost predicate RunsOk(rs: seq<Run>) {
    forall k :: 0 <= k < |rs| ==> RunOk(rs[k])
  }

  lemma {:induction false} RunsOfOk(lens: seq<nat>, n: nat, i: nat)
    requires i <= n <= |lens| <= NC && Bounded(lens)
    ensures RunsOk(RunsOf(lens, n, i))
    decreases n - i
  {
    if i < n {
      if lens[i] > 0 {
        RunsOfOk(lens, n, i + 1);
      } else {
        RunsOfOk(lens, n, RunEnd(lens, n, i));
      }
    }
  }

  // ---- the bits of the runs ----

  ghost predicate Coded(rs: seq<Run>, t: Tree) {
    RunsOk(rs) && forall k :: 0 <= k < |rs| ==> Codes(t, RunSym(rs[k]))
  }

  function RunBits(r: Run, t: Tree): seq<bool>
    requires RunOk(r) && Codes(t, RunSym(r))
  {
    EncodeSym(t, RunSym(r)) + RunExtra(r)
  }

  function RunsBits(rs: seq<Run>, t: Tree): seq<bool>
    requires Coded(rs, t)
  {
    if rs == [] then [] else RunBits(rs[0], t) + RunsBits(rs[1..], t)
  }

  /** The lengths that T symbol c stands for and the position after its extra bits; at most
      room lengths are kept. */
  function Chunk(c: nat, b: seq<bool>, pos: nat, room: nat): (r: (seq<nat>, nat))
    requires room > 0
    ensures 0 < |r.0| <= room && r.1 >= pos
  {
    if c == 0 then ([0], pos)
    else if c == 1 then (Fill(Peek(b, pos, 4) + 3, room), pos + 4)
    else if c == 2 then (Fill(Peek(b, pos, CBIT) + 20, room), pos + CBIT)
    else ([((c - 2) % 256) as nat], pos)
  }

  function Fill(z: nat, room: nat): seq<nat> {
    Zeros(if z <= room then z else room)
  }

  /** Reads lengths until cn of them (or all 510) are known. */
  ghost function ReadRuns(b: seq<bool>, pos: nat, cn: nat, t: Tree, acc: seq<nat>): (s: Step<seq<nat>>)
    requires |acc| <= NC
    ensures s.Got? ==> |s.val| <= NC && s.pos >= pos
    decreases NC - |acc|
  {
    if |acc| < cn && |acc| < NC then
      match DecodeSym(t, b, pos)
      case Fail => Fail
      case Got(c, p) =>
        var (chunk, q) := Chunk(c, b, p, NC - |acc|);
        ReadRuns(b, q, cn, t, acc + chunk)
    else Got(acc, pos)
  }

  lemma ChunkRoundTrip(r: Run, b: seq<bool>, pos: nat, room: nat)
    requires RunOk(r) && At(b, pos, RunExtra(r)) && 0 < |RunLens(r)| <= room
    ensures Chunk(RunSym(r), b, pos, room) == (RunLens(r), pos + |RunExtra(r)|)
  {
    hide At, BitsOf, Peek;
    match r
    case Len(l) =>
    case Zero =>
    case Short(z) =>
      Pow2Values();
      PeekBitsOf(b, pos, z - 3, 4);
    case Long(z) =>
      assert Pow2(9) == 512;
      PeekBitsOf(b, pos, z - 20, CBIT);
  }

  lemma {:induction false} RunsRoundTrip(rs: seq<Run>, t: Tree, b: seq<bool>, pos: nat, cn: nat, acc: seq<nat>)
    requires Coded(rs, t) && At(b, pos, RunsBits(rs, t))
    requires |acc| + |LensOfRuns(rs)| == cn <= NC
    ensures ReadRuns(b, pos, cn, t, acc) == Got(acc + LensOfRuns(rs), pos + |RunsBits(rs, t)|)
    decreases rs
  {
    hide At, DecodeSym, EncodeSym, Codes, RunExtra, Chunk;
    if rs == [] {
      assert acc + LensOfRuns(rs) == acc;
    } else {
      var r, rest := rs[0], rs[1..];
      assert |RunLens(r)| > 0;
      var q := pos + |RunBits(r, t)|;
      AtConcat(b, pos, RunBits(r, t), RunsBits(rest, t));
      RunRoundTrip(r, t, b, pos, cn, acc);
      RunsRoundTrip(rest, t, b, q, cn, acc + RunLens(r));
      assert acc + RunLens(r) + LensOfRuns(rest) == acc + LensOfRuns(rs);
    }
  }

  lemma RunRoundTrip(r: Run, t: Tree, b: seq<bool>, pos: nat, cn: nat, acc: seq<nat>)
    requires RunOk(r) && Codes(t, RunSym(r)) && At(b, pos, RunBits(r, t))
    requires |acc| < cn <= NC && 0 < |RunLens(r)| <= NC - |acc|
    ensures ReadRuns(b, pos, cn, t, acc) == ReadRuns(b, pos + |RunBits(r, t)|, cn, t, acc + RunLens(r))
  {
    hide At, EncodeSym, DecodeSym, Codes, RunExtra, Chunk;
    AtConcat(b, pos, EncodeSym(t, RunSym(r)), RunExtra(r));
    DecodeEncode(t, RunSym(r), b, pos);
    ChunkRoundTrip(r, b, pos + |EncodeSym(t, RunSym(r))|, NC - |acc|);
  }

  // ---- the C tree ----

  /** The runs that describe a C tree. */
  function TreeRuns(ct: Tree): seq<Run> {
    if ct.single >= 0 then [] else RunsOf(ct.lens, Trim(ct.lens, |ct.lens|), 0)
  }

  function CBits(ct: Tree, tt: Tree): seq<bool>
    requires Coded(TreeRuns(ct), tt)
  {
    if ct.single >= 0 then BitsOf(0, CBIT) + BitsOf(ct.single, CBIT)
    else BitsOf(Trim(ct.lens, |ct.lens|), CBIT) + RunsBits(TreeRuns(ct), tt)
  }

  ghost function ReadC(b: seq<bool>, pos: nat, tt: Tree): (r: Step<Tree>)
    ensures r.Got? ==> r.pos >= pos
  {
    var cn := Peek(b, pos, CBIT);
    if cn == 0 then Got(Tree(Zeros(NC), Peek(b, pos + CBIT, CBIT)), pos + 2 * CBIT)
    else
      match ReadRuns(b, pos + CBIT, cn, tt, [])
      case Fail => Fail
      case Got(acc, p) =>
        var lens := acc + Zeros(NC - |acc|);
        if Acceptable(lens) then Got(Tree(lens, -1), p) else Fail
  }

  lemma CSingle(ct: Tree, tt: Tree, b: seq<bool>, pos: nat)
    requires Sendable(ct, NC, CBIT) && Coded(TreeRuns(ct), tt) && At(b, pos, CBits(ct, tt)) && ct.single >= 0
    ensures ReadC(b, pos, tt) == Got(ct, pos + |CBits(ct, tt)|)
  {
    hide At, BitsOf, ReadRuns, RunsBits, Coded, Peek, RunsOf, LensOfRuns, Complete;
    AtConcat(b, pos, BitsOf(0, CBIT), BitsOf(ct.single, CBIT));
    PeekBitsOf(b, pos, 0, CBIT);
    PeekBitsOf(b, pos + CBIT, ct.single, CBIT);
  }

  lemma CRuns(ct: Tree, tt: Tree, b: seq<bool>, pos: nat)
    requires Sendable(ct, NC, CBIT) && Coded(TreeRuns(ct), tt) && At(b, pos, CBits(ct, tt)) && ct.single == -1
    ensures ReadC(b, pos, tt) == Got(ct, pos + |CBits(ct, tt)|)
  {
    hide At, BitsOf, ReadRuns, RunsBits, Coded, Peek, RunsOf, LensOfRuns, Trim, KraftUpTo;
    var cn := Trim(ct.lens, NC);
    TrimComplete(ct.lens);
    assert Pow2(9) == 512;
    AtConcat(b, pos, BitsOf(cn, CBIT), RunsBits(TreeRuns(ct), tt));
    PeekBitsOf(b, pos, cn, CBIT);
    RunsStandFor(ct.lens, cn, 0);
    assert ct.lens[0..cn] == ct.lens[..cn];
    RunsRoundTrip(TreeRuns(ct), tt, b, pos + CBIT, cn, []);
    assert [] + ct.lens[..cn] == ct.lens[..cn];
    assert ct.lens == ct.lens[..cn] + Zeros(NC - cn);
  }

  /** The decoder recovers exactly the C tree that was sent. */
  lemma CRoundTrip(ct: Tree, tt: Tree, b: seq<bool>, pos: nat)
    requires Sendable(ct, NC, CBIT) && Coded(TreeRuns(ct), tt) && At(b, pos, CBits(ct, tt))
    ensures ReadC(b, pos, tt) == Got(ct, pos + |CBits(ct, tt)|)
  {
    hide At, BitsOf, RunsBits, Coded, ReadC, Complete;
    if ct.single >= 0 {
      CSingle(ct, tt, b, pos);
    } else {
      CRuns(ct, tt, b, pos);
    }
  }
}
