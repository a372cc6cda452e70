/** Writing a block of tokens. */
module BlockWriter {
  import opened Bits
  import opened BitIO
  import opened Canonical
  import opened Trees
  import opened HuffmanTrees
  import opened Huffman
  import opened Headers
  import opened Runs
  import opened Lz
  import opened Blocks
  import opened Encoder

  ghost predicate ToksOk(ts: seq<Tok>) {
    forall i :: 0 <= i < |ts| ==> TokOk(ts[i])
  }

  /** The C symbols of the tokens. */
  function CSyms(ts: seq<Tok>): (s: seq<nat>)
    ensures |s| == |ts| && forall i :: 0 <= i < |ts| ==> s[i] == ts[i].sym
  {
    seq(|ts|, i requires 0 <= i < |ts| => ts[i].sym)
  }

  /** The position classes of the matches. */
  function PSyms(ts: seq<Tok>): (s: seq<nat>)
    ensures |s| <= |ts|
  {
    if ts == [] then []
    else PSyms(ts[..|ts| - 1]) + (if ts[|ts| - 1].sym >= 256 then [PosClass(ts[|ts| - 1].pos)] else [])
  }

  lemma {:induction false} PSymsHas(ts: seq<Tok>, i: nat)
    requires i < |ts| && ts[i].sym >= 256
    ensures PosClass(ts[i].pos) in PSyms(ts)
  {
    if i < |ts| - 1 {
      PSymsHas(ts[..|ts| - 1], i);
    }
  }

  lemma {:induction false} PSymsBound(ts: seq<Tok>)
    requires ToksOk(ts)
    ensures forall k :: 0 <= k < |PSyms(ts)| ==> PSyms(ts)[k] < NP
  {
    if ts != [] {
      PSymsBound(ts[..|ts| - 1]);
      ClassBound(ts[|ts| - 1]);
    }
  }

  lemma ClassBound(t: Tok)
    requires TokOk(t)
    ensures PosClass(t.pos) < NP
  {
    assert Pow2(13) == WINDOW by {
      Pow2Add(8, 5);
      assert Pow2(5) == 32 && Pow2(8) == 256;
    }
    PosClassBound(t.pos, 13);
  }

  method CountToks(ts: seq<Tok>) returns (cf: seq<nat>, pf: seq<nat>)
    requires ToksOk(ts)
    ensures |cf| == NC && IsFreq(cf, CSyms(ts))
    ensures |pf| == NP && IsFreq(pf, PSyms(ts))
  {
    hide IsFreq, PosClass, ToksOk;
    var cs := new nat[NC](_ => 0);
    var ps := new nat[NP](_ => 0);
    NoSyms(NC);
    NoSyms(NP);
    assert cs[..] == Zeros(NC) && ps[..] == Zeros(NP);
    assert CSyms(ts[..0]) == [];
    for i := 0 to |ts|
      invariant IsFreq(cs[..], CSyms(ts[..i])) && IsFreq(ps[..], PSyms(ts[..i]))
    {
      NextTok(ts, i);
      CountOne(cs, ts[i].sym, CSyms(ts[..i]));
      if ts[i].sym >= 256 {
        var k := ComputePosClass(ts[i].pos);
        CountOne(ps, k, PSyms(ts[..i]));
      }
    }
    assert ts[..|ts|] == ts;
    cf, pf := cs[..], ps[..];
  }

  lemma NextTok(ts: seq<Tok>, i: nat)
    requires i < |ts| && ToksOk(ts)
    ensures ts[i].sym < NC && PosClass(ts[i].pos) < NP
    ensures CSyms(ts[..i + 1]) == CSyms(ts[..i]) + [ts[i].sym]
    ensures PSyms(ts[..i + 1]) == if ts[i].sym >= 256 then PSyms(ts[..i]) + [PosClass(ts[i].pos)] else PSyms(ts[..i])
  {
    ClassBound(ts[i]);
    assert ts[..i + 1][..i] == ts[..i];
  }

  // ---- the trees of a block ----

  /** Every token can be sent with the trees made for the tokens. */
  lemma ToksCoded(ts: seq<Tok>, cf: seq<nat>, pf: seq<nat>, ct: Tree, pt: Tree)
    requires ToksOk(ts)
    requires |cf| == NC && IsFreq(cf, CSyms(ts)) && TreeFor(cf, ct, -1)
    requires |pf| == NP && IsFreq(pf, PSyms(ts)) && TreeFor(pf, pt, 0)
    ensures AllCoded(ts, ct, pt)
  {
    hide IsFreq, TreeFor, Codes;
    PSymsBound(ts);
    FreqUsed(cf, CSyms(ts));
    FreqUsed(pf, PSyms(ts));
    forall i | 0 <= i < |ts|
      ensures TokCoded(ts[i], ct, pt)
    {
      assert CSyms(ts)[i] == ts[i].sym;
      TreeCodes(cf, ct, -1, ts[i].sym);
      if ts[i].sym >= 256 {
        PSymsHas(ts, i);
        TreeCodes(pf, pt, 0, PosClass(ts[i].pos));
      }
    }
  }

  lemma {:induction false} RunsCount(rs: seq<Run>)
    requires RunsOk(rs)
    ensures |rs| <= |LensOfRuns(rs)|
  {
    if rs != [] {
      assert |RunLens(rs[0])| > 0;
      RunsCount(rs[1..]);
    }
  }

  lemma RunsUsed(lens: seq<nat>, n: nat, tf: seq<nat>)
    requires n <= |lens| <= NC && Bounded(lens)
    requires |tf| == NT && IsFreq(tf, RunSyms(RunsOf(lens, n, 0)))
    ensures Sum(tf) <= NC
    ensures forall t: Tree :: TreeFor(tf, t, -1) ==> Coded(RunsOf(lens, n, 0), t)
    ensures n > 0 ==> Used(tf) > 0
  {
    var rs := RunsOf(lens, n, 0);
    RunsOfOk(lens, n, 0);
    RunsStandFor(lens, n, 0);
    RunsCount(rs);
    RunSymsBound(rs);
    FreqUsed(tf, RunSyms(rs));
    forall t: Tree | TreeFor(tf, t, -1)
      ensures Coded(rs, t)
    {
      forall k | 0 <= k < |rs|
        ensures Codes(t, RunSym(rs[k]))
      {
        assert RunSyms(rs)[k] == RunSym(rs[k]);
        TreeCodes(tf, t, -1, RunSym(rs[k]));
      }
    }
    if n > 0 {
      assert RunSyms(rs)[0] == RunSym(rs[0]);
      TwoUsed(tf, RunSym(rs[0]), NT);
    }
  }

  lemma RunSymsBound(rs: seq<Run>)
    requires RunsOk(rs)
    ensures forall k :: 0 <= k < |rs| ==> RunSyms(rs)[k] < NT
  {
  }

  /** The T tree for a C tree. */
  method MakeTT(ct: Tree) returns (tt: Tree)
    requires Sendable(ct, NC, CBIT)
    ensures Sendable(tt, NT, TBIT) && Coded(TreeRuns(ct), tt)
  {
    assert Pow2(5) == 32;
    if ct.single >= 0 {
      tt := Tree(Zeros(NT), 0);
    } else {
      hide RunsOf;
      var cn := FindTrim(ct.lens);
      TrimComplete(ct.lens);
      var tf := CountRuns(ct.lens, cn);
      RunsUsed(ct.lens, cn, tf);
      tt := MakeTree(tf, -1);
      TreeSendable(tf, tt, -1, TBIT);
    }
  }

  /** The trees of a block. */
  method MakeTrees(toks: seq<Tok>) returns (tt: Tree, ct: Tree, pt: Tree)
    requires 0 < |toks| < 0x1_0000 && ToksOk(toks)
    ensures BlockOk(Block(toks, tt, ct, pt))
  {
    var cf, pf := CountToks(toks);
    ct := MakeTree(cf, -1);
    pt := MakeTree(pf, 0);
    SymsUsed(toks, cf);
    assert Pow2(9) == 512 && Pow2(4) == 16;
    TreeSendable(cf, ct, -1, CBIT);
    TreeSendable(pf, pt, 0, PBIT);
    ToksCoded(toks, cf, pf, ct, pt);
    tt := MakeTT(ct);
  }

  lemma SymsUsed(toks: seq<Tok>, cf: seq<nat>)
    requires |toks| > 0 && ToksOk(toks) && |cf| == NC && IsFreq(cf, CSyms(toks))
    ensures Used(cf) > 0
  {
    FreqUsed(cf, CSyms(toks));
    assert CSyms(toks)[0] == toks[0].sym;
    TwoUsed(cf, toks[0].sym, NC);
  }

  // ---- the block ----

  /** Writes a block and tells (for the proof) which trees it has. */
  method WriteBlock(w: BitWriter, toks: seq<Tok>) returns (ghost k: Block)
    requires w.Valid() && 0 < |toks| < 0x1_0000 && ToksOk(toks)
    modifies w
    ensures w.Valid() && BlockOk(k) && k.toks == toks
    ensures w.Contents() == old(w.Contents()) + BlockBits(k)
  {
    hide BlockOk, BitsOf, PtBits, CBits, ToksBits, Sendable, Coded, AllCoded;
    ghost var start := w.Contents();
    var tt, ct, pt := MakeTrees(toks);
    k := Block(toks, tt, ct, pt);
    Parts(k);
    w.PutBits(16, |toks|);
    WritePt(w, tt, TBIT, 3);
    WriteC(w, ct, tt);
    WritePt(w, pt, PBIT, -1);
    ghost var n, t, c, p := BitsOf(|toks|, 16), PtBits(tt, TBIT, 3), CBits(ct, tt), PtBits(pt, PBIT, -1);
    Assoc(start + n + t, c, p);
    Assoc(start + n, t, c + p);
    Assoc(start, n, t + (c + p));
    WriteToks(w, toks, ct, pt);
    Assoc(start, HeadBits(k), ToksBits(toks, ct, pt));
  }

  lemma Parts(k: Block)
    requires BlockOk(k)
    ensures Sendable(k.tt, NT, TBIT) && Sendable(k.ct, NC, CBIT) && Sendable(k.pt, NP, PBIT)
    ensures |k.tt.lens| == NT && |k.ct.lens| == NC && |k.pt.lens| == NP
    ensures Coded(TreeRuns(k.ct), k.tt) && AllCoded(k.toks, k.ct, k.pt)
  {
  }

  method WriteC(w: BitWriter, ct: Tree, tt: Tree)
    requires w.Valid() && Sendable(ct, NC, CBIT) && Sendable(tt, NT, TBIT) && Coded(TreeRuns(ct), tt)
    modifies w
    ensures w.Valid() && w.Contents() == old(w.Contents()) + CBits(ct, tt)
  {
    hide BitsOf, Coded, RunsBits;
    ghost var start := w.Contents();
    if ct.single >= 0 {
      w.PutBits(CBIT, 0);
      w.PutBits(CBIT, ct.single);
      Assoc(start, BitsOf(0, CBIT), BitsOf(ct.single, CBIT));
    } else {
      var cn := FindTrim(ct.lens);
      var codes := CodesFor(tt);
      w.PutBits(CBIT, cn);
      WriteRuns(w, ct.lens, cn, tt, codes);
      Assoc(start, BitsOf(cn, CBIT), RunsBits(TreeRuns(ct), tt));
    }
  }

  method WriteToks(w: BitWriter, ts: seq<Tok>, ct: Tree, pt: Tree)
    requires w.Valid() && AllCoded(ts, ct, pt) && Sendable(ct, NC, CBIT) && Sendable(pt, NP, PBIT) && ToksOk(ts)
    modifies w
    ensures w.Valid() && w.Contents() == old(w.Contents()) + ToksBits(ts, ct, pt)
  {
    hide TokBits, TokCoded, CodeTable;
    ghost var start := w.Contents();
    var cc := CodesFor(ct);
    var pc := CodesFor(pt);
    for i := 0 to |ts|
      invariant w.Valid() && w.Contents() + ToksBits(ts[i..], ct, pt) == start + ToksBits(ts, ct, pt)
    {
      ghost var before := w.Contents();
      assert ts[i..][0] == ts[i] && ts[i..][1..] == ts[i + 1..];
      PutTok(w, ts[i], ct, pt, cc, pc);
      Assoc(before, TokBits(ts[i], ct, pt), ToksBits(ts[i + 1..], ct, pt));
    }
    assert ts[|ts|..] == [];
  }

  method PutTok(w: BitWriter, t: Tok, ct: Tree, pt: Tree, cc: seq<nat>, pc: seq<nat>)
    requires w.Valid() && TokCoded(t, ct, pt) && CodeTable(ct, cc) && CodeTable(pt, pc) && TokOk(t)
    modifies w
    ensures w.Valid() && w.Contents() == old(w.Contents()) + TokBits(t, ct, pt)
  {
    hide EncodeSym, CodeTable, BitsOf;
    ghost var start := w.Contents();
    PutSym(w, ct, cc, t.sym);
    if t.sym >= 256 {
      var k := ComputePosClass(t.pos);
      ClassBound(t);
      PosClassRange(t.pos);
      PutSym(w, pt, pc, k);
      if k > 1 {
        w.PutBits(k - 1, t.pos - Pow2(k - 1));
      }
      Assoc(start + EncodeSym(ct, t.sym), EncodeSym(pt, k), PosExtra(t.pos));
      Assoc(start, EncodeSym(ct, t.sym), EncodeSym(pt, k) + PosExtra(t.pos));
    }
  }
}
