/** The decompressor. Whatever the input, it computes exactly Decode. */
module Decoder {
  import opened Bits
  import opened BitIO
  import opened Canonical
  import opened Trees
  import opened Headers
  import opened Runs
  import opened Lz
  import opened Blocks
  import opened Streams
  import Compressor
  import opened Optional
  import Format
  import FormatDecoding

  /** t holds the tree that step says, and r is at the position after it; or the data is bad. */
  ghost predicate Loaded(step: Step<Tree>, t: CodeTree, r: BitReader)
    reads t, t.len, t.cnt, t.sorted, r
  {
    match step
    case Got(tree, p) => t.Ready() && t.View() == tree && r.bitpos == p && !r.bad
    case Fail => r.bad
  }

  method Clear(t: CodeTree, nn: nat)
    requires t.Valid() && nn <= NC
    modifies t, t.len
    ensures t.Valid() && t.n == nn && t.single == -1 && t.len[..nn] == Zeros(nn)
  {
    forall i | 0 <= i < NC {
      t.len[i] := 0;
    }
    t.n, t.single := nn, -1;
  }

  /** One length: three bits, and more if they are all 1. */
  method GetLen(r: BitReader) returns (c: nat)
    modifies r
    ensures (c, r.bitpos) == ReadLen(r.Stream(), old(r.bitpos)) && r.bad == old(r.bad)
    ensures r.bitpos > old(r.bitpos)
  {
    ghost var b := r.Stream();
    c := r.PeekBits(3);
    r.bitpos := r.bitpos + 3;
    if c == 7 {
      ghost var pos := r.bitpos;
      var more := r.GetBits(1);
      OneBit(b, pos);
      while more == 1
        invariant r.bitpos > pos && more == Peek(b, r.bitpos - 1, 1) && r.bad == old(r.bad)
        invariant more == 1 ==> BitAt(b, r.bitpos - 1)
        invariant c - 7 + Ones(b, r.bitpos - 1) == Ones(b, pos) && r.bitpos - 1 - pos == c - 7
        decreases |b| - r.bitpos, more
      {
        c := c + 1;
        OneBit(b, r.bitpos - 1);
        OneBit(b, r.bitpos);
        more := r.GetBits(1);
      }
      OneBit(b, r.bitpos - 1);
    }
  }

  lemma OneBit(b: seq<bool>, pos: nat)
    ensures Peek(b, pos, 1) == if BitAt(b, pos) then 1 else 0
  {
    assert Peek(b, pos, 0) == 0;
  }

  /** Up to z zeros. */
  method PutZeros(t: CodeTree, i: nat, z: nat) returns (j: nat)
    requires t.Valid() && i <= t.n
    modifies t.len
    ensures j == i + (if z <= t.n - i then z else t.n - i)
    ensures t.len[..j] == old(t.len[..i]) + Zeros(j - i)
    ensures forall k :: j <= k < t.n ==> t.len[k] == old(t.len[k])
  {
    j := i;
    while j < i + z && j < t.n
      invariant i <= j <= t.n && j <= i + z
      invariant t.len[..j] == old(t.len[..i]) + Zeros(j - i)
      invariant forall k :: j <= k < t.n ==> t.len[k] == old(t.len[k])
    {
      t.len[j] := 0;
      j := j + 1;
    }
  }

  method PutLen(t: CodeTree, i: nat, c: nat)
    requires t.Valid() && i < t.n
    modifies t.len
    ensures t.len[..i + 1] == old(t.len[..i]) + [(c % 256) as nat]
    ensures forall k :: i + 1 <= k < t.n ==> t.len[k] == old(t.len[k])
  {
    t.len[i] := c % 256;
  }

  method GetLens(r: BitReader, t: CodeTree, n: nat, special: int)
    requires t.Valid() && t.len[..t.n] == Zeros(t.n)
    modifies r, t.len
    ensures var (acc, p) := ReadLens(r.Stream(), old(r.bitpos), n, t.n, special, []);
      |acc| <= t.n && t.len[..t.n] == acc + Zeros(t.n - |acc|) && r.bitpos == p && r.bad == old(r.bad)
    ensures r.bitpos >= old(r.bitpos)
  {
    hide ReadLen, BytesBits, Peek;
    ghost var b, pos := r.Stream(), r.bitpos;
    ReadLensBound(b, pos, n, t.n, special, []);
    var i := 0;
    while i < n && i < t.n
      invariant i <= t.n && r.bitpos >= pos && r.bad == old(r.bad)
      invariant ReadLens(b, r.bitpos, n, t.n, special, t.len[..i]) == ReadLens(b, pos, n, t.n, special, [])
      invariant forall k :: i <= k < t.n ==> t.len[k] == 0
    {
      ghost var acc := t.len[..i];
      var c := GetLen(r);
      PutLen(t, i, c);
      i := i + 1;
      if i == special {
        var z := r.GetBits(2);
        i := PutZeros(t, i, z);
      }
    }
    assert t.len[..t.n] == t.len[..i] + Zeros(t.n - i);
  }

  /** Reads a T or P tree. */
  method GetPt(r: BitReader, t: CodeTree, nn: nat, nbit: nat, special: int)
    requires t.Valid() && nn <= NC
    modifies r, t, t.len, t.cnt, t.sorted
    ensures t.Valid() && r.bitpos >= old(r.bitpos) && (old(r.bad) ==> r.bad)
    ensures !old(r.bad) ==> Loaded(ReadPt(r.Stream(), old(r.bitpos), nn, nbit, special), t, r)
  {
    hide ReadLens, Acceptable, Tables, Peek, BytesBits;
    Clear(t, nn);
    var n := r.GetBits(nbit);
    if n == 0 {
      t.single := r.GetBits(nbit);
      return;
    }
    GetLens(r, t, n, special);
    var ok := t.TreeBuild();
    if !ok {
      r.bad := true;
    }
  }

  /** The lengths that T symbol c stands for. */
  method GetChunk(r: BitReader, t: CodeTree, i: nat, c: nat) returns (j: nat)
    requires t.Valid() && i < t.n
    modifies r, t.len
    ensures var (chunk, q) := Chunk(c, r.Stream(), old(r.bitpos), t.n - i);
      j == i + |chunk| && t.len[..j] == old(t.len[..i]) + chunk && r.bitpos == q
    ensures r.bad == old(r.bad) && i < j <= t.n && r.bitpos >= old(r.bitpos)
    ensures forall k :: j <= k < t.n ==> t.len[k] == old(t.len[k])
  {
    if c <= 2 {
      var z := 1;
      if c == 1 {
        z := r.GetBits(4);
        z := z + 3;
      } else if c == 2 {
        z := r.GetBits(CBIT);
        z := z + 20;
      }
      j := PutZeros(t, i, z);
      assert c == 0 ==> Zeros(1) == [0];
    } else {
      PutLen(t, i, c - 2);
      j := i + 1;
    }
  }

  method GetRuns(r: BitReader, tt: CodeTree, ct: CodeTree, cn: nat)
    requires ct.Valid() && ct.n == NC && (forall k :: 0 <= k < NC ==> ct.len[k] == 0)
    requires !r.bad ==> tt.Ready()
    requires ct.len !in {tt.len, tt.cnt, tt.sorted}
    modifies r, ct.len
    ensures r.bitpos >= old(r.bitpos) && (old(r.bad) ==> r.bad)
    ensures !old(r.bad) ==>
      match ReadRuns(r.Stream(), old(r.bitpos), cn, old(tt.View()), [])
      case Got(acc, p) => ct.len[..NC] == acc + Zeros(NC - |acc|) && r.bitpos == p && !r.bad
      case Fail => r.bad
  {
    hide DecodeSym, Chunk, Acceptable, Tables, BytesBits;
    ghost var b, pos := r.Stream(), r.bitpos;
    var i := 0;
    if r.bad {
      return;
    }
    ghost var t := tt.View();
    while i < cn && i < NC && !r.bad
      invariant i <= NC && r.bitpos >= pos
      invariant tt.Ready() && tt.View() == t
      invariant forall k :: i <= k < NC ==> ct.len[k] == 0
      invariant !r.bad ==> ReadRuns(b, r.bitpos, cn, t, ct.len[..i]) == ReadRuns(b, pos, cn, t, [])
      invariant r.bad ==> ReadRuns(b, pos, cn, t, []) == Fail
    {
      var c := tt.TreeDecode(r);
      i := GetChunk(r, ct, i, c);
    }
    assert ct.len[..NC] == ct.len[..i] + Zeros(NC - i);
  }

  /** Reads the C tree. */
  method GetC(r: BitReader, tt: CodeTree, ct: CodeTree)
    requires ct.Valid() && tt.Valid() && (!r.bad ==> tt.Ready())
    requires {ct.len, ct.cnt, ct.sorted} !! {tt.len, tt.cnt, tt.sorted} && ct != tt
    modifies r, ct, ct.len, ct.cnt, ct.sorted
    ensures ct.Valid() && r.bitpos >= old(r.bitpos) && (old(r.bad) ==> r.bad)
    ensures !old(r.bad) ==> Loaded(ReadC(r.Stream(), old(r.bitpos), old(tt.View())), ct, r)
  {
    hide ReadRuns, Acceptable, Tables, Peek, BytesBits;
    Clear(ct, NC);
    var cn := r.GetBits(CBIT);
    if cn == 0 {
      ct.single := r.GetBits(CBIT);
    } else {
      GetRuns(r, tt, ct, cn);
      var ok := ct.TreeBuild();
      if !ok {
        r.bad := true;
      }
    }
  }

  // ---- tokens ----

  /** Appends a match; stops when the output is full. */
  method CopyMatch(dst: array<Byte>, o: nat, pos: nat, len: nat) returns (e: nat)
    requires pos < o <= dst.Length
    modifies dst
    ensures o <= e <= dst.Length
    ensures dst[..e] == Copy(old(dst[..o]), pos + 1, len, dst.Length)
  {
    var from, left: nat := o - pos - 1, len;
    e := o;
    while left > 0 && e < dst.Length
      invariant left <= len && o <= e <= dst.Length && from == e - pos - 1
      invariant Copy(dst[..e], pos + 1, left, dst.Length) == Copy(old(dst[..o]), pos + 1, len, dst.Length)
    {
      ghost var before := dst[..e];
      dst[e] := dst[from];
      assert dst[..e + 1] == before + [before[|before| - (pos + 1)]];
      e, from, left := e + 1, from + 1, left - 1;
    }
  }

  /** The output so far is what step says, or the data is bad. */
  ghost predicate Output(step: Step<seq<Byte>>, out: seq<Byte>, r: BitReader)
    reads r
  {
    match step
    case Got(s, p) => out == s && r.bitpos == p && !r.bad
    case Fail => r.bad
  }

  method GetPos(r: BitReader, pt: CodeTree) returns (pos: nat)
    requires pt.Ready()
    modifies r
    ensures match ReadPos(r.Stream(), old(r.bitpos), pt.View())
      case Got(d, p) => pos == d && r.bitpos == p && r.bad == old(r.bad)
      case Fail => r.bad
    ensures r.bitpos >= old(r.bitpos) && (old(r.bad) ==> r.bad)
  {
    hide DecodeSym, Acceptable, Tables, BytesBits, Peek;
    var k := pt.TreeDecode(r);
    pos := k;
    if k > 1 {
      var x := r.GetBits(k - 1);
      pos := Pow2(k - 1) + x;
    }
  }

  method GetToks(r: BitReader, codes: nat, ct: CodeTree, pt: CodeTree, dst: array<Byte>, start: nat) returns (o: nat)
    requires start <= dst.Length && (!r.bad ==> ct.Ready() && pt.Ready())
    modifies r, dst
    ensures start <= o <= dst.Length && r.bitpos >= old(r.bitpos) && (old(r.bad) ==> r.bad)
    ensures !old(r.bad) ==>
      Output(ReadToks(r.Stream(), old(r.bitpos), codes, old(ct.View()), old(pt.View()), old(dst[..start]), dst.Length), dst[..o], r)
  {
    hide DecodeSym, ReadPos, Acceptable, Tables, BytesBits, Copy;
    o := start;
    if r.bad {
      return;
    }
    ghost var b, c, p := r.Stream(), ct.View(), pt.View();
    ghost var goal := ReadToks(b, r.bitpos, codes, c, p, dst[..o], dst.Length);
    var k := 0;
    while k < codes && o < dst.Length && !r.bad
      invariant k <= codes && start <= o <= dst.Length && r.bitpos >= old(r.bitpos)
      invariant ct.Ready() && pt.Ready() && ct.View() == c && pt.View() == p
      invariant if r.bad then goal == Fail else goal == ReadToks(b, r.bitpos, codes - k, c, p, dst[..o], dst.Length)
      decreases codes - k
    {
      o := GetTok(r, ct, pt, dst, o, codes - k);
      k := k + 1;
    }
  }

  /** One token. */
  method GetTok(r: BitReader, ct: CodeTree, pt: CodeTree, dst: array<Byte>, o: nat, ghost k: nat) returns (e: nat)
    requires !r.bad && ct.Ready() && pt.Ready() && o < dst.Length && k > 0
    modifies r, dst
    ensures o <= e <= dst.Length && r.bitpos >= old(r.bitpos)
    ensures var step := ReadToks(r.Stream(), old(r.bitpos), k, old(ct.View()), old(pt.View()), old(dst[..o]), dst.Length);
      if r.bad then step == Fail
      else step == ReadToks(r.Stream(), r.bitpos, k - 1, old(ct.View()), old(pt.View()), dst[..e], dst.Length)
  {
    hide DecodeSym, ReadPos, Acceptable, Tables, BytesBits, Copy;
    ghost var out := dst[..o];
    var c := ct.TreeDecode(r);
    if c < 256 {
      dst[o] := c;
      e := o + 1;
      assert dst[..e] == out + [c];
    } else {
      e := o;
      if !r.bad {
        var pos := GetPos(r, pt);
        if pos + 1 > o {
          r.bad := true;
        } else {
          e := CopyMatch(dst, o, pos, c - (256 - THRESHOLD));
        }
      }
    }
  }

  // ---- the file ----

  ghost predicate Apart(a: CodeTree, b: CodeTree) {
    a != b && {a.len, a.cnt, a.sorted} !! {b.len, b.cnt, b.sorted}
  }

  method GetBlock(r: BitReader, tt: CodeTree, ct: CodeTree, pt: CodeTree, dst: array<Byte>, o: nat) returns (e: nat)
    requires !r.bad && o < dst.Length && tt.Valid() && ct.Valid() && pt.Valid()
    requires Apart(tt, ct) && Apart(tt, pt) && Apart(ct, pt)
    modifies r, dst, tt, tt.len, tt.cnt, tt.sorted, ct, ct.len, ct.cnt, ct.sorted, pt, pt.len, pt.cnt, pt.sorted
    ensures tt.Valid() && ct.Valid() && pt.Valid()
    ensures o <= e <= dst.Length && r.bitpos >= old(r.bitpos) + 16
    ensures Output(ReadBlock(r.Stream(), old(r.bitpos), old(dst[..o]), dst.Length), dst[..e], r)
  {
    hide ReadPt, ReadC, ReadToks, Acceptable, Tables, BytesBits, Peek;
    var codes := r.GetBits(16);
    GetPt(r, tt, NT, TBIT, 3);
    GetC(r, tt, ct);
    GetPt(r, pt, NP, PBIT, -1);
    e := GetToks(r, codes, ct, pt, dst, o);
  }

  /** Decodes blocks until osize bytes are known or the data is bad. */
  method DecodeBlocks(src: seq<Byte>, osize: nat) returns (result: Option<seq<Byte>>)
    ensures result == ReadBlocks(BytesBits(src), 0, [], osize, |src|)
  {
    hide ReadBlock, BytesBits;
    var dst := new Byte[osize](_ => 0);
    var r := new BitReader(src);
    var tt := new CodeTree();
    var ct := new CodeTree();
    var pt := new CodeTree();
    ghost var b, goal := r.Stream(), ReadBlocks(r.Stream(), 0, [], osize, |src|);
    var o := 0;
    assert dst[..0] == [];
    while o < osize && !r.bad
      invariant o <= osize && tt.Valid() && ct.Valid() && pt.Valid()
      invariant Apart(tt, ct) && Apart(tt, pt) && Apart(ct, pt)
      invariant fresh({r, dst, tt, ct, pt, tt.len, tt.cnt, tt.sorted, ct.len, ct.cnt, ct.sorted, pt.len, pt.cnt, pt.sorted})
      invariant !r.bad ==> r.bitpos < 8 * (|src| + 2) && ReadBlocks(b, r.bitpos, dst[..o], osize, |src|) == goal
      invariant r.bad ==> goal == None
      decreases if r.bad then 0 else 1, 8 * (|src| + 2) - r.bitpos
    {
      o := GetBlock(r, tt, ct, pt, dst, o);
      if r.bitpos / 8 > LastByte(|src|) {
        r.bad := true;
      }
    }
    if r.bad {
      return None;
    }
    assert dst[..o] == dst[..];
    return Some(dst[..]);
  }

  /** Decompresses any input; every file of the format to the bytes it stands for. */
  method Decompress(file: seq<Byte>) returns (result: Option<seq<Byte>>)
    ensures result == Decode(file)
    ensures forall s :: Format.Stands(file, s) ==> result == Some(s)
  {
    forall s | Format.Stands(file, s) ensures Decode(file) == Some(s) {
      FormatDecoding.StandsDecodes(file, s);
    }
    hide Format.Stands;
    if |file| < 8 {
      return None;
    }
    var csize, osize := Le32(file[..4]), Le32(file[4..8]);
    if csize > |file| - 8 || osize > MAXSIZE {
      return None;
    }
    result := DecodeBlocks(file[8..8 + csize], osize);
  }

  /** Compressing and decompressing any input of at most 2^30 bytes gives it back. */
  method RoundTrip(s: seq<Byte>) returns (t: Option<seq<Byte>>)
    requires |s| <= MAXSIZE
    ensures t == Some(s)
  {
    var file := Compressor.Compress(s);
    t := Decompress(file);
  }
}
