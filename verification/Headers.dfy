/** How code lengths are sent: the T and P trees as short numbers, the C tree as runs coded with T.
    For each header there is the text that is written and an independent reading of it. */
module Headers {
  import opened Bits
  import opened Canonical
  import opened Trees

  const NT: nat := 19
  const NP: nat := 14
  const TBIT: nat := 5
  const PBIT: nat := 4
  const CBIT: nat := 9

  function Zeros(n: nat): (s: seq<nat>)
    ensures |s| == n && forall i :: 0 <= i < n ==> s[i] == 0
  {
    seq(n, _ => 0)
  }

  /** The number of lengths below n that remain without the zeros at the end. */
  function Trim(lens: seq<nat>, n: nat): (m: nat)
    requires n <= |lens|
    ensures m <= n
    ensures m > 0 ==> lens[m - 1] > 0
    ensures forall i :: m <= i < n ==> lens[i] == 0
  {
    if n > 0 && lens[n - 1] == 0 then Trim(lens, n - 1) else n
  }

  // ---- one length ----

  /** Up to 6 in three bits; a longer one as 1-bits, one for each unit above 3, and a 0-bit. */
  function LenBits(k: nat): seq<bool> {
    if k <= 6 then BitsOf(k, 3) else BitsOf(Pow2(k - 3) - 2, k - 3)
  }

  /** The number of consecutive 1-bits at pos. */
  function Ones(b: seq<bool>, pos: nat): nat
    decreases |b| - pos
  {
    if BitAt(b, pos) then 1 + Ones(b, pos + 1) else 0
  }

  /** A length and the position after it. */
  function ReadLen(b: seq<bool>, pos: nat): (nat, nat) {
    var c := Peek(b, pos, 3);
    if c == 7 then (7 + Ones(b, pos + 3), pos + 4 + Ones(b, pos + 3)) else (c, pos + 3)
  }

  function OneBits(n: nat): (b: seq<bool>)
    ensures |b| == n
  {
    seq(n, _ => true)
  }

  lemma {:induction false} AllOnes(n: nat)
    ensures BitsOf(Pow2(n) - 1, n) == OneBits(n)
  {
    if n > 0 {
      AllOnes(n - 1);
      assert (Pow2(n) - 1) / 2 == Pow2(n - 1) - 1;
    }
  }

  lemma LongLenBits(k: nat)
    requires k > 6
    ensures LenBits(k) == OneBits(3) + (OneBits(k - 7) + [false])
  {
    assert (Pow2(k - 3) - 2) / 2 == Pow2(k - 4) - 1;
    AllOnes(k - 4);
    assert OneBits(k - 4) == OneBits(3) + OneBits(k - 7);
  }

  lemma {:induction false} OnesAt(b: seq<bool>, pos: nat, n: nat)
    requires At(b, pos, OneBits(n) + [false])
    ensures Ones(b, pos) == n
    decreases n
  {
    assert b[pos + n] == b[pos..pos + n + 1][n] == false;
    if n > 0 {
      assert b[pos] == b[pos..pos + n + 1][0] == true;
      AtConcat(b, pos, [true], OneBits(n - 1) + [false]) by {
        assert OneBits(n) + [false] == [true] + (OneBits(n - 1) + [false]);
      }
      OnesAt(b, pos + 1, n - 1);
    }
  }

  lemma LenRoundTrip(k: nat, b: seq<bool>, pos: nat)
    requires At(b, pos, LenBits(k))
    ensures ReadLen(b, pos) == (k, pos + |LenBits(k)|)
  {
    if k <= 6 {
      assert Pow2(3) == 8;
      PeekBitsOf(b, pos, k, 3);
    } else {
      LongLenBits(k);
      AtConcat(b, pos, OneBits(3), OneBits(k - 7) + [false]);
      AllOnes(3);
      assert Pow2(3) == 8;
      PeekBitsOf(b, pos, 7, 3);
      OnesAt(b, pos + 3, k - 7);
    }
  }

  // ---- T and P trees ----

  /** The writer skips zeros after the special position, at most up to position 6. */
  function SkipZeros(lens: seq<nat>, n: nat, i: nat): (j: nat)
    requires i <= n <= |lens|
    ensures i <= j <= n && (j > i ==> j <= 6)
    ensures forall k :: i <= k < j ==> lens[k] == 0
    decreases n - i
  {
    if i < 6 && i < n && lens[i] == 0 then SkipZeros(lens, n, i + 1) else i
  }

  /** The lengths from position i on; after the special position (3, if any) the number of skipped
      zeros is sent in two bits. */
  function LensBits(lens: seq<nat>, n: nat, special: int, i: nat): seq<bool>
    requires i <= n <= |lens|
    decreases n - i
  {
    if i == n then []
    else if i + 1 == special then
      var j := SkipZeros(lens, n, i + 1);
      LenBits(lens[i]) + (BitsOf((j - 3) % 4, 2) + LensBits(lens, n, special, j))
    else LenBits(lens[i]) + LensBits(lens, n, special, i + 1)
  }

  function PtBits(t: Tree, nbit: nat, special: int): seq<bool> {
    if t.single >= 0 then BitsOf(0, nbit) + BitsOf(t.single, nbit)
    else BitsOf(Trim(t.lens, |t.lens|), nbit) + LensBits(t.lens, Trim(t.lens, |t.lens|), special, 0)
  }

  /** Reads lengths until n of them (or all nn) are known; each is kept in a byte. */
  function ReadLens(b: seq<bool>, pos: nat, n: nat, nn: nat, special: int, acc: seq<nat>): (seq<nat>, nat)
    requires |acc| <= nn
    decreases nn - |acc|
  {
    if |acc| < n && |acc| < nn then
      var (c, p) := ReadLen(b, pos);
      var next := acc + [(c % 256) as nat];
      if |next| == special then
        var z := Peek(b, p, 2);
        ReadLens(b, p + 2, n, nn, special, next + Zeros(if z <= nn - |next| then z else nn - |next|))
      else ReadLens(b, p, n, nn, special, next)
    else (acc, pos)
  }

  lemma {:induction false} ReadLensBound(b: seq<bool>, pos: nat, n: nat, nn: nat, special: int, acc: seq<nat>)
    requires |acc| <= nn
    ensures |ReadLens(b, pos, n, nn, special, acc).0| <= nn
    ensures ReadLens(b, pos, n, nn, special, acc).1 >= pos
    decreases nn - |acc|
  {
    if |acc| < n && |acc| < nn {
      var (c, p) := ReadLen(b, pos);
      var next := acc + [(c % 256) as nat];
      if |next| == special {
        var z := Peek(b, p, 2);
        ReadLensBound(b, p + 2, n, nn, special, next + Zeros(if z <= nn - |next| then z else nn - |next|));
      } else {
        ReadLensBound(b, p, n, nn, special, next);
      }
    }
  }

  ghost function ReadPt(b: seq<bool>, pos: nat, nn: nat, nbit: nat, special: int): (r: Step<Tree>)
    ensures r.Got? ==> r.pos >= pos
  {
    var n := Peek(b, pos, nbit);
    if n == 0 then Got(Tree(Zeros(nn), Peek(b, pos + nbit, nbit)), pos + 2 * nbit)
    else
      var (acc, p) := ReadLens(b, pos + nbit, n, nn, special, []);
      ReadLensBound(b, pos + nbit, n, nn, special, []);
      var lens := acc + Zeros(nn - |acc|);
      if Acceptable(lens) then Got(Tree(lens, -1), p) else Fail
  }

  lemma {:induction false} LensRoundTrip(lens: seq<nat>, n: nat, special: int, i: nat, b: seq<bool>, pos: nat)
    requires i <= n <= |lens| && Bounded(lens) && (special < 0 || special == 3)
    requires At(b, pos, LensBits(lens, n, special, i))
    ensures ReadLens(b, pos, n, |lens|, special, lens[..i]) == (lens[..n], pos + |LensBits(lens, n, special, i)|)
    decreases n - i
  {
    hide At, LenBits, BitsOf, ReadLen, SkipZeros, Zeros, Peek;
    if i < n {
      var next := lens[..i + 1];
      assert next == lens[..i] + [lens[i]];
      var k, p := LenBits(lens[i]), pos + |LenBits(lens[i])|;
      if i + 1 == special {
        var j := SkipZeros(lens, n, 3);
        var rest := LensBits(lens, n, special, j);
        AtConcat(b, pos, k, BitsOf((j - 3) % 4, 2) + rest);
        LenRoundTrip(lens[i], b, pos);
        SkipRoundTrip(lens, j, b, p, rest);
        LensRoundTrip(lens, n, special, j, b, p + 2);
      } else {
        AtConcat(b, pos, k, LensBits(lens, n, special, i + 1));
        LenRoundTrip(lens[i], b, pos);
        LensRoundTrip(lens, n, special, i + 1, b, p);
      }
    }
  }

  lemma SkipRoundTrip(lens: seq<nat>, j: nat, b: seq<bool>, p: nat, rest: seq<bool>)
    requires 3 <= j <= 6 && j <= |lens| && forall k :: 3 <= k < j ==> lens[k] == 0
    requires At(b, p, BitsOf((j - 3) % 4, 2) + rest)
    ensures Peek(b, p, 2) == j - 3 && At(b, p + 2, rest)
    ensures lens[..3] + Zeros(j - 3) == lens[..j]
  {
    AtConcat(b, p, BitsOf((j - 3) % 4, 2), rest);
    assert Pow2(2) == 4;
    PeekBitsOf(b, p, j - 3, 2);
  }

  /** A tree that has a T or P header: a single symbol, or a complete code. */
  ghost predicate Sendable(t: Tree, nn: nat, nbit: nat) {
    |t.lens| == nn < Pow2(nbit) && -1 <= t.single < Pow2(nbit)
    && if t.single >= 0 then t.lens == Zeros(nn) else Complete(t.lens)
  }

  lemma {:induction false} CompleteUses(lens: seq<nat>, n: nat)
    requires n <= |lens| && KraftUpTo(lens, MAXLEN, n) > 0
    ensures exists i :: 0 <= i < n && lens[i] > 0
  {
    if lens[n - 1] == 0 {
      CompleteUses(lens, n - 1);
    }
  }

  lemma TrimComplete(lens: seq<nat>)
    requires Complete(lens)
    ensures Trim(lens, |lens|) > 0
  {
    CompleteUses(lens, |lens|);
  }

  /** What is read when n lengths are announced. */
  lemma ReadPtLens(b: seq<bool>, pos: nat, t: Tree, nbit: nat, special: int, n: nat, end: nat)
    requires 0 < n == Peek(b, pos, nbit) && n <= |t.lens| && t.single == -1 && Complete(t.lens)
    requires ReadLens(b, pos + nbit, n, |t.lens|, special, []) == (t.lens[..n], end)
    requires t.lens == t.lens[..n] + Zeros(|t.lens| - n)
    ensures ReadPt(b, pos, |t.lens|, nbit, special) == Got(t, end)
  {
    hide Complete, Peek, ReadLens;
  }

  lemma PtSingle(t: Tree, nbit: nat, special: int, b: seq<bool>, pos: nat)
    requires Sendable(t, |t.lens|, nbit) && t.single >= 0
    requires At(b, pos, PtBits(t, nbit, special))
    ensures ReadPt(b, pos, |t.lens|, nbit, special) == Got(t, pos + |PtBits(t, nbit, special)|)
  {
    hide At, BitsOf, ReadLens, Complete, Peek;
    AtConcat(b, pos, BitsOf(0, nbit), BitsOf(t.single, nbit));
    PeekBitsOf(b, pos, 0, nbit);
    PeekBitsOf(b, pos + nbit, t.single, nbit);
  }

  lemma PtLens(t: Tree, nbit: nat, special: int, b: seq<bool>, pos: nat)
    requires Sendable(t, |t.lens|, nbit) && t.single == -1 && (special < 0 || special == 3)
    requires At(b, pos, PtBits(t, nbit, special))
    ensures ReadPt(b, pos, |t.lens|, nbit, special) == Got(t, pos + |PtBits(t, nbit, special)|)
  {
    hide At, BitsOf, LensBits, ReadLens, ReadPt, Peek, Trim, KraftUpTo;
    var n := Trim(t.lens, |t.lens|);
    var lens := LensBits(t.lens, n, special, 0);
    TrimComplete(t.lens);
    AtConcat(b, pos, BitsOf(n, nbit), lens);
    PeekBitsOf(b, pos, n, nbit);
    LensRoundTrip(t.lens, n, special, 0, b, pos + nbit);
    assert t.lens[..0] == [] && t.lens == t.lens[..n] + Zeros(|t.lens| - n);
    ReadPtLens(b, pos, t, nbit, special, n, pos + nbit + |lens|);
  }

  /** read_pt recovers exactly the tree that write_pt sent. */
  lemma PtRoundTrip(t: Tree, nbit: nat, special: int, b: seq<bool>, pos: nat)
    requires Sendable(t, |t.lens|, nbit) && (special < 0 || special == 3)
    requires At(b, pos, PtBits(t, nbit, special))
    ensures ReadPt(b, pos, |t.lens|, nbit, special) == Got(t, pos + |PtBits(t, nbit, special)|)
  {
    if t.single >= 0 {
      PtSingle(t, nbit, special, b, pos);
    } else {
      PtLens(t, nbit, special, b, pos);
    }
  }
}
