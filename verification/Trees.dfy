/** Code trees: a canonical code given by its lengths, or a single symbol sent with no bits. */
module Trees {
  import opened Bits
  import opened BitIO
  import opened Canonical

  /** single >= 0: every code is this symbol and takes no bits. */
  datatype Tree = Tree(lens: seq<nat>, single: int)

  /** The outcome of reading at a bit position: a value and the next position, or bad data. */
  datatype Step<+T> = Fail | Got(val: T, pos: nat)

  function EncodeSym(t: Tree, s: nat): seq<bool>
    requires Codes(t, s)
  {
    if t.single >= 0 then [] else CodeBits(t.lens, s)
  }

  /** Symbol s can be sent with tree t. */
  ghost predicate Codes(t: Tree, s: nat) {
    if t.single >= 0 then s == t.single
    else Complete(t.lens) && s < |t.lens| && t.lens[s] > 0
  }

  /** The symbol whose code stands in b at pos. */
  ghost function DecodeSym(t: Tree, b: seq<bool>, pos: nat): (r: Step<nat>)
    ensures r.Got? ==> r.pos >= pos
  {
    if t.single >= 0 then Got(t.single, pos)
    else if exists s: nat :: Matches(t.lens, s, b, pos) then
      var s: nat :| Matches(t.lens, s, b, pos);
      Got(s, pos + t.lens[s])
    else Fail
  }

  lemma DecodeMatch(t: Tree, s: nat, b: seq<bool>, pos: nat)
    requires t.single < 0 && Matches(t.lens, s, b, pos)
    ensures DecodeSym(t, b, pos) == Got(s, pos + t.lens[s])
  {
    var s': nat :| Matches(t.lens, s', b, pos) && DecodeSym(t, b, pos) == Got(s', pos + t.lens[s']);
    MatchUnique(t.lens, s, s', b, pos);
  }

  /** A symbol that was sent is read back, whatever follows it, and exactly its bits are used. */
  lemma DecodeEncode(t: Tree, s: nat, b: seq<bool>, pos: nat)
    requires Codes(t, s) && At(b, pos, EncodeSym(t, s))
    ensures DecodeSym(t, b, pos) == Got(s, pos + |EncodeSym(t, s)|)
  {
    if t.single < 0 {
      MatchesAt(t.lens, s, b, pos);
      DecodeMatch(t, s, b, pos);
    }
  }

  /** Decoding with a complete table never fails and takes at most 16 bits. */
  lemma CompleteNeverFails(t: Tree, b: seq<bool>, pos: nat)
    requires Complete(t.lens)
    ensures DecodeSym(t, b, pos).Got? && pos <= DecodeSym(t, b, pos).pos <= pos + MAXLEN
  {
    if t.single < 0 {
      SomeMatch(t.lens, b, pos);
      var s: nat :| Matches(t.lens, s, b, pos);
      DecodeMatch(t, s, b, pos);
    }
  }

  // ---- code assignment ----

  /** Conversion to a 16-bit unsigned integer. */
  function U16(v: nat): (r: nat)
    ensures v < 0x1_0000 ==> r == v
  {
    v % 0x1_0000
  }

  /** The code of every used symbol, as stored in 16 bits. */
  method CanonCodes(lens: seq<nat>) returns (code: seq<nat>)
    requires Bounded(lens)
    ensures |code| == |lens|
    ensures forall i :: 0 <= i < |lens| && lens[i] > 0 ==> code[i] == U16(CodeVal(lens, i))
  {
    hide First, U16;
    var next := FirstCodes(lens);
    var codes := new nat[|lens|](_ => 0);
    for i := 0 to |lens|
      invariant forall l :: 1 <= l <= MAXLEN ==> next[l] == First(lens, l) + Count(lens, l, i)
      invariant forall k :: 0 <= k < i && lens[k] > 0 ==> codes[k] == U16(CodeVal(lens, k))
    {
      if lens[i] > 0 {
        codes[i] := U16(next[lens[i]]);
        next[lens[i]] := next[lens[i]] + 1;
      }
    }
    code := codes[..];
  }

  method FirstCodes(lens: seq<nat>) returns (next: array<nat>)
    requires Bounded(lens)
    ensures fresh(next) && next.Length == MAXLEN + 2
    ensures forall l :: 1 <= l <= MAXLEN ==> next[l] == First(lens, l)
  {
    var count := CountLengths(lens);
    count[0] := 0;
    next := new nat[MAXLEN + 2](_ => 0);
    var c := 0;
    for l := 1 to MAXLEN + 1
      invariant forall k :: 0 <= k <= MAXLEN ==> count[k] == Cnt(lens, k)
      invariant c == First(lens, l - 1)
      invariant forall k :: 1 <= k < l ==> next[k] == First(lens, k)
    {
      c := (c + count[l - 1]) * 2;
      next[l] := c;
    }
  }

  method CountLengths(lens: seq<nat>) returns (count: array<nat>)
    requires Bounded(lens)
    ensures fresh(count) && count.Length == MAXLEN + 2
    ensures forall l :: 0 <= l <= MAXLEN ==> count[l] == Count(lens, l, |lens|)
  {
    count := new nat[MAXLEN + 2](_ => 0);
    for i := 0 to |lens|
      invariant forall l :: 0 <= l <= MAXLEN ==> count[l] == Count(lens, l, i)
    {
      count[lens[i]] := count[lens[i]] + 1;
    }
  }

  // ---- decoding tables ----

  /** The number of symbols below n whose code is shorter than l. */
  function Below(lens: seq<nat>, l: nat, n: nat): (c: nat)
    requires n <= |lens|
    ensures c <= n
  {
    if n == 0 then 0 else Below(lens, l, n - 1) + (if 0 < lens[n - 1] < l then 1 else 0)
  }

  lemma {:induction false} BelowStep(lens: seq<nat>, l: nat, n: nat)
    requires 1 <= l && n <= |lens|
    ensures Below(lens, l + 1, n) == Below(lens, l, n) + Count(lens, l, n)
  {
    if n > 0 {
      BelowStep(lens, l, n - 1);
    }
  }

  lemma {:induction false} BelowOne(lens: seq<nat>, n: nat)
    requires n <= |lens|
    ensures Below(lens, 1, n) == 0
  {
    if n > 0 {
      BelowOne(lens, n - 1);
    }
  }

  /** Symbols sorted by length, then by number. */
  ghost predicate SortedAt(lens: seq<nat>, sorted: seq<nat>, l: nat, r: nat) {
    var k := Below(lens, l, |lens|) + r;
    k < |sorted| && sorted[k] < |lens| && lens[sorted[k]] == l && Count(lens, l, sorted[k]) == r
  }

  /** All the codes shorter than l are in place. */
  ghost predicate AllSorted(lens: seq<nat>, sorted: seq<nat>, l: nat) {
    forall m, r :: 1 <= m < l && 0 <= r < Cnt(lens, m) ==> SortedAt(lens, sorted, m, r)
  }

  lemma SortedAtExtends(lens: seq<nat>, s: seq<nat>, t: seq<nat>, l: nat, r: nat)
    requires SortedAt(lens, s, l, r) && s <= t
    ensures SortedAt(lens, t, l, r)
  {
  }

  lemma SortedExtends(lens: seq<nat>, s: seq<nat>, t: seq<nat>, l: nat)
    requires AllSorted(lens, s, l) && s <= t
    ensures AllSorted(lens, t, l)
  {
    forall m, r | 1 <= m < l && 0 <= r < Cnt(lens, m)
      ensures SortedAt(lens, t, m, r)
    {
      SortedAtExtends(lens, s, t, m, r);
    }
  }

  ghost predicate Tables(lens: seq<nat>, cnt: seq<nat>, sorted: seq<nat>) {
    && |cnt| == MAXLEN + 1
    && (forall l :: 1 <= l <= MAXLEN ==> cnt[l] == Cnt(lens, l))
    && AllSorted(lens, sorted, MAXLEN + 1)
  }

  ghost predicate Unused(lens: seq<nat>) {
    forall i :: 0 <= i < |lens| ==> lens[i] == 0
  }

  /** What the decoder accepts: a complete code, or no code at all. */
  ghost predicate Acceptable(lens: seq<nat>) {
    Unused(lens) || Complete(lens)
  }

  const NC: nat := 510

  /** A tree being read, with the tables used to decode its symbols. */
  class CodeTree {
    const len: array<nat>
    const cnt: array<nat>
    const sorted: array<nat>
    var n: nat
    var single: int

    constructor ()
      ensures Valid() && fresh(len) && fresh(cnt) && fresh(sorted)
    {
      len := new nat[NC](_ => 0);
      cnt := new nat[MAXLEN + 1](_ => 0);
      sorted := new nat[NC](_ => 0);
      n, single := 0, -1;
    }

    ghost predicate Valid()
      reads this
    {
      && len.Length == NC && sorted.Length == NC && cnt.Length == MAXLEN + 1
      && len != cnt && len != sorted && cnt != sorted
      && n <= NC
    }

    ghost function View(): Tree
      requires Valid()
      reads this, len
    {
      Tree(len[..n], single)
    }

    /** Symbols can be decoded. */
    ghost predicate Ready()
      reads this, len, cnt, sorted
    {
      Valid() && (single >= 0 || (Acceptable(len[..n]) && Tables(len[..n], cnt[..], sorted[..])))
    }

    /** Accepts the lengths or rejects them; prepares the decoding tables. */
    method TreeBuild() returns (ok: bool)
      requires Valid()
      modifies cnt, sorted
      ensures Valid()
      ensures ok == Acceptable(len[..n])
      ensures ok ==> Ready()
    {
      ok := CheckComplete();
      if ok {
        CountCodes();
        SortSymbols();
      }
    }

    method CheckComplete() returns (ok: bool)
      requires Valid()
      ensures ok == Acceptable(len[..n])
    {
      var total, used := 0, 0;
      ghost var lens := len[..n];
      for i := 0 to n
        invariant forall k :: 0 <= k < i ==> len[k] <= MAXLEN
        invariant total == KraftUpTo(lens, MAXLEN, i)
        invariant used == 0 <==> forall k :: 0 <= k < i ==> len[k] == 0
      {
        if len[i] > MAXLEN {
          assert lens[i] > MAXLEN;
          return false;
        }
        if len[i] > 0 {
          total := total + Pow2(MAXLEN - len[i]);
          used := used + 1;
        }
      }
      assert used == 0 <==> Unused(lens) by {
        assert forall k :: 0 <= k < n ==> lens[k] == len[k];
      }
      ok := !(used > 0 && total != Pow2(MAXLEN));
    }

    method CountCodes()
      requires Valid() && Bounded(len[..n])
      modifies cnt
      ensures forall l :: 1 <= l <= MAXLEN ==> cnt[l] == Cnt(len[..n], l)
    {
      forall l | 0 <= l <= MAXLEN {
        cnt[l] := 0;
      }
      ghost var lens := len[..n];
      for i := 0 to n
        invariant forall l :: 0 <= l <= MAXLEN ==> cnt[l] == Count(lens, l, i)
        invariant lens == len[..n]
      {
        assert lens[i] == len[i];
        cnt[len[i]] := cnt[len[i]] + 1;
      }
    }

    method SortSymbols()
      requires Valid() && Bounded(len[..n])
      modifies sorted
      ensures AllSorted(len[..n], sorted[..], MAXLEN + 1)
    {
      ghost var lens := len[..n];
      var k := 0;
      BelowOne(lens, n);
      for l := 1 to MAXLEN + 1
        invariant k == Below(lens, l, n) && lens == len[..n]
        invariant AllSorted(lens, sorted[..k], l)
      {
        ghost var before := sorted[..k];
        k := SortLength(l, k);
        BelowStep(lens, l, n);
        SortedExtends(lens, before, sorted[..k], l);
      }
      SortedExtends(lens, sorted[..k], sorted[..], MAXLEN + 1);
    }

    /** Appends the symbols of length l. */
    method SortLength(l: nat, start: nat) returns (k: nat)
      requires Valid() && 1 <= l <= MAXLEN && start == Below(len[..n], l, n)
      modifies sorted
      ensures k == start + Count(len[..n], l, n) <= n
      ensures sorted[..start] == old(sorted[..start])
      ensures forall r :: 0 <= r < Cnt(len[..n], l) ==> SortedAt(len[..n], sorted[..k], l, r)
    {
      ghost var lens := len[..n];
      k := start;
      BelowStep(lens, l, n);
      for i := 0 to n
        invariant lens == len[..n]
        invariant k == start + Count(lens, l, i) <= n
        invariant sorted[..start] == old(sorted[..start])
        invariant forall r :: 0 <= r < Count(lens, l, i) ==> SortedAt(lens, sorted[..k], l, r)
      {
        assert lens[i] == len[i];
        CountMono(lens, l, i, n);
        if len[i] == l {
          ghost var before := sorted[..k];
          sorted[k] := i;
          k := k + 1;
          assert before == sorted[..k - 1] <= sorted[..k];
          forall r | 0 <= r < Count(lens, l, i) {
            SortedAtExtends(lens, before, sorted[..k], l, r);
          }
          assert SortedAt(lens, sorted[..k], l, Count(lens, l, i));
        }
      }
    }

    /** Reads one symbol. */
    method TreeDecode(r: BitReader) returns (s: nat)
      requires Ready()
      modifies r
      ensures Reads(DecodeSym(View(), r.Stream(), old(r.bitpos)), s, r.bitpos, r.bad, old(r.bad))
      ensures old(r.bitpos) <= r.bitpos
    {
      if single >= 0 {
        return single;
      }
      s := FindCode(r);
    }

    /** Extends the code bit by bit until it is one of the codes of its length. */
    method FindCode(r: BitReader) returns (s: nat)
      requires Ready() && single < 0
      modifies r
      ensures Reads(DecodeSym(View(), r.Stream(), old(r.bitpos)), s, r.bitpos, r.bad, old(r.bad))
      ensures old(r.bitpos) <= r.bitpos
    {
      hide DecodeSym, AllSorted, Below, Matches, First, End, Peek;
      ghost var t, b, pos, table := View(), r.Stream(), r.bitpos, sorted[..];
      var code, first, index := 0, 0, 0;
      BelowOne(t.lens, n);
      NoneYet(t.lens, b, pos);
      for l := 1 to MAXLEN + 1
        invariant r.bitpos == pos + l - 1 && r.bad == old(r.bad)
        invariant code == 2 * Peek(b, pos, l - 1) && first == First(t.lens, l) && first <= code
        invariant index == Below(t.lens, l, n)
        invariant NoneUpTo(t.lens, b, pos, l - 1)
      {
        var bit := r.GetBits(1);
        code := code + bit;
        NextBit(b, pos, l);
        NoneNext(t.lens, b, pos, l);
        var count := cnt[l];
        assert count == Cnt(t.lens, l);
        if code - first < count {
          Found(t, table, b, pos, l);
          return sorted[index + code - first];
        }
        BelowStep(t.lens, l, n);
        index := index + count;
        first := (first + count) * 2;
        code := code * 2;
      }
      NoneMatches(t, b, pos);
      r.bad := true;
      s := 0;
    }
  }

  /** The method read s (or found bad data) exactly as step says. */
  ghost predicate Reads(step: Step<nat>, s: nat, pos: nat, bad: bool, wasBad: bool) {
    match step
    case Got(v, p) => s == v && pos == p && bad == wasBad
    case Fail => bad && s == 0
  }

  lemma NextBit(b: seq<bool>, pos: nat, l: nat)
    requires l > 0
    ensures Peek(b, pos, l) == 2 * Peek(b, pos, l - 1) + Peek(b, pos + l - 1, 1)
  {
    assert Peek(b, pos + l - 1, 0) == 0;
  }

  lemma Found(t: Tree, sorted: seq<nat>, b: seq<bool>, pos: nat, l: nat)
    requires t.single < 0 && 1 <= l <= MAXLEN && AllSorted(t.lens, sorted, MAXLEN + 1)
    requires First(t.lens, l) <= Peek(b, pos, l) < End(t.lens, l)
    ensures var k := Below(t.lens, l, |t.lens|) + Peek(b, pos, l) - First(t.lens, l);
      k < |sorted| && DecodeSym(t, b, pos) == Got(sorted[k], pos + l)
  {
    var r := Peek(b, pos, l) - First(t.lens, l);
    assert SortedAt(t.lens, sorted, l, r);
    DecodeMatch(t, sorted[Below(t.lens, l, |t.lens|) + r], b, pos);
  }

  /** No code of at most l bits stands in b at pos. */
  ghost predicate NoneUpTo(lens: seq<nat>, b: seq<bool>, pos: nat, l: nat) {
    forall m :: 0 <= m <= l ==> Peek(b, pos, m) >= End(lens, m)
  }

  lemma NoneYet(lens: seq<nat>, b: seq<bool>, pos: nat)
    ensures NoneUpTo(lens, b, pos, 0) && First(lens, 1) == 0 && Peek(b, pos, 0) == 0
  {
    assert End(lens, 0) == 0;
  }

  lemma NoneNext(lens: seq<nat>, b: seq<bool>, pos: nat, l: nat)
    requires l > 0 && NoneUpTo(lens, b, pos, l - 1)
    ensures End(lens, l) == First(lens, l) + Cnt(lens, l) && First(lens, l + 1) == 2 * End(lens, l)
    ensures Peek(b, pos, l) >= End(lens, l) ==> NoneUpTo(lens, b, pos, l)
    ensures 2 * Peek(b, pos, l - 1) >= First(lens, l)
  {
  }

  lemma NoneMatches(t: Tree, b: seq<bool>, pos: nat)
    requires t.single < 0 && Bounded(t.lens) && NoneUpTo(t.lens, b, pos, MAXLEN)
    ensures DecodeSym(t, b, pos) == Fail
  {
    forall s: nat
      ensures !Matches(t.lens, s, b, pos)
    {
      if s < |t.lens| {
        CountMono(t.lens, t.lens[s], s, |t.lens|);
      }
    }
  }
}
