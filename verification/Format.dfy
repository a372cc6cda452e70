/** The compressed format of section 19.2 of the UEFI Specification 2.10: which files stand for which
    bytes. Nothing here depends on how files are written or read. */
module Format {
  import opened Bits

  // ---- numbers and bits ----

  /** v in n binary digits, the most significant one first. */
  function Num(v: nat, n: nat): (b: seq<bool>)
    ensures |b| == n
  {
    seq(n, i requires 0 <= i < n => v / Pow2(n - 1 - i) % 2 == 1)
  }

  /** b are the bits of the bytes s, the most significant bit of each byte first. */
  ghost predicate BitsIn(s: seq<Byte>, b: seq<bool>) {
    |b| == 8 * |s| && forall i :: 0 <= i < |b| ==> b[i] == (s[i / 8] / Pow2(7 - i % 8) % 2 == 1)
  }

  /** A 32-bit number, low byte first. */
  function Word(s: seq<Byte>): nat
    requires |s| == 4
  {
    s[0] as nat + 256 * s[1] as nat + 65536 * s[2] as nat + 16777216 * s[3] as nat
  }

  // ---- code lengths and codes ----

  /** A code length: three bits up to 6; above, three 1-bits, one more for each unit above 7, and a 0-bit. */
  function Length(l: nat): seq<bool> {
    if l <= 6 then Num(l, 3) else [true, true, true] + seq(l - 7, _ => true) + [false]
  }

  function Lengths(ls: seq<nat>): seq<bool> {
    if ls == [] then [] else Length(ls[0]) + Lengths(ls[1..])
  }

  /** The space the codes of the symbols below n take, in units of 2^-16. */
  function Space(lens: seq<nat>, n: nat): nat
    requires n <= |lens|
  {
    if n == 0 then 0 else Space(lens, n - 1) + (if 0 < lens[n - 1] <= 16 then Pow2(16 - lens[n - 1]) else 0)
  }

  /** Code lengths of a complete code: none above 16, and all the space is taken. */
  ghost predicate Full(lens: seq<nat>) {
    (forall i :: 0 <= i < |lens| ==> lens[i] <= 16) && Space(lens, |lens|) == 65536
  }

  /** The code of t comes before that of s: it is shorter, or as long and t is the smaller symbol. */
  predicate Precedes(lens: seq<nat>, t: nat, s: nat)
    requires t < |lens| && s < |lens|
  {
    0 < lens[t] < lens[s] || (lens[t] == lens[s] && t < s)
  }

  /** The space of the codes below n that come before that of s, in units of its own space. */
  function Before(lens: seq<nat>, s: nat, n: nat): nat
    requires s < |lens| && n <= |lens|
  {
    if n == 0 then 0
    else Before(lens, s, n - 1) + (if Precedes(lens, n - 1, s) then Pow2(lens[s] - lens[n - 1]) else 0)
  }

  /** The code of s: in order of length and symbol, each code begins where the one before ends. */
  function Code(lens: seq<nat>, s: nat): seq<bool>
    requires s < |lens|
  {
    Num(Before(lens, s, |lens|), lens[s])
  }

  /** A table of code lengths of which the first n are sent, or the only symbol there is. */
  datatype Table = Listed(n: nat, lens: seq<nat>) | Only(sym: nat)

  /** A table of size symbols, its count sent in width bits. */
  ghost predicate TableOk(t: Table, size: nat, width: nat) {
    match t
    case Listed(n, lens) =>
      0 < n <= size == |lens| < Pow2(width) && Full(lens) && forall i :: n <= i < size ==> lens[i] == 0
    case Only(sym) => sym < Pow2(width)
  }

  ghost predicate Usable(t: Table, s: nat) {
    match t
    case Listed(_, lens) => s < |lens| && lens[s] > 0
    case Only(sym) => s == sym
  }

  function Sym(t: Table, s: nat): seq<bool>
    requires Usable(t, s)
  {
    match t
    case Listed(_, lens) => Code(lens, s)
    case Only(_) => []
  }

  // ---- the three headers ----

  /** The lengths of the T codes, 19 at most: behind the third one, two bits say how many zeros follow. */
  function TText(t: Table, skip: nat): seq<bool>
    requires t.Listed? ==> t.n <= |t.lens| && (t.n >= 3 ==> 3 + skip <= t.n)
  {
    match t
    case Listed(n, lens) =>
      if n < 3 then Num(n, 5) + Lengths(lens[..n])
      else Num(n, 5) + (Lengths(lens[..3]) + (Num(skip, 2) + Lengths(lens[3 + skip..n])))
    case Only(sym) => Num(0, 5) + Num(sym, 5)
  }

  ghost predicate SkipOk(t: Table, skip: nat) {
    t.Listed? && t.n >= 3 ==>
      skip <= 3 && 3 + skip <= t.n <= |t.lens| && forall i :: 3 <= i < 3 + skip ==> t.lens[i] == 0
  }

  /** The lengths of the P codes, 14 at most. */
  function PText(t: Table): seq<bool>
    requires t.Listed? ==> t.n <= |t.lens|
  {
    match t
    case Listed(n, lens) => Num(n, 4) + Lengths(lens[..n])
    case Only(sym) => Num(0, 4) + Num(sym, 4)
  }

  /** How the lengths of the C codes, 510 at most, are sent. */
  datatype Item = OneZero | SomeZeros(z: nat) | ManyZeros(z: nat) | Len(l: nat)

  ghost predicate ItemOk(x: Item, t: Table) {
    match x
    case OneZero => Usable(t, 0)
    case SomeZeros(z) => 3 <= z <= 18 && Usable(t, 1)
    case ManyZeros(z) => 20 <= z <= 531 && Usable(t, 2)
    case Len(l) => 1 <= l <= 16 && Usable(t, l + 2)
  }

  function ItemText(x: Item, t: Table): seq<bool>
    requires ItemOk(x, t)
  {
    match x
    case OneZero => Sym(t, 0)
    case SomeZeros(z) => Sym(t, 1) + Num(z - 3, 4)
    case ManyZeros(z) => Sym(t, 2) + Num(z - 20, 9)
    case Len(l) => Sym(t, l + 2)
  }

  function ItemLens(x: Item): seq<nat> {
    match x
    case OneZero => [0]
    case SomeZeros(z) => seq(z, _ => 0)
    case ManyZeros(z) => seq(z, _ => 0)
    case Len(l) => [l]
  }

  function ItemsText(xs: seq<Item>, t: Table): seq<bool>
    requires forall i :: 0 <= i < |xs| ==> ItemOk(xs[i], t)
  {
    if xs == [] then [] else ItemText(xs[0], t) + ItemsText(xs[1..], t)
  }

  function ItemsLens(xs: seq<Item>): seq<nat> {
    if xs == [] then [] else ItemLens(xs[0]) + ItemsLens(xs[1..])
  }

  function CText(c: Table, xs: seq<Item>, t: Table): seq<bool>
    requires forall i :: 0 <= i < |xs| ==> ItemOk(xs[i], t)
  {
    match c
    case Listed(n, _) => Num(n, 9) + ItemsText(xs, t)
    case Only(sym) => Num(0, 9) + Num(sym, 9)
  }

  ghost predicate ItemsOk(c: Table, xs: seq<Item>, t: Table) {
    && (forall i :: 0 <= i < |xs| ==> ItemOk(xs[i], t))
    && match c
       case Listed(n, lens) => n <= |lens| && ItemsLens(xs) == lens[..n]
       case Only(_) => xs == []
  }

  // ---- the text ----

  /** A byte; or len bytes copied from dist bytes before, where digits is the number of binary digits of dist - 1. */
  datatype Token = Literal(c: Byte) | Copy(len: nat, dist: nat, digits: nat)

  ghost predicate TokenOk(x: Token, c: Table, p: Table) {
    match x
    case Literal(b) => Usable(c, b)
    case Copy(len, dist, k) =>
      && 3 <= len <= 256 && 1 <= dist <= 8192
      && (if k == 0 then dist == 1 else Pow2(k - 1) <= dist - 1 < Pow2(k))
      && Usable(c, len + 253) && Usable(p, k)
  }

  function TokenText(x: Token, c: Table, p: Table): seq<bool>
    requires TokenOk(x, c, p)
  {
    match x
    case Literal(b) => Sym(c, b)
    case Copy(len, dist, k) =>
      Sym(c, len + 253) + (Sym(p, k) + if k < 2 then [] else Num(dist - 1 - Pow2(k - 1), k - 1))
  }

  function TokensText(xs: seq<Token>, c: Table, p: Table): seq<bool>
    requires forall i :: 0 <= i < |xs| ==> TokenOk(xs[i], c, p)
  {
    if xs == [] then [] else TokenText(xs[0], c, p) + TokensText(xs[1..], c, p)
  }

  function Size(x: Token): nat {
    match x
    case Literal(_) => 1
    case Copy(len, _, _) => len
  }

  /** Token x stands for the bytes of s at position at. */
  predicate Spells(x: Token, s: seq<Byte>, at: nat) {
    match x
    case Literal(c) => at < |s| && s[at] == c
    case Copy(len, dist, _) =>
      1 <= dist <= at && at + len <= |s| && forall k :: at <= k < at + len ==> s[k] == s[k - dist]
  }

  /** The tokens stand for s from position at up to position end. */
  predicate SpellAll(xs: seq<Token>, s: seq<Byte>, at: nat, end: nat)
    decreases xs
  {
    if xs == [] then at == end else Spells(xs[0], s, at) && SpellAll(xs[1..], s, at + Size(xs[0]), end)
  }

  // ---- blocks and files ----

  datatype Block = Block(t: Table, skip: nat, c: Table, items: seq<Item>, p: Table, tokens: seq<Token>)

  ghost predicate BlockOk(k: Block) {
    && 0 < |k.tokens| < 65536
    && TableOk(k.t, 19, 5) && SkipOk(k.t, k.skip) && TableOk(k.c, 510, 9) && TableOk(k.p, 14, 4)
    && ItemsOk(k.c, k.items, k.t) && forall i :: 0 <= i < |k.tokens| ==> TokenOk(k.tokens[i], k.c, k.p)
  }

  function BlockText(k: Block): seq<bool>
    requires BlockOk(k)
  {
    Num(|k.tokens|, 16) + (TText(k.t, k.skip) + (CText(k.c, k.items, k.t) + (PText(k.p) + TokensText(k.tokens, k.c, k.p))))
  }

  /** The blocks stand one behind the other in b from position pos, and for s from position at to its end. */
  ghost predicate BlocksAt(ks: seq<Block>, b: seq<bool>, pos: nat, s: seq<Byte>, at: nat)
    decreases ks
  {
    if ks == [] then at == |s|
    else
      && BlockOk(ks[0])
      && (var e := pos + |BlockText(ks[0])|;
        && e <= |b| && b[pos..e] == BlockText(ks[0])
        && exists m :: SpellAll(ks[0].tokens, s, at, m) && BlocksAt(ks[1..], b, e, s, m))
  }

  /** The file is a compressed form of s: the sizes of the blocks and of s, then the blocks. The largest
      32-bit number cannot be the size of the blocks. */
  ghost predicate Stands(file: seq<Byte>, s: seq<Byte>) {
    && |file| >= 8 && Word(file[..4]) <= |file| - 8 && Word(file[..4]) < 0xFFFF_FFFF
    && Word(file[4..8]) == |s| <= 0x4000_0000
    && exists ks, b :: BitsIn(file[8..8 + Word(file[..4])], b) && BlocksAt(ks, b, 0, s, 0)
  }
}
