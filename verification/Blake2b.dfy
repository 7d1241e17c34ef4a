/** BLAKE2b as defined in sections 2.1 to 3.3 of RFC 7693 (unkeyed). */
module Blake2bSpec {
  type Byte = bv8
  type Word = bv64
  type Index = i: nat | i < 16

  const BLOCK_SIZE := 128

  const IV: seq<Word> := [
    0x6a09e667f3bcc908, 0xbb67ae8584caa73b, 0x3c6ef372fe94f82b, 0xa54ff53a5f1d36f1,
    0x510e527fade682d1, 0x9b05688c2b3e6c1f, 0x1f83d9abfb41bd6b, 0x5be0cd19137e2179]

  /** The message word schedule, section 2.7. */
  function Sigma(round: nat): (s: seq<Index>)
    requires round < 10
    ensures |s| == 16
  {
    if round == 0 then [0, 1, 2, 3, 4, 5, 6, 7, 8, 9, 10, 11, 12, 13, 14, 15]
    else if round == 1 then [14, 10, 4, 8, 9, 15, 13, 6, 1, 12, 0, 2, 11, 7, 5, 3]
    else if round == 2 then [11, 8, 12, 0, 5, 2, 15, 13, 10, 14, 3, 6, 7, 1, 9, 4]
    else if round == 3 then [7, 9, 3, 1, 13, 12, 11, 14, 2, 6, 5, 10, 4, 0, 15, 8]
    else if round == 4 then [9, 0, 5, 7, 2, 4, 10, 15, 14, 1, 11, 12, 6, 8, 3, 13]
    else if round == 5 then [2, 12, 6, 10, 0, 11, 8, 3, 4, 13, 7, 5, 15, 14, 1, 9]
    else if round == 6 then [12, 5, 1, 15, 14, 13, 4, 10, 0, 7, 6, 3, 9, 2, 8, 11]
    else if round == 7 then [13, 11, 7, 14, 12, 1, 3, 9, 5, 0, 15, 4, 8, 6, 2, 10]
    else if round == 8 then [6, 15, 14, 9, 11, 3, 0, 8, 12, 2, 13, 7, 1, 4, 10, 5]
    else [10, 2, 8, 4, 7, 6, 1, 5, 15, 11, 9, 14, 3, 12, 13, 0]
  }

  /** Addition modulo 2^64. */
  function Add(x: Word, y: Word): Word { x + y }

  function Xor(x: Word, y: Word): Word { x ^ y }

  function Rotr(x: Word, n: Word): Word
    requires n <= 64
  {
    (x >> n) | (x << (64 - n))
  }

  datatype Quad = Quad(a: Word, b: Word, c: Word, d: Word)

  /** One half of the mixing function, section 3.1. */
  function HalfMix(q: Quad, x: Word, r1: Word, r2: Word): Quad
    requires r1 <= 64 && r2 <= 64
  {
    var a := Add(Add(q.a, q.b), x);
    var d := Rotr(Xor(q.d, a), r1);
    var c := Add(q.c, d);
    Quad(a, Rotr(Xor(q.b, c), r2), c, d)
  }

  function MixQuad(q: Quad, x: Word, y: Word): Quad {
    HalfMix(HalfMix(q, x, 32, 24), y, 16, 63)
  }

  /** The mixing function on the four named words of the work vector. */
  function G(v: seq<Word>, a: nat, b: nat, c: nat, d: nat, x: Word, y: Word): (r: seq<Word>)
    requires a < |v| && b < |v| && c < |v| && d < |v|
    ensures |r| == |v|
  {
    var q := MixQuad(Quad(v[a], v[b], v[c], v[d]), x, y);
    v[a := q.a][b := q.b][c := q.c][d := q.d]
  }

  function Columns(v: seq<Word>, m: seq<Word>, s: seq<Index>): (r: seq<Word>)
    requires |v| == 16 && |m| == 16 && |s| == 16
    ensures |r| == 16
  {
    var v1 := G(v, 0, 4, 8, 12, m[s[0]], m[s[1]]);
    var v2 := G(v1, 1, 5, 9, 13, m[s[2]], m[s[3]]);
    var v3 := G(v2, 2, 6, 10, 14, m[s[4]], m[s[5]]);
    G(v3, 3, 7, 11, 15, m[s[6]], m[s[7]])
  }

  function Diagonals(v: seq<Word>, m: seq<Word>, s: seq<Index>): (r: seq<Word>)
    requires |v| == 16 && |m| == 16 && |s| == 16
    ensures |r| == 16
  {
    var v1 := G(v, 0, 5, 10, 15, m[s[8]], m[s[9]]);
    var v2 := G(v1, 1, 6, 11, 12, m[s[10]], m[s[11]]);
    var v3 := G(v2, 2, 7, 8, 13, m[s[12]], m[s[13]]);
    G(v3, 3, 4, 9, 14, m[s[14]], m[s[15]])
  }

  function Rounds(v: seq<Word>, m: seq<Word>, n: nat): (r: seq<Word>)
    requires |v| == 16 && |m| == 16
    ensures |r| == 16
  {
    if n == 0 then v
    else
      var s := Sigma((n - 1) % 10);
      Diagonals(Columns(Rounds(v, m, n - 1), m, s), m, s)
  }

  const TWO_64: nat := 0x1_0000_0000_0000_0000

  /** The work vector before the rounds: the counter is 128 bits wide. */
  function WorkVector(h: seq<Word>, t: nat, last: bool): (v: seq<Word>)
    requires |h| == 8 && t < TWO_64 * TWO_64
    ensures |v| == 16
  {
    h + IV[..4]
    + [Xor(IV[4], ToWord(t % TWO_64)), Xor(IV[5], ToWord(t / TWO_64)), if last then Not(IV[6]) else IV[6], IV[7]]
  }

  function Not(x: Word): Word { !x }

  function ToWord(n: nat): Word
    requires n < TWO_64
  {
    n as Word
  }

  function FoldIn(h: seq<Word>, v: seq<Word>): (r: seq<Word>)
    requires |h| == 8 && |v| == 16
    ensures |r| == 8
  {
    seq(8, i requires 0 <= i < 8 => Xor(Xor(h[i], v[i]), v[i + 8]))
  }

  // ---------- words and bytes, section 2.4 ----------

  function Or(x: Word, y: Word): Word { x | y }

  function ShiftUp(x: Word, byte: nat): Word
    requires byte < 8
  {
    if byte == 0 then x else if byte == 1 then x << 8 else if byte == 2 then x << 16 else if byte == 3 then x << 24
    else if byte == 4 then x << 32 else if byte == 5 then x << 40 else if byte == 6 then x << 48 else x << 56
  }

  function ShiftDown(x: Word, byte: nat): Word
    requires byte < 8
  {
    if byte == 0 then x else if byte == 1 then x >> 8 else if byte == 2 then x >> 16 else if byte == 3 then x >> 24
    else if byte == 4 then x >> 32 else if byte == 5 then x >> 40 else if byte == 6 then x >> 48 else x >> 56
  }

  /** The first `n` bytes from `offset`, least significant first. */
  function Load(data: seq<Byte>, offset: nat, n: nat): Word
    requires n <= 8 && offset + n <= |data|
  {
    if n == 0 then 0 else Or(Load(data, offset, n - 1), ShiftUp(data[offset + n - 1] as Word, n - 1))
  }

  function LowByte(x: Word): Byte {
    (x & 0xFF) as Byte
  }

  /** The words as bytes, least significant first. */
  function ToBytes(h: seq<Word>): (data: seq<Byte>)
    ensures |data| == 8 * |h|
  {
    seq(8 * |h|, i requires 0 <= i < 8 * |h| => WordByte(h[i / 8], i % 8))
  }

  function Join(b0: Byte, b1: Byte, b2: Byte, b3: Byte, b4: Byte, b5: Byte, b6: Byte, b7: Byte): Word {
    var w2 := Or(Or(0, ShiftUp(b0 as Word, 0)), ShiftUp(b1 as Word, 1));
    var w4 := Or(Or(w2, ShiftUp(b2 as Word, 2)), ShiftUp(b3 as Word, 3));
    Or(Or(Or(Or(w4, ShiftUp(b4 as Word, 4)), ShiftUp(b5 as Word, 5)), ShiftUp(b6 as Word, 6)), ShiftUp(b7 as Word, 7))
  }

  lemma LoadEight(data: seq<Byte>, o: nat)
    requires o + 8 <= |data|
    ensures Load(data, o, 8)
      == Join(data[o], data[o + 1], data[o + 2], data[o + 3], data[o + 4], data[o + 5], data[o + 6], data[o + 7])
  {
    hide Or, ShiftUp;
    assert Load(data, o, 0) == 0;
    LoadNext(data, o, 0); LoadNext(data, o, 1); LoadNext(data, o, 2); LoadNext(data, o, 3);
    LoadNext(data, o, 4); LoadNext(data, o, 5); LoadNext(data, o, 6); LoadNext(data, o, 7);
  }

  lemma LoadNext(data: seq<Byte>, o: nat, n: nat)
    requires n < 8 && o + 8 <= |data|
    ensures Load(data, o, n + 1) == Or(Load(data, o, n), ShiftUp(data[o + n] as Word, n))
  {
  }

  function WordByte(w: Word, k: nat): Byte
    requires k < 8
  {
    LowByte(ShiftDown(w, k))
  }

  lemma BytesOfWord(w: Word)
    ensures w == Join(WordByte(w, 0), WordByte(w, 1), WordByte(w, 2), WordByte(w, 3),
                      WordByte(w, 4), WordByte(w, 5), WordByte(w, 6), WordByte(w, 7))
  {
  }

  lemma ByteOfWord(h: seq<Word>, j: nat, k: nat)
    requires j < |h| && k < 8
    ensures ToBytes(h)[8 * j + k] == WordByte(h[j], k)
  {
    assert (8 * j + k) / 8 == j && (8 * j + k) % 8 == k;
  }

  /** Loading undoes the little-endian output of words. */
  lemma LoadToBytes(h: seq<Word>, j: nat)
    requires j < |h|
    ensures Load(ToBytes(h), 8 * j, 8) == h[j]
  {
    hide Join, WordByte, Load, ToBytes, Or, ShiftUp;
    LoadEight(ToBytes(h), 8 * j);
    ByteOfWord(h, j, 0); ByteOfWord(h, j, 1); ByteOfWord(h, j, 2); ByteOfWord(h, j, 3);
    ByteOfWord(h, j, 4); ByteOfWord(h, j, 5); ByteOfWord(h, j, 6); ByteOfWord(h, j, 7);
    BytesOfWord(h[j]);
  }

  function WordsOf(block: seq<Byte>): (m: seq<Word>)
    ensures |m| == 16
  {
    seq(16, i requires 0 <= i < 16 => if 8 * i + 8 <= |block| then Load(block, 8 * i, 8) else 0)
  }

  /** The compression function, section 3.2. */
  function F(h: seq<Word>, block: seq<Byte>, t: nat, last: bool): (r: seq<Word>)
    requires |h| == 8 && t < TWO_64 * TWO_64
    ensures |r| == 8
  {
    FoldIn(h, Rounds(WorkVector(h, t, last), WordsOf(block), 12))
  }

  // ---------- the hash, section 3.3, for any compression function ----------

  /** Any function with the signature of the compression function. */
  type Compression = (seq<Word>, seq<Byte>, nat, bool) -> seq<Word>

  function Zeros(n: nat): (z: seq<Byte>)
    ensures |z| == n
  {
    seq(n, i => 0 as Byte)
  }

  /** Number of data blocks: the empty message takes one. */
  function BlockCount(length: nat): (dd: nat)
    ensures dd > 0 && length <= dd * BLOCK_SIZE && (length > 0 ==> (dd - 1) * BLOCK_SIZE < length)
  {
    if length == 0 then 1 else (length + BLOCK_SIZE - 1) / BLOCK_SIZE
  }

  function Padded(data: seq<Byte>): (p: seq<Byte>)
    ensures |p| == BlockCount(|data|) * BLOCK_SIZE
  {
    data + Zeros(BlockCount(|data|) * BLOCK_SIZE - |data|)
  }

  function Block(p: seq<Byte>, i: nat): seq<Byte>
    requires (i + 1) * BLOCK_SIZE <= |p|
  {
    p[i * BLOCK_SIZE..(i + 1) * BLOCK_SIZE]
  }

  /** The state after the first `n` blocks, none of them the last. */
  function Chain(f: Compression, h: seq<Word>, p: seq<Byte>, n: nat): seq<Word>
    requires n * BLOCK_SIZE <= |p|
  {
    if n == 0 then h else f(Chain(f, h, p, n - 1), Block(p, n - 1), n * BLOCK_SIZE, false)
  }

  /** All blocks but the last with a running counter, then the last with the length. */
  function RfcState(f: Compression, h: seq<Word>, data: seq<Byte>): seq<Word> {
    var p, dd := Padded(data), BlockCount(|data|);
    f(Chain(f, h, p, dd - 1), Block(p, dd - 1), |data|, true)
  }

  function InitialState(nn: nat): (h: seq<Word>)
    requires 1 <= nn <= 64
    ensures |h| == 8
  {
    IV[0 := IV[0] ^ 0x01010000 ^ nn as Word]
  }

  /** The compression function, made total so that it can be passed on. */
  function Compress(h: seq<Word>, block: seq<Byte>, t: nat, last: bool): (r: seq<Word>) {
    if |h| == 8 && t < TWO_64 * TWO_64 then F(h, block, t, last) else h
  }

  /** The first `nn` bytes of the final state. */
  function Hash(data: seq<Byte>, nn: nat): (digest: seq<Byte>)
    requires 1 <= nn <= 64
    ensures |digest| == nn
  {
    CompressKeepsLength(InitialState(nn), data);
    ToBytes(RfcState(Compress, InitialState(nn), data))[..nn]
  }

  lemma {:induction false} ChainLength(h: seq<Word>, p: seq<Byte>, n: nat)
    requires |h| == 8 && n * BLOCK_SIZE <= |p|
    ensures |Chain(Compress, h, p, n)| == 8
  {
    hide F;
    if n > 0 { ChainLength(h, p, n - 1); }
  }

  lemma CompressKeepsLength(h: seq<Word>, data: seq<Byte>)
    requires |h| == 8
    ensures |RfcState(Compress, h, data)| == 8
  {
    hide F;
    ChainLength(h, Padded(data), BlockCount(|data|) - 1);
  }
}

/** The slicing loop with its running counter, against the definition. */
module Blake2b {
  import opened Blake2bSpec

  method Mix(v: array<Word>, a: nat, b: nat, c: nat, d: nat, x: Word, y: Word)
    requires a < v.Length && b < v.Length && c < v.Length && d < v.Length
    requires a != b && a != c && a != d && b != c && b != d && c != d
    modifies v
    ensures v[..] == G(old(v[..]), a, b, c, d, x, y)
  {
    hide Add, Xor, Rotr;
    MixHalf(v, a, b, c, d, x, 32, 24);
    MixHalf(v, a, b, c, d, y, 16, 63);
  }

  method MixHalf(v: array<Word>, a: nat, b: nat, c: nat, d: nat, x: Word, r1: Word, r2: Word)
    requires a < v.Length && b < v.Length && c < v.Length && d < v.Length && r1 <= 64 && r2 <= 64
    requires a != b && a != c && a != d && b != c && b != d && c != d
    modifies v
    ensures Quad(v[a], v[b], v[c], v[d]) == HalfMix(old(Quad(v[a], v[b], v[c], v[d])), x, r1, r2)
    ensures forall i :: 0 <= i < v.Length && i !in {a, b, c, d} ==> v[i] == old(v[i])
  {
    hide Add, Xor, Rotr;
    v[a] := Add(Add(v[a], v[b]), x);
    v[d] := Rotr(Xor(v[d], v[a]), r1);
    v[c] := Add(v[c], v[d]);
    v[b] := Rotr(Xor(v[b], v[c]), r2);
  }

  method Load64(data: seq<Byte>, offset: nat) returns (value: Word)
    requires offset + 8 <= |data|
    ensures value == Load(data, offset, 8)
  {
    hide Or, ShiftUp;
    value := 0;
    for i := 0 to 8
      invariant value == Load(data, offset, i)
    {
      LoadNext(data, offset, i);
      value := Or(value, ShiftUp(data[offset + i] as Word, i));
    }
  }

  method LoadBlock(block: seq<Byte>) returns (m: array<Word>)
    ensures m.Length == 16 && m[..] == WordsOf(block) && fresh(m)
  {
    m := new Word[16](i => 0);
    for i := 0 to 16
      invariant forall j :: 0 <= j < 16 ==> m[j] == if j < i then WordsOf(block)[j] else 0
    {
      var offset := i * 8;
      if offset + 8 <= |block| {
        m[i] := Load64(block, offset);
      }
    }
  }

  method MixRound(v: array<Word>, m: array<Word>, s: seq<Index>)
    requires v.Length == 16 && m.Length == 16 && |s| == 16 && v != m
    modifies v
    ensures v[..] == Diagonals(Columns(old(v[..]), m[..], s), m[..], s)
  {
    hide G;
    Mix(v, 0, 4, 8, 12, m[s[0]], m[s[1]]);
    Mix(v, 1, 5, 9, 13, m[s[2]], m[s[3]]);
    Mix(v, 2, 6, 10, 14, m[s[4]], m[s[5]]);
    Mix(v, 3, 7, 11, 15, m[s[6]], m[s[7]]);
    Mix(v, 0, 5, 10, 15, m[s[8]], m[s[9]]);
    Mix(v, 1, 6, 11, 12, m[s[10]], m[s[11]]);
    Mix(v, 2, 7, 8, 13, m[s[12]], m[s[13]]);
    Mix(v, 3, 4, 9, 14, m[s[14]], m[s[15]]);
  }

  /** The work vector, as the code sets it up. */
  method StartVector(h: seq<Word>, t0: nat, last: bool) returns (v: array<Word>)
    requires |h| == 8 && t0 < TWO_64
    ensures v.Length == 16 && v[..] == WorkVector(h, t0, last) && fresh(v)
  {
    hide Xor, Not, ToWord;
    v := new Word[16](i requires 0 <= i < 16 => (h + IV)[i]);
    v[12] := Xor(v[12], ToWord(t0));
    v[13] := Xor(v[13], ToWord(0));
    if last { v[14] := Not(v[14]); }
  }

  method CompressBlock(h: array<Word>, block: seq<Byte>, t0: nat, last: bool)
    requires h.Length == 8 && t0 < TWO_64
    modifies h
    ensures h[..] == F(old(h[..]), block, t0, last) == Compress(old(h[..]), block, t0, last)
  {
    hide WorkVector, WordsOf, Diagonals, Columns, Sigma, Xor;
    ghost var before := h[..];
    var m := LoadBlock(block);
    var v := StartVector(h[..], t0, last);
    ghost var start := v[..];
    for round := 0 to 12
      invariant h[..] == before && m[..] == WordsOf(block)
      invariant v[..] == Rounds(start, m[..], round)
    {
      MixRound(v, m, Sigma(round % 10));
    }
    ghost var mixed := Rounds(start, WordsOf(block), 12);
    for i := 0 to 8
      invariant v[..] == mixed
      invariant forall j :: 0 <= j < 8 ==> h[j] == if j < i then Xor(Xor(before[j], v[j]), v[j + 8]) else before[j]
    {
      h[i] := Xor(h[i], Xor(v[i], v[i + 8]));
      XorAssociative(before[i], v[i], v[i + 8]);
    }
    assert h[..] == FoldIn(before, v[..]);
  }

  lemma XorAssociative(a: Word, b: Word, c: Word)
    ensures Xor(a, Xor(b, c)) == Xor(Xor(a, b), c)
  {
  }

  // ---------- the slicing loop, for any compression function ----------

  /** All whole blocks, none of them the last, then the rest padded to a block. */
  function CodeState(f: Compression, h: seq<Word>, data: seq<Byte>): seq<Word> {
    var n := |data| / BLOCK_SIZE;
    var rest := data[n * BLOCK_SIZE..];
    f(Chain(f, h, data, n), rest + Zeros(BLOCK_SIZE - |rest|), |data|, true)
  }

  lemma LastBlock(f: Compression, h: seq<Word>, data: seq<Byte>, n: nat, rest: seq<Byte>)
    requires n * BLOCK_SIZE <= |data| < (n + 1) * BLOCK_SIZE && rest == data[n * BLOCK_SIZE..]
    ensures CodeState(f, h, data) == f(Chain(f, h, data, n), rest + Zeros(BLOCK_SIZE - |rest|), |data|, true)
  {
    assert n == |data| / BLOCK_SIZE;
  }

  lemma {:induction false} ChainPrefix(f: Compression, h: seq<Word>, a: seq<Byte>, b: seq<Byte>, n: nat)
    requires n * BLOCK_SIZE <= |a|
    ensures Chain(f, h, a + b, n) == Chain(f, h, a, n)
  {
    if n > 0 {
      ChainPrefix(f, h, a, b, n - 1);
      assert Block(a + b, n - 1) == Block(a, n - 1);
    }
  }

  lemma SameState(f: Compression, h: seq<Word>, data: seq<Byte>)
    requires |data| == 0 || |data| % BLOCK_SIZE != 0
    ensures CodeState(f, h, data) == RfcState(f, h, data)
  {
    var n, dd, p := |data| / BLOCK_SIZE, BlockCount(|data|), Padded(data);
    assert n == dd - 1;
    ChainPrefix(f, h, data, Zeros(dd * BLOCK_SIZE - |data|), n);
    var rest := data[n * BLOCK_SIZE..];
    assert Block(p, n) == rest + Zeros(BLOCK_SIZE - |rest|);
  }

  /** Counts the blocks it is given. */
  function CountBlocks(h: seq<Word>, block: seq<Byte>, t: nat, last: bool): seq<Word> {
    h + [0]
  }

  lemma {:induction false} CountedBlocks(h: seq<Word>, p: seq<Byte>, n: nat)
    requires n * BLOCK_SIZE <= |p|
    ensures |Chain(CountBlocks, h, p, n)| == |h| + n
  {
    if n > 0 { CountedBlocks(h, p, n - 1); }
  }

  /** Whatever the compression function, the code chains the same blocks as the definition if and only
      if the message is empty or its length is not a multiple of 128. */
  lemma SameStateExactly(data: seq<Byte>)
    ensures (forall f: Compression, h: seq<Word> :: CodeState(f, h, data) == RfcState(f, h, data))
      <==> |data| == 0 || |data| % BLOCK_SIZE != 0
  {
    if |data| == 0 || |data| % BLOCK_SIZE != 0 {
      forall f: Compression, h: seq<Word>
        ensures CodeState(f, h, data) == RfcState(f, h, data)
      {
        SameState(f, h, data);
      }
    } else {
      CountedBlocks([], data, |data| / BLOCK_SIZE);
      CountedBlocks([], Padded(data), BlockCount(|data|) - 1);
      assert |CodeState(CountBlocks, [], data)| != |RfcState(CountBlocks, [], data)|;
    }
  }

  lemma SameHash(data: seq<Byte>, nn: nat)
    requires 1 <= nn <= 64
    ensures |CodeState(Compress, InitialState(nn), data)| == 8
    ensures |data| == 0 || |data| % BLOCK_SIZE != 0 ==>
      ToBytes(CodeState(Compress, InitialState(nn), data))[..nn] == Hash(data, nn)
  {
    hide F, ToBytes, Padded;
    ChainLength(InitialState(nn), data, |data| / BLOCK_SIZE);
    CompressKeepsLength(InitialState(nn), data);
    if |data| == 0 || |data| % BLOCK_SIZE != 0 { SameState(Compress, InitialState(nn), data); }
  }

  function OutputLength(requested: int): (n: nat)
    ensures 1 <= n <= 64 && (1 <= requested <= 64 ==> n == requested)
  {
    var capped := if requested < 64 then requested else 64;
    if capped > 1 then capped else 1
  }

  method InitState(outLen: nat) returns (h: array<Word>)
    requires 1 <= outLen <= 64
    ensures h.Length == 8 && h[..] == InitialState(outLen) && fresh(h)
  {
    h := new Word[8](i requires 0 <= i < 8 => IV[i]);
    h[0] := h[0] ^ (0x01010000 ^ outLen as Word);
  }

  method OutputBytes(h: seq<Word>, outLen: nat) returns (result: seq<Byte>)
    requires |h| == 8 && outLen <= 64
    ensures result == ToBytes(h)[..outLen]
  {
    hide WordByte;
    result := [];
    for i := 0 to outLen
      invariant result == ToBytes(h)[..i]
    {
      result := result + [WordByte(h[i / 8], i % 8)];
    }
  }

  /** BLAKE2b of the message, unless its length is a positive multiple of 128. */
  method HashData(data: seq<Byte>, outputLength: int) returns (result: seq<Byte>)
    requires |data| < TWO_64
    modifies {}
    ensures |result| == if outputLength < 1 then 1 else if outputLength > 64 then 64 else outputLength
    ensures |data| == 0 || |data| % BLOCK_SIZE != 0 ==> result == Hash(data, OutputLength(outputLength))
    ensures var state := CodeState(Compress, InitialState(OutputLength(outputLength)), data);
      |state| == 8 && result == ToBytes(state)[..OutputLength(outputLength)]
  {
    hide F, ToBytes, Hash, InitialState, Compress, CodeState;
    var outLen := OutputLength(outputLength);
    SameHash(data, outLen);
    var h := InitState(outLen);
    ghost var start, n := h[..], 0;
    var t := 0;
    var remaining := data;
    while |remaining| >= BLOCK_SIZE
      invariant fresh(h) && h.Length == 8
      invariant t == n * BLOCK_SIZE <= |data| && remaining == data[t..]
      invariant h[..] == Chain(Compress, start, data, n)
    {
      t := t + BLOCK_SIZE;
      CompressBlock(h, remaining[..BLOCK_SIZE], t, false);
      assert remaining[..BLOCK_SIZE] == Block(data, n);
      remaining := remaining[BLOCK_SIZE..];
      n := n + 1;
    }
    LastBlock(Compress, start, data, n, remaining);
    t := t + |remaining|;
    CompressBlock(h, remaining + Zeros(BLOCK_SIZE - |remaining|), t, true);
    result := OutputBytes(h[..], outLen);
  }
}
