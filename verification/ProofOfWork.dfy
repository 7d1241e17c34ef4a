/** The search for a work value and the difficulty it reports. */
module ProofOfWork {
  import opened Arithmetic
  import opened HexCodec

  const TWO_64: nat := 0x1_0000_0000_0000_0000
  const MAX_64: nat := TWO_64 - 1
  const MAX_ITERATIONS: nat := 10000000000
  const RESTART_INTERVAL: nat := 100000000

  type Word = n: nat | n < TWO_64

  // ---------- byte order ----------

  /** The masks and shifts that reverse the bytes of a word. */
  function ByteSwap(x: bv64): bv64 {
    ((x & 0xFF00000000000000) >> 56) | ((x & 0x00FF000000000000) >> 40)
    | ((x & 0x0000FF0000000000) >> 24) | ((x & 0x000000FF00000000) >> 8)
    | ((x & 0x00000000FF000000) << 8) | ((x & 0x0000000000FF0000) << 24)
    | ((x & 0x000000000000FF00) << 40) | ((x & 0x00000000000000FF) << 56)
  }

  /** Byte `k` of the result is byte 7 - k of the argument, and swapping twice changes nothing. */
  lemma ByteSwapReverses(x: bv64)
    ensures ByteSwap(ByteSwap(x)) == x
    ensures ByteSwap(x) & 0xFF == x >> 56 && (ByteSwap(x) >> 8) & 0xFF == (x >> 48) & 0xFF
    ensures (ByteSwap(x) >> 16) & 0xFF == (x >> 40) & 0xFF && (ByteSwap(x) >> 24) & 0xFF == (x >> 32) & 0xFF
    ensures (ByteSwap(x) >> 32) & 0xFF == (x >> 24) & 0xFF && (ByteSwap(x) >> 40) & 0xFF == (x >> 16) & 0xFF
    ensures (ByteSwap(x) >> 48) & 0xFF == (x >> 8) & 0xFF && ByteSwap(x) >> 56 == x & 0xFF
  {
  }

  // ---------- difficulty ----------

  /** What a reversed hash must stay below. */
  function Threshold(base: Word): Word {
    if base > 0 then MAX_64 / base else 0
  }

  /** The difficulty reported for a reversed hash. */
  function Achieved(h: Word): Word {
    if h > 0 then MAX_64 / h else MAX_64
  }

  lemma DivisionBound(m: nat, a: nat, b: nat)
    requires b > 0
    ensures a <= m / b <==> b * a <= m
  {
    Quotient(m, b);
    MultipleGap(b, a, m / b);
    MultipleGap(b, m / b, a);
  }

  /** The reported difficulty reaches the requested one if and only if the hash is at most the threshold. */
  lemma AchievedExactly(h: Word, base: Word)
    requires base > 0
    ensures Achieved(h) >= base <==> h <= Threshold(base)
  {
    DivisionBound(MAX_64, h, base);
    if h > 0 {
      DivisionBound(MAX_64, base, h);
      assert base * h == h * base;
    }
  }

  /** Accepted work always reaches the requested difficulty; the one hash that would reach it and is
      refused is the threshold itself; without a requested difficulty nothing is accepted. */
  lemma AcceptedReaches(h: Word, base: Word)
    ensures h < Threshold(base) ==> base > 0 && Achieved(h) >= base
    ensures base > 0 && Achieved(h) >= base && !(h < Threshold(base)) ==> h == Threshold(base)
  {
    if base > 0 { AchievedExactly(h, base); }
  }

  predicate GoesInto(base: nat, h: nat) { base > 0 && base * (h + 1) <= 0xFFFF_FFFF_FFFF_FFFF }

  /** What is reported for a reversed hash. */
  predicate Reports(difficulty: nat, h: nat) {
    if h == 0 then difficulty == 0xFFFF_FFFF_FFFF_FFFF
    else difficulty * h <= 0xFFFF_FFFF_FFFF_FFFF < (difficulty + 1) * h
  }

  /** The numbers behind it: the reported difficulty is how often the reversed hash goes into 2^64 - 1. */
  lemma ReportedDifficulty(h: Word)
    ensures Reports(Achieved(h), h)
  {
    if h > 0 {
      Quotient(MAX_64, h);
      assert (Achieved(h) + 1) * h == h * (MAX_64 / h) + h;
    }
  }

  /** A reversed hash is below the threshold if and only if one more of it still goes into 2^64 - 1 as often as
      requested. */
  lemma AcceptedExactly(h: Word, base: Word)
    ensures h < Threshold(base) <==> GoesInto(base, h)
  {
    if base > 0 { DivisionBound(MAX_64, h + 1, base); }
  }

  // ---------- the search ----------

  /** The work value tried after `k` failures: counting up with wrap-around, restarted at random
      every hundred million attempts. */
  function WorkAt(start: Word, restarts: nat -> Word, k: nat): Word {
    if k == 0 then start
    else if k % RESTART_INTERVAL == 0 then restarts(k)
    else (WorkAt(start, restarts, k - 1) + 1) % TWO_64
  }

  lemma WorkAtNext(start: Word, restarts: nat -> Word, k: nat)
    ensures WorkAt(start, restarts, k + 1) ==
      if (k + 1) % RESTART_INTERVAL == 0 then restarts(k + 1) else (WorkAt(start, restarts, k) + 1) % TWO_64
  {
  }

  lemma OneMore(x: nat, m: nat)
    requires m > 1
    ensures (x % m + 1) % m == (x + 1) % m
  {
    Quotient(x, m);
    Quotient(x % m + 1, m);
    assert x + 1 == m * (x / m) + (m * ((x % m + 1) / m) + (x % m + 1) % m);
    assert x + 1 == m * (x / m + (x % m + 1) / m) + (x % m + 1) % m;
    QuotientUnique(x + 1, m, x / m + (x % m + 1) / m, (x % m + 1) % m);
  }

  /** Between restarts the work value counts up. */
  lemma {:induction false} CountsUp(start: Word, restarts: nat -> Word, i: nat, j: nat)
    requires j < 100_000_000
    ensures WorkAt(start, restarts, 100_000_000 * i + j) ==
      (WorkAt(start, restarts, 100_000_000 * i) + j) % 0x1_0000_0000_0000_0000
    decreases j
  {
    if j > 0 {
      CountsUp(start, restarts, i, j - 1);
      QuotientUnique(100_000_000 * i + j, 100_000_000, i, j);
      OneMore(WorkAt(start, restarts, 100_000_000 * i) + (j - 1), 0x1_0000_0000_0000_0000);
    }
  }

  /** Before the first restart the values tried count up from the start; after it, from the value of the last
      restart, one for every hundred million attempts. */
  lemma WorkAtExactly(start: Word, restarts: nat -> Word, k: nat)
    ensures k < 100_000_000 ==> WorkAt(start, restarts, k) == (start + k) % 0x1_0000_0000_0000_0000
    ensures k >= 100_000_000 ==>
      WorkAt(start, restarts, k) == (restarts(k - k % 100_000_000) + k % 100_000_000) % 0x1_0000_0000_0000_0000
  {
    var i, j := k / 100_000_000, k % 100_000_000;
    Quotient(k, 100_000_000);
    CountsUp(start, restarts, i, j);
    QuotientUnique(100_000_000 * i, 100_000_000, i, 0);
  }

  /** The hash of a work value as read by the code: its first eight bytes, reversed. */
  function AsWord(b: bv64): Word { b as nat }

  function Reversed(hash: Word -> bv64, work: Word): Word {
    AsWord(ByteSwap(hash(work)))
  }

  datatype Found = Found(work: Word, difficulty: Word) | Exhausted(work: Word)

  /** The low 64 bits of the requested difficulty. */
  function LowWord(target: nat): Word { target % TWO_64 }

  /** `hash` stands for the hash of the input with the work value in it. */
  method Search(hash: Word -> bv64, restarts: nat -> Word, start: Word, target: nat) returns (r: Found, iterations: nat)
    ensures iterations <= 10_000_000_000 && r.work == WorkAt(start, restarts, iterations)
    ensures forall k :: 0 <= k < iterations ==>
      !GoesInto(target % 0x1_0000_0000_0000_0000, AsWord(ByteSwap(hash(WorkAt(start, restarts, k)))))
    ensures r.Found? <==> iterations < 10_000_000_000
    ensures r.Found? ==>
      var h, base := AsWord(ByteSwap(hash(r.work))), target % 0x1_0000_0000_0000_0000;
      GoesInto(base, h) && Reports(r.difficulty, h) && r.difficulty >= base
  {
    assert WorkAt(start, restarts, 0) == start;
    hide ByteSwap, Threshold, Achieved, GoesInto, Reports, AsWord, WorkAt;
    var base := LowWord(target);
    var threshold := Threshold(base);
    var work := start;
    iterations := 0;
    while iterations < MAX_ITERATIONS
      invariant iterations <= MAX_ITERATIONS && work == WorkAt(start, restarts, iterations)
      invariant forall k :: 0 <= k < iterations ==>
        !GoesInto(base, AsWord(ByteSwap(hash(WorkAt(start, restarts, k)))))
    {
      var h := Reversed(hash, work);
      AcceptedExactly(h, base);
      if h < threshold {
        AcceptedReaches(h, base);
        ReportedDifficulty(h);
        r := Found(work, Achieved(h));
        return;
      }
      WorkAtNext(start, restarts, iterations);
      work := (work + 1) % TWO_64;
      iterations := iterations + 1;
      if iterations % RESTART_INTERVAL == 0 {
        work := restarts(iterations);
      }
    }
    r := Exhausted(work);
  }

  // ---------- the work text ----------

  /** The work value in memory: least significant byte first. */
  function LittleEndian(n: nat, k: nat): (bytes: seq<Byte>)
    ensures |bytes| == k
  {
    if k == 0 then [] else [n % 256] + LittleEndian(n / 256, k - 1)
  }

  function HexPair(b: Byte): (s: string)
    ensures |s| == 2 && AllHex(s) && Value(s) == b
  {
    var s := [HexDigit(b / 16), HexDigit(b % 16)];
    assert s[..1] == [HexDigit(b / 16)] && s[..1][..0] == "";
    assert Value(s[..1]) == b / 16;
    s
  }

  /** Two digits for every byte, the last byte first. */
  function BackwardsHex(bytes: seq<Byte>): (s: string)
    ensures |s| == 2 * |bytes| && AllHex(s)
  {
    if bytes == [] then "" else BackwardsHex(bytes[1..]) + HexPair(bytes[0])
  }

  lemma ValueByte(s: string, b: Byte)
    requires AllHex(s)
    ensures Value(s + HexPair(b)) == Value(s) * 256 + b
  {
    var hi, lo := HexDigit(b / 16), HexDigit(b % 16);
    assert s + HexPair(b) == (s + [hi]) + [lo];
    ValueSnoc(s, hi);
    ValueSnoc(s + [hi], lo);
  }

  lemma {:induction false} BackwardsHexValue(n: nat, k: nat)
    requires n < Power(256, k)
    ensures Value(BackwardsHex(LittleEndian(n, k))) == n
  {
    if k > 0 {
      BackwardsHexValue(n / 256, k - 1);
      var bytes := LittleEndian(n, k);
      assert bytes[1..] == LittleEndian(n / 256, k - 1);
      ValueByte(BackwardsHex(bytes[1..]), n % 256);
    }
  }

  method WorkText(bytes: seq<Byte>) returns (text: string)
    requires |bytes| >= 8
    ensures text == BackwardsHex(bytes[..8])
  {
    text := "";
    var i := 8;
    while i > 0
      invariant 0 <= i <= 8 && text == BackwardsHex(bytes[i..8])
    {
      i := i - 1;
      assert bytes[i..8][1..] == bytes[i + 1..8];
      text := text + HexPair(bytes[i]);
    }
    assert bytes[0..8] == bytes[..8];
  }

  /** The sixteen digits sent to the client, read as a hexadecimal number, are the work value found. */
  method ReportWork(work: Word, reader: BigInt, extract: string -> Extraction) returns (text: string, r: Outcome)
    requires reader.Valid() && reader.size >= 8 && Extracts(extract, reader.size)
    modifies reader.bytes
    ensures |text| == 16 && AllHex(text) && Value(text) == work
    ensures r == Accepted && reader.Contents() == work
  {
    var bytes := LittleEndian(work, 8) + seq(8, _ => 0);
    assert bytes[..8] == LittleEndian(work, 8);
    text := WorkText(bytes);
    PowerOfWord();
    BackwardsHexValue(work, 8);
    r := reader.FromHex(text, extract);
  }

  lemma PowerOfWord()
    ensures Power(256, 8) == TWO_64
  {
    assert Power(256, 2) == 256 * (256 * Power(256, 0));
    assert Power(256, 4) == 256 * (256 * Power(256, 2));
    assert Power(256, 6) == 256 * (256 * Power(256, 4));
    assert Power(256, 8) == 256 * (256 * Power(256, 6));
  }
}
