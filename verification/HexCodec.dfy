/** Fixed-width integers as bytes and as hexadecimal text. */
module HexCodec {
  type Byte = i: nat | i < 256

  function Power(base: nat, k: nat): (p: nat)
    ensures base > 0 ==> p > 0
  {
    if k == 0 then 1 else base * Power(base, k - 1)
  }

  // ---------- bytes, most significant first ----------

  function BytesOf(n: nat, k: nat): (bytes: seq<Byte>)
    ensures |bytes| == k
  {
    if k == 0 then [] else BytesOf(n / 256, k - 1) + [n % 256]
  }

  function NumberOf(bytes: seq<Byte>): nat {
    if bytes == [] then 0 else NumberOf(bytes[..|bytes| - 1]) * 256 + bytes[|bytes| - 1]
  }

  lemma NumberSnoc(bytes: seq<Byte>, b: Byte)
    ensures NumberOf(bytes + [b]) == NumberOf(bytes) * 256 + b
  {
    assert (bytes + [b])[..|bytes|] == bytes;
  }

  lemma {:induction false} NumberOfBytes(n: nat, k: nat)
    requires n < Power(256, k)
    ensures NumberOf(BytesOf(n, k)) == n
  {
    if k > 0 {
      NumberOfBytes(n / 256, k - 1);
      NumberSnoc(BytesOf(n / 256, k - 1), n % 256);
    }
  }

  lemma {:induction false} BytesOfNumber(bytes: seq<Byte>)
    ensures NumberOf(bytes) < Power(256, |bytes|) && BytesOf(NumberOf(bytes), |bytes|) == bytes
  {
    if bytes != [] {
      var init, last := bytes[..|bytes| - 1], bytes[|bytes| - 1];
      BytesOfNumber(init);
      assert NumberOf(bytes) / 256 == NumberOf(init) && NumberOf(bytes) % 256 == last;
      assert bytes == init + [last];
    }
  }

  lemma {:induction false} BytesOfZero(k: nat)
    ensures BytesOf(0, k) == seq(k, _ => 0)
  {
    if k > 0 { BytesOfZero(k - 1); }
  }

  // ---------- hexadecimal digits ----------

  predicate IsHex(c: char) { '0' <= c <= '9' || 'a' <= c <= 'f' || 'A' <= c <= 'F' }

  predicate AllHex(s: string) { forall i :: 0 <= i < |s| ==> IsHex(s[i]) }

  function HexValue(c: char): (v: nat)
    requires IsHex(c)
    ensures v < 16
  {
    if c <= '9' then c as int - '0' as int
    else if c <= 'F' then c as int - 'A' as int + 10
    else c as int - 'a' as int + 10
  }

  function HexDigit(n: nat): (c: char)
    requires n < 16
    ensures IsHex(c) && HexValue(c) == n
  {
    "0123456789ABCDEF"[n]
  }

  /** Each digit by its letter: what it is worth, and what prints it. */
  lemma DigitsExactly(c: char)
    ensures IsHex(c) <==> c in "0123456789" || c in "abcdef" || c in "ABCDEF"
    ensures c in "0123456789" ==> HexValue(c) == c as int - 48 && HexDigit(HexValue(c)) == c
    ensures c in "abcdef" ==> HexValue(c) == c as int - 87 && HexDigit(HexValue(c)) == c - 32 as char
    ensures c in "ABCDEF" ==> HexValue(c) == c as int - 55 && HexDigit(HexValue(c)) == c
  {
    hide HexDigit;
    InDecimal(c);
    InLetters(c);
    if IsHex(c) { PrintedDigit(HexValue(c)); }
  }

  lemma InDecimal(c: char)
    ensures c in "0123456789" <==> '0' <= c <= '9'
  {
    if '0' <= c <= '9' { assert "0123456789"[c as int - 48] == c; }
  }

  lemma InLetters(c: char)
    ensures c in "abcdef" <==> 'a' <= c <= 'f'
    ensures c in "ABCDEF" <==> 'A' <= c <= 'F'
  {
    if 'a' <= c <= 'f' { assert "abcdef"[c as int - 97] == c; }
    if 'A' <= c <= 'F' { assert "ABCDEF"[c as int - 65] == c; }
  }

  lemma PrintedDigit(n: nat)
    requires n < 16
    ensures HexDigit(n) as int == if n < 10 then n + 48 else n + 55
  {
  }

  /** Decimal digits and capital letters. */
  predicate AllCapital(s: string) { forall i :: 0 <= i < |s| ==> '0' <= s[i] <= '9' || 'A' <= s[i] <= 'F' }

  function Upper(s: string): (u: string)
    requires AllHex(s)
    ensures |u| == |s| && AllHex(u) && AllCapital(u)
    ensures forall i :: 0 <= i < |s| ==> u[i] == if 'a' <= s[i] <= 'f' then s[i] - 32 as char else s[i]
  {
    seq(|s|, i requires 0 <= i < |s| => HexDigit(HexValue(s[i])))
  }

  function Value(s: string): nat
    requires AllHex(s)
  {
    if s == "" then 0 else Value(s[..|s| - 1]) * 16 + HexValue(s[|s| - 1])
  }

  /** The shortest upper-case text of a number. */
  function Shortest(n: nat): (s: string)
    ensures s != "" && AllHex(s)
  {
    if n < 16 then [HexDigit(n)] else Shortest(n / 16) + [HexDigit(n % 16)]
  }

  function Zeros(k: nat): (s: string)
    ensures |s| == k && AllHex(s)
  {
    seq(k, _ => '0')
  }

  /** Filled with zeros on the left up to a width. */
  function Padded(s: string, width: nat): string {
    Zeros(if |s| < width then width - |s| else 0) + s
  }

  lemma ValueSnoc(s: string, c: char)
    requires AllHex(s) && IsHex(c)
    ensures Value(s + [c]) == Value(s) * 16 + HexValue(c)
  {
    assert (s + [c])[..|s|] == s;
  }

  lemma {:induction false} ShortestValue(n: nat)
    ensures Value(Shortest(n)) == n
  {
    if n < 16 {
      assert Value([HexDigit(n)]) == Value([HexDigit(n)][..0]) * 16 + n;
    } else {
      ShortestValue(n / 16);
      ValueSnoc(Shortest(n / 16), HexDigit(n % 16));
    }
  }

  lemma {:induction false} ShortestLength(n: nat, width: nat)
    requires n < Power(16, width) && width > 0
    ensures |Shortest(n)| <= width
    decreases width
  {
    if n >= 16 {
      assert Power(16, 1) == 16 * Power(16, 0);
      ShortestLength(n / 16, width - 1);
    }
  }

  lemma {:induction false} PaddingKeepsValue(k: nat, s: string)
    requires AllHex(s)
    ensures Value(Zeros(k) + s) == Value(s)
    decreases k + |s|
  {
    if s == "" {
      assert Zeros(k) + s == Zeros(k);
      if k > 0 {
        assert Zeros(k)[..k - 1] == Zeros(k - 1) + "";
        PaddingKeepsValue(k - 1, "");
      }
    } else {
      PaddingKeepsValue(k, s[..|s| - 1]);
      assert (Zeros(k) + s)[..k + |s| - 1] == Zeros(k) + s[..|s| - 1];
    }
  }

  lemma {:induction false} ValueBound(s: string)
    requires AllHex(s)
    ensures Value(s) < Power(16, |s|)
  {
    if s != "" { ValueBound(s[..|s| - 1]); }
  }

  lemma UpperConcat(a: string, b: string)
    requires AllHex(a) && AllHex(b)
    ensures Upper(a + b) == Upper(a) + Upper(b)
  {
  }

  lemma UpperZeros(k: nat)
    ensures Upper(Zeros(k)) == Zeros(k)
  {
  }

  lemma UpperSnoc(s: string)
    requires s != "" && AllHex(s)
    ensures Upper(s) == Upper(s[..|s| - 1]) + [HexDigit(HexValue(s[|s| - 1]))]
  {
  }

  /** Among texts of one length, the value determines the text up to letter case. */
  lemma {:induction false} SameValueSameText(a: string, b: string)
    requires AllHex(a) && AllHex(b) && |a| == |b| && Value(a) == Value(b)
    ensures Upper(a) == Upper(b)
  {
    if a != "" {
      hide Upper, HexDigit, HexValue;
      var n := |a| - 1;
      assert HexValue(a[n]) == HexValue(b[n]) && Value(a[..n]) == Value(b[..n]);
      SameValueSameText(a[..n], b[..n]);
      UpperSnoc(a);
      UpperSnoc(b);
    }
  }

  lemma {:induction false} ShortestIsUpper(n: nat)
    ensures Upper(Shortest(n)) == Shortest(n)
  {
    if n >= 16 {
      ShortestIsUpper(n / 16);
      UpperConcat(Shortest(n / 16), [HexDigit(n % 16)]);
    }
  }

  lemma {:induction false} PowerDouble(k: nat)
    ensures Power(16, 2 * k) == Power(256, k)
  {
    if k > 0 {
      PowerDouble(k - 1);
      assert Power(16, 2 * k) == 16 * (16 * Power(16, 2 * k - 2));
    }
  }

  lemma {:induction false} PowerGrows(base: nat, a: nat, b: nat)
    requires base > 0 && a <= b
    ensures Power(base, a) <= Power(base, b)
    decreases b
  {
    if a < b {
      PowerGrows(base, a, b - 1);
      assert base * Power(base, b - 1) >= Power(base, b - 1);
    }
  }

  // ---------- the two directions ----------

  /** The text printed for a number of `size` bytes. */
  function ToHexText(n: nat, size: nat): string {
    Padded(Shortest(n), 2 * size)
  }

  lemma ToHexShape(n: nat, size: nat)
    requires size > 0 && n < Power(256, size)
    ensures var t := ToHexText(n, size);
      |t| == 2 * size && AllHex(t) && Upper(t) == t && Value(t) == n
  {
    hide Value, HexValue, Upper, Power;
    PowerDouble(size);
    ShortestLength(n, 2 * size);
    ShortestValue(n);
    var s := Shortest(n);
    var k: nat := 2 * size - |s|;
    PaddingKeepsValue(k, s);
    ShortestIsUpper(n);
    UpperConcat(Zeros(k), s);
    UpperZeros(k);
  }

  /** Reading 1 to 2 * size hexadecimal digits and printing the number gives the digits back, in
      upper case and padded with zeros. */
  lemma ReadThenPrint(s: string, size: nat)
    requires size > 0 && AllHex(s) && 1 <= |s| <= 2 * size
    ensures Value(s) < Power(256, size)
    ensures ToHexText(Value(s), size) == Padded(Upper(s), 2 * size)
  {
    hide Value, HexValue, Power;
    var k: nat := 2 * size - |s|;
    ValueBound(s);
    PowerGrows(16, |s|, 2 * size);
    PowerDouble(size);
    ToHexShape(Value(s), size);
    var t, wide := ToHexText(Value(s), size), Zeros(k) + s;
    PaddingKeepsValue(k, s);
    SameValueSameText(t, wide);
    UpperConcat(Zeros(k), s);
    UpperZeros(k);
  }

  // ---------- the wrapper ----------

  datatype Outcome = Accepted | InvalidFormat | InvalidSize | Unreadable

  /** What the big-integer library extracts from a stream in hexadecimal mode: a number, and whether the
      end of the text was reached; or it throws. */
  datatype Extraction = Extracted(number: nat, eof: bool) | Thrown

  /** All that is known of the library: the number fits, and a text of hexadecimal digits is read in full.
      Which other texts it reads to the end, such as those with a prefix 0x, is left open. */
  ghost predicate Extracts(extract: string -> Extraction, size: nat) {
    forall text: string ::
      && (extract(text).Extracted? ==> extract(text).number < Power(256, size))
      && (1 <= |text| <= 2 * size && AllHex(text) ==> extract(text) == Extracted(Value(text), true))
  }

  function HexPrefix(s: string): (n: nat)
    ensures n <= |s| && AllHex(s[..n]) && (n < |s| ==> !IsHex(s[n]))
  {
    if s == "" || !IsHex(s[0]) then 0
    else
      var n := HexPrefix(s[1..]);
      assert s[..n + 1] == [s[0]] + s[1..][..n];
      n + 1
  }

  class BigInt {
    const size: nat
    const bytes: array<Byte>

    ghost predicate Valid()
      reads bytes
    {
      size > 0 && bytes.Length == size
    }

    ghost function Contents(): nat
      reads bytes
    {
      NumberOf(bytes[..])
    }

    constructor (size: nat)
      requires size > 0
      ensures Valid() && this.size == size && fresh(bytes) && Contents() == 0
    {
      this.size := size;
      bytes := new Byte[size](_ => 0);
      new;
      BytesOfZero(size);
      assert bytes[..] == BytesOf(0, size);
      PowerPositive(size);
      NumberOfBytes(0, size);
    }

    method Set(number: nat)
      requires Valid() && number < Power(256, size)
      modifies bytes
      ensures bytes[..] == BytesOf(number, size) && Contents() == number
    {
      for i := 0 to bytes.Length
        invariant forall j :: 0 <= j < i ==> bytes[j] == 0
      {
        bytes[i] := 0;
      }
      var rest: nat := number;
      var pos: nat := size;
      while rest > 0
        invariant 0 <= pos <= size && rest < Power(256, pos)
        invariant forall j :: 0 <= j < pos ==> bytes[j] == 0
        invariant BytesOf(number, size) == BytesOf(rest, pos) + bytes[pos..]
        decreases pos
      {
        pos := pos - 1;
        bytes[pos] := rest % 256;
        assert bytes[pos..] == [rest % 256] + bytes[pos + 1..];
        rest := rest / 256;
      }
      BytesOfZero(pos);
      assert bytes[..pos] == BytesOf(0, pos);
      assert bytes[..] == bytes[..pos] + bytes[pos..];
      NumberOfBytes(number, size);
    }

    method Number() returns (result: nat)
      requires Valid()
      ensures result == Contents() && BytesOf(result, size) == bytes[..]
    {
      result := 0;
      for i := 0 to bytes.Length
        invariant result == NumberOf(bytes[..i])
      {
        assert bytes[..i + 1] == bytes[..i] + [bytes[i]];
        NumberSnoc(bytes[..i], bytes[i]);
        result := result * 256 + bytes[i];
      }
      assert bytes[..bytes.Length] == bytes[..];
      BytesOfNumber(bytes[..]);
    }

    method ToHex() returns (text: string)
      requires Valid()
      ensures text == ToHexText(Contents(), size)
      ensures |text| == 2 * size && AllHex(text) && Value(text) == Contents()
      ensures forall i :: 0 <= i < |text| ==> '0' <= text[i] <= '9' || 'A' <= text[i] <= 'F'
    {
      var n := Number();
      BytesOfNumber(bytes[..]);
      ToHexShape(n, size);
      text := Padded(Shortest(n), 2 * size);
    }

    /** Sets the bytes before it checks that the whole text was read. */
    method FromHex(text: string, extract: string -> Extraction) returns (r: Outcome)
      requires Valid() && Extracts(extract, size)
      modifies bytes
      ensures r == InvalidSize <==> text == "" || |text| > 2 * size
      ensures r == InvalidSize || r == Unreadable ==> bytes[..] == old(bytes[..])
      ensures r == Accepted <==> 1 <= |text| <= 2 * size && extract(text).Extracted? && extract(text).eof
      ensures r == Accepted || r == InvalidFormat ==>
        extract(text).Extracted? && Contents() == extract(text).number
      ensures 1 <= |text| <= 2 * size && AllHex(text) ==> r == Accepted && Contents() == Value(text)
    {
      if text == "" || |text| > 2 * size { return InvalidSize; }
      match extract(text) {
        case Thrown => return Unreadable;
        case Extracted(number, eof) =>
          Set(number);
          return if eof then Accepted else InvalidFormat;
      }
    }
  }

  lemma PowerPositive(k: nat)
    ensures 0 < Power(256, k)
  {
  }

  /** What one number prints, any number of the same width reads back. */
  method PrintThenRead(a: BigInt, b: BigInt, extract: string -> Extraction)
    requires a.Valid() && b.Valid() && a.size == b.size && a.bytes != b.bytes && Extracts(extract, b.size)
    modifies b.bytes
    ensures b.bytes[..] == a.bytes[..] == old(a.bytes[..])
  {
    var text := a.ToHex();
    var r := b.FromHex(text, extract);
    BytesOfNumber(a.bytes[..]);
    BytesOfNumber(b.bytes[..]);
  }
}
