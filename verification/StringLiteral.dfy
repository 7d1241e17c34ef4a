/** Printing a char array as C string literals, and reading such literals back. */
module StringLiteral {
  import opened HexCodec
  import opened Wrappers
  import opened Sequences

  const QUOTE: char := '\"'
  const BACKSLASH: char := '\\'

  // ---------- printing ----------

  datatype CharFormat = AsIs | HexEscape | SpecialEscape

  predicate IsPrintableAscii(c: Byte) { 0x20 <= c <= 0x7E }

  function HexText(c: Byte): (s: string)
    ensures s != "" && AllHex(s)
  {
    if c < 16 then [HexDigit(c)] else [HexDigit(c / 16), HexDigit(c % 16)]
  }

  function PrintAsCharLiteral(c: Byte): (string, CharFormat) {
    if c == 0 then ("\\0", SpecialEscape)
    else if c == 39 then ("\\'", SpecialEscape)
    else if c == 92 then ("\\\\", SpecialEscape)
    else if c == 7 then ("\\a", SpecialEscape)
    else if c == 8 then ("\\b", SpecialEscape)
    else if c == 12 then ("\\f", SpecialEscape)
    else if c == 10 then ("\\n", SpecialEscape)
    else if c == 13 then ("\\r", SpecialEscape)
    else if c == 9 then ("\\t", SpecialEscape)
    else if c == 11 then ("\\v", SpecialEscape)
    else if IsPrintableAscii(c) then ([c as char], AsIs)
    else ("\\x" + HexText(c), HexEscape)
  }

  function PrintAsStringLiteral(c: Byte): (string, CharFormat) {
    if c == 39 then ("'", AsIs)
    else if c == 34 then ("\\\"", SpecialEscape)
    else PrintAsCharLiteral(c)
  }

  predicate IsXDigit(c: Byte) { IsHex(c as char) }

  /** From some character on, up to the closing quote. */
  function PrintFrom(bytes: seq<Byte>, previousHex: bool): string {
    if bytes == [] then [QUOTE]
    else
      var (text, format) := PrintAsStringLiteral(bytes[0]);
      (if previousHex && IsXDigit(bytes[0]) then "\" \"" else "") + text + PrintFrom(bytes[1..], format == HexEscape)
  }

  method PrintCharsAsString(bytes: seq<Byte>) returns (os: string, printFormat: CharFormat)
    ensures os == [QUOTE] + PrintFrom(bytes, false)
    ensures printFormat == HexEscape <==> exists i :: 0 <= i < |bytes| && PrintAsStringLiteral(bytes[i]).1 == HexEscape
    ensures printFormat != SpecialEscape
  {
    hide PrintAsStringLiteral, IsXDigit;
    os := [QUOTE];
    var isPreviousHex := false;
    printFormat := AsIs;
    assert bytes[0..] == bytes;
    for index := 0 to |bytes|
      invariant os + PrintFrom(bytes[index..], isPreviousHex) == [QUOTE] + PrintFrom(bytes, false)
      invariant printFormat == HexEscape <==>
        exists i :: 0 <= i < index && PrintAsStringLiteral(bytes[i]).1 == HexEscape
      invariant printFormat != SpecialEscape
    {
      var cur := bytes[index];
      ghost var before, split := os, "";
      assert bytes[index..][0] == cur && bytes[index..][1..] == bytes[index + 1..];
      if isPreviousHex && IsXDigit(cur) {
        os := os + "\" \"";
        split := "\" \"";
      }
      assert os == before + split;
      var (text, format) := PrintAsStringLiteral(cur);
      Regroup(before, split, text, PrintFrom(bytes[index + 1..], format == HexEscape));
      os := os + text;
      isPreviousHex := format == HexEscape;
      if isPreviousHex { printFormat := HexEscape; }
    }
    assert bytes[|bytes|..] == [];
    os := os + [QUOTE];
  }

  lemma Regroup(a: string, b: string, c: string, d: string)
    ensures a + (b + c + d) == ((a + b) + c) + d
  {
  }

  // ---------- what is printed for each byte ----------

  /** The bytes without a form of their own: control bytes and everything beyond the tilde. */
  predicate PrintedInHex(c: Byte) { 1 <= c <= 6 || 14 <= c <= 31 || 127 <= c }

  predicate IsLetterEscape(letter: char, c: Byte) {
    (letter, c) in {('0', 0), ('a', 7), ('b', 8), ('t', 9), ('n', 10), ('v', 11), ('f', 12), ('r', 13),
                    (QUOTE, 34), (BACKSLASH, 92)}
  }

  /** Each byte by its number: the letter escapes, the printable characters, and hexadecimal digits without
      leading zeros for the rest. */
  lemma EscapedExactly(c: Byte)
    ensures var (text, format) := PrintAsStringLiteral(c);
      && (format == HexEscape <==> PrintedInHex(c))
      && (format == AsIs <==> 32 <= c <= 126 && c != 34 && c != 92)
      && (format == AsIs ==> text == [c as char])
      && (PrintedInHex(c) ==> text[..2] == "\\x" && AllCapital(text[2..]) && AllHex(text[2..]) && Value(text[2..]) == c)
      && (PrintedInHex(c) ==> |text| == if c < 16 then 3 else 4)
      && (format == SpecialEscape ==> |text| == 2 && text[0] == BACKSLASH && IsLetterEscape(text[1], c))
  {
    if PrintedInHex(c) {
      var text := PrintAsStringLiteral(c).0;
      assert text == "\\x" + HexText(c) && text[2..] == HexText(c);
      assert Value("") == 0;
      if c < 16 {
        assert HexText(c)[..0] == "";
      } else {
        assert HexText(c)[..1][..0] == "" && HexText(c)[..1] == [HexDigit(c / 16)];
      }
    }
  }

  predicate IsDigitCode(c: Byte) { 48 <= c <= 57 || 65 <= c <= 70 || 97 <= c <= 102 }

  /** The text of byte `i`, after closing and opening the quotes again where a hexadecimal escape would
      otherwise go on. */
  function Piece(bytes: seq<Byte>, i: nat): string
    requires i < |bytes|
  {
    (if i > 0 && PrintedInHex(bytes[i - 1]) && IsDigitCode(bytes[i]) then "\" \"" else "")
    + PrintAsStringLiteral(bytes[i]).0
  }

  function Pieces(bytes: seq<Byte>, from: nat): (pieces: seq<string>)
    requires from <= |bytes|
  {
    seq(|bytes| - from + 1, i requires 0 <= i <= |bytes| - from =>
      if from + i < |bytes| then Piece(bytes, from + i) else [QUOTE])
  }

  lemma {:induction false} PiecesFrom(bytes: seq<Byte>, from: nat) returns (starts: seq<nat>)
    requires from <= |bytes|
    ensures var text := PrintFrom(bytes[from..], from > 0 && PrintedInHex(bytes[from - 1]));
      LiesInOrder(text, Pieces(bytes, from), starts)
    decreases |bytes| - from
  {
    hide PrintAsStringLiteral;
    if from == |bytes| {
      starts := [0, 1];
    } else {
      var c := bytes[from];
      EscapedExactly(c);
      starts := PiecesFrom(bytes, from + 1);
      var rest := PrintFrom(bytes[from + 1..], PrintedInHex(c));
      assert bytes[from..][1..] == bytes[from + 1..] && bytes[from..][0] == c;
      assert IsXDigit(c) <==> IsDigitCode(c);
      assert PrintFrom(bytes[from..], from > 0 && PrintedInHex(bytes[from - 1])) == Piece(bytes, from) + rest;
      starts := LiesFirst(Piece(bytes, from), rest, Pieces(bytes, from + 1), starts);
      assert [Piece(bytes, from)] + Pieces(bytes, from + 1) == Pieces(bytes, from);
    }
  }

  /** The printed text is an opening quote, the text of every byte in order, broken exactly where needed, and a
      closing quote. */
  lemma PrintedExactly(bytes: seq<Byte>) returns (starts: seq<nat>)
    ensures LiesInOrder([QUOTE] + PrintFrom(bytes, false), [[QUOTE]] + Pieces(bytes, 0), starts)
  {
    assert bytes[0..] == bytes;
    starts := PiecesFrom(bytes, 0);
    starts := LiesFirst([QUOTE], PrintFrom(bytes, false), Pieces(bytes, 0), starts);
  }

  // ---------- reading adjacent literals, as a C compiler does ----------

  predicate IsOctal(c: char) { '0' <= c <= '7' }

  /** Character of a one-letter escape sequence. */
  function SimpleEscape(c: char): Option<Byte> {
    if c == '\'' then Some(39) else if c == QUOTE then Some(34) else if c == '?' then Some(63)
    else if c == BACKSLASH then Some(92) else if c == 'a' then Some(7) else if c == 'b' then Some(8)
    else if c == 'f' then Some(12) else if c == 'n' then Some(10) else if c == 'r' then Some(13)
    else if c == 't' then Some(9) else if c == 'v' then Some(11) else None
  }

  /** An octal escape takes up to three digits. */
  function OctalSpan(s: string): (n: nat)
    ensures n <= |s| && n <= 3 && forall i :: 0 <= i < n ==> IsOctal(s[i])
  {
    if s == "" || !IsOctal(s[0]) then 0
    else if |s| == 1 || !IsOctal(s[1]) then 1
    else if |s| == 2 || !IsOctal(s[2]) then 2
    else 3
  }

  function OctalValue(s: string): nat
    requires forall i :: 0 <= i < |s| ==> IsOctal(s[i])
  {
    if s == "" then 0
    else
      var last := s[|s| - 1];
      assert IsOctal(last);
      OctalValue(s[..|s| - 1]) * 8 + (last as nat - '0' as nat)
  }

  function Then(n: nat, rest: Option<seq<Byte>>): Option<seq<Byte>> {
    if n < 256 && rest.Some? then Some([n] + rest.value) else None
  }

  function SkipSpaces(s: string): (t: string)
    ensures |t| <= |s|
  {
    if s != "" && s[0] == ' ' then SkipSpaces(s[1..]) else s
  }

  /** The bytes of the literals, from inside the first one to the end of the text. */
  function Read(s: string): Option<seq<Byte>>
    decreases |s|
  {
    if s == "" then None
    else if s[0] == QUOTE then
      var rest := SkipSpaces(s[1..]);
      if rest == "" then Some([]) else if rest[0] == QUOTE then Read(rest[1..]) else None
    else if s[0] == BACKSLASH then ReadEscape(s[1..])
    else if s[0] == '\n' then None
    else Then(s[0] as nat, Read(s[1..]))
  }

  function ReadEscape(s: string): Option<seq<Byte>>
    decreases |s|
  {
    if s == "" then None
    else if s[0] == 'x' then
      // a hexadecimal escape takes all the digits there are
      var n := HexPrefix(s[1..]);
      if n == 0 then None else Then(Value(s[1..][..n]), Read(s[1..][n..]))
    else if IsOctal(s[0]) then
      var n := OctalSpan(s);
      Then(OctalValue(s[..n]), Read(s[n..]))
    else
      var c := SimpleEscape(s[0]);
      if c.Some? then Then(c.value, Read(s[1..])) else None
  }

  function ReadLiterals(s: string): Option<seq<Byte>> {
    if s != "" && s[0] == QUOTE then Read(s[1..]) else None
  }

  // ---------- what the printed text reads as ----------

  predicate OctalByte(c: Byte) { IsOctal(c as char) }

  function Digit(c: Byte): (d: nat)
    requires OctalByte(c)
    ensures d < 8
  {
    c - 48
  }

  /** A printed NUL swallows up to two octal digits that follow it. */
  function Reread(bytes: seq<Byte>): (r: seq<Byte>)
    ensures |r| <= |bytes|
  {
    if bytes == [] then []
    else if bytes[0] != 0 || |bytes| == 1 || !OctalByte(bytes[1]) then [bytes[0]] + Reread(bytes[1..])
    else if |bytes| == 2 || !OctalByte(bytes[2]) then [Digit(bytes[1])] + Reread(bytes[2..])
    else [Digit(bytes[1]) * 8 + Digit(bytes[2])] + Reread(bytes[3..])
  }

  /** A NUL before an octal digit. */
  ghost predicate SwallowsAt(bytes: seq<Byte>, i: int) {
    0 <= i < |bytes| - 1 && bytes[i] == 0 && OctalByte(bytes[i + 1])
  }

  ghost predicate Swallows(bytes: seq<Byte>) {
    exists i :: SwallowsAt(bytes, i)
  }

  lemma SwallowsLater(bytes: seq<Byte>)
    requires bytes != [] && !SwallowsAt(bytes, 0)
    ensures Swallows(bytes) <==> Swallows(bytes[1..])
  {
    if i :| SwallowsAt(bytes, i) { assert SwallowsAt(bytes[1..], i - 1); }
    if i :| SwallowsAt(bytes[1..], i) { assert SwallowsAt(bytes, i + 1); }
  }

  lemma {:induction false} RereadExactly(bytes: seq<Byte>)
    ensures Swallows(bytes) ==> |Reread(bytes)| < |bytes|
    ensures !Swallows(bytes) ==> Reread(bytes) == bytes
    decreases |bytes|
  {
    if bytes != [] && !SwallowsAt(bytes, 0) {
      RereadExactly(bytes[1..]);
      SwallowsLater(bytes);
      hide Swallows;
      assert bytes == [bytes[0]] + bytes[1..];
    }
  }

  lemma ReadBreak(t: string)
    ensures Read("\" \"" + t) == Read(t)
  {
    var s := "\" \"" + t;
    assert s[1..] == " \"" + t;
    assert (" \"" + t)[1..] == "\"" + t;
    assert SkipSpaces("\"" + t) == "\"" + t;
    assert ("\"" + t)[1..] == t;
  }

  lemma ReadEnd()
    ensures Read([QUOTE]) == Some([])
  {
    assert [QUOTE][1..] == "";
  }

  lemma ReadAsIs(c: Byte, t: string)
    requires PrintAsStringLiteral(c).1 == AsIs
    ensures Read(PrintAsStringLiteral(c).0 + t) == Then(c, Read(t))
  {
    var s := PrintAsStringLiteral(c).0 + t;
    assert s[0] == c as char && s[1..] == t;
  }

  lemma ReadSpecial(c: Byte, t: string)
    requires PrintAsStringLiteral(c).1 == SpecialEscape && c != 0
    ensures Read(PrintAsStringLiteral(c).0 + t) == Then(c, Read(t))
  {
    var s := PrintAsStringLiteral(c).0 + t;
    assert s[0] == BACKSLASH && s[1..][1..] == t;
  }

  lemma HexTextValue(c: Byte)
    ensures Value(HexText(c)) == c
  {
    var s := HexText(c);
    if c < 16 {
      assert s == "" + [HexDigit(c)];
      ValueSnoc("", HexDigit(c));
    } else {
      assert s == ("" + [HexDigit(c / 16)]) + [HexDigit(c % 16)];
      ValueSnoc("", HexDigit(c / 16));
      ValueSnoc("" + [HexDigit(c / 16)], HexDigit(c % 16));
    }
  }

  lemma {:induction false} HexPrefixExact(a: string, t: string)
    requires AllHex(a) && (t == "" || !IsHex(t[0]))
    ensures HexPrefix(a + t) == |a|
  {
    if a == "" {
      assert a + t == t;
    } else {
      HexPrefixExact(a[1..], t);
      assert (a + t)[1..] == a[1..] + t;
    }
  }

  lemma ReadHexEscape(h: string, t: string)
    requires h != "" && AllHex(h) && (t == "" || !IsHex(t[0]))
    ensures Read("\\x" + (h + t)) == Then(Value(h), Read(t))
  {
    hide Value;
    var s := h + t;
    assert ("\\x" + s)[1..] == "x" + s && ("x" + s)[1..] == s;
    HexPrefixExact(h, t);
    assert s[..|h|] == h && s[|h|..] == t;
  }

  /** A hexadecimal escape is read back if no hexadecimal digit follows in the text. */
  lemma ReadHex(c: Byte, t: string)
    requires PrintAsStringLiteral(c).1 == HexEscape && (t == "" || !IsHex(t[0]))
    ensures Read(PrintAsStringLiteral(c).0 + t) == Then(c, Read(t))
  {
    hide Read, Value;
    var h := HexText(c);
    assert "\\x" + h + t == "\\x" + (h + t);
    HexTextValue(c);
    ReadHexEscape(h, t);
  }

  /** After a hexadecimal escape, the text goes on with something that is no hexadecimal digit. */
  lemma BreakStopsHex(bytes: seq<Byte>)
    ensures var t := PrintFrom(bytes, true); t != "" && !IsHex(t[0])
  {
  }

  lemma OctalHead(bytes: seq<Byte>)
    ensures var t := PrintFrom(bytes, false);
      t != "" && (IsOctal(t[0]) <==> bytes != [] && OctalByte(bytes[0]))
  {
    if bytes != [] {
      var (text, format) := PrintAsStringLiteral(bytes[0]);
      assert text != "" && PrintFrom(bytes, false)[0] == text[0];
    }
  }

  lemma OctalPrinted(bytes: seq<Byte>)
    requires bytes != [] && OctalByte(bytes[0])
    ensures PrintFrom(bytes, false) == [bytes[0] as char] + PrintFrom(bytes[1..], false)
  {
  }

  lemma ReadOctal(digits: string, t: string)
    requires 1 <= |digits| <= 3 && (forall i :: 0 <= i < |digits| ==> IsOctal(digits[i]))
    requires |digits| < 3 ==> t == "" || !IsOctal(t[0])
    ensures Read([BACKSLASH] + (digits + t)) == Then(OctalValue(digits), Read(t))
  {
    var s := digits + t;
    assert ([BACKSLASH] + s)[1..] == s;
    assert OctalSpan(s) == |digits|;
    assert s[..|digits|] == digits && s[|digits|..] == t;
  }

  lemma OctalValues(a: char, b: char)
    requires IsOctal(a) && IsOctal(b)
    ensures OctalValue("0") == 0 && OctalValue(['0', a]) == a as int - 48
    ensures OctalValue(['0', a, b]) == (a as int - 48) * 8 + (b as int - 48)
  {
    assert "0"[..0] == "" && ['0', a][..1] == "0" && ['0', a, b][..2] == ['0', a];
  }

  /** A NUL and what it swallows. */
  lemma ReadNul(rest: seq<Byte>)
    requires rest == [] || !OctalByte(rest[0])
    ensures Read("\\0" + PrintFrom(rest, false)) == Then(0, Read(PrintFrom(rest, false)))
  {
    hide Read, PrintFrom, OctalValue;
    var t := PrintFrom(rest, false);
    OctalHead(rest);
    OctalValues('0', '0');
    ReadOctal("0", t);
    assert "\\0" + t == [BACKSLASH] + ("0" + t);
  }

  lemma ReadNulOne(rest: seq<Byte>)
    requires rest != [] && OctalByte(rest[0]) && (|rest| == 1 || !OctalByte(rest[1]))
    ensures Read("\\0" + PrintFrom(rest, false)) == Then(Digit(rest[0]), Read(PrintFrom(rest[1..], false)))
  {
    hide Read, PrintFrom, OctalValue;
    var a, t := rest[0] as char, PrintFrom(rest[1..], false);
    OctalPrinted(rest);
    OctalHead(rest[1..]);
    OctalValues(a, '0');
    ReadOctal(['0', a], t);
    assert "\\0" + ([a] + t) == [BACKSLASH] + (['0', a] + t);
  }

  lemma ReadNulTwo(rest: seq<Byte>)
    requires |rest| >= 2 && OctalByte(rest[0]) && OctalByte(rest[1])
    ensures Read("\\0" + PrintFrom(rest, false))
      == Then(Digit(rest[0]) * 8 + Digit(rest[1]), Read(PrintFrom(rest[2..], false)))
  {
    hide Read, PrintFrom, OctalValue;
    var a, b, t := rest[0] as char, rest[1] as char, PrintFrom(rest[2..], false);
    OctalPrinted(rest);
    OctalPrinted(rest[1..]);
    assert rest[1..][1..] == rest[2..];
    OctalValues(a, b);
    ReadOctal(['0', a, b], t);
    assert "\\0" + ([a] + ([b] + t)) == [BACKSLASH] + (['0', a, b] + t);
  }

  lemma PrintedHead(bytes: seq<Byte>, previousHex: bool)
    requires bytes != []
    ensures var (text, format) := PrintAsStringLiteral(bytes[0]);
      Read(PrintFrom(bytes, previousHex)) == Read(text + PrintFrom(bytes[1..], format == HexEscape))
  {
    var (text, format) := PrintAsStringLiteral(bytes[0]);
    var t := text + PrintFrom(bytes[1..], format == HexEscape);
    if previousHex && IsXDigit(bytes[0]) {
      assert PrintFrom(bytes, previousHex) == "\" \"" + t;
      ReadBreak(t);
    } else {
      assert PrintFrom(bytes, previousHex) == t;
    }
  }

  /** What the printed text reads as, whatever the characters. */
  lemma {:induction false} PrintThenRead(bytes: seq<Byte>, previousHex: bool)
    ensures Read(PrintFrom(bytes, previousHex)) == Some(Reread(bytes))
    decreases |bytes|
  {
    hide Read, PrintFrom, PrintAsCharLiteral;
    if bytes == [] {
      PrintNothing(previousHex);
      ReadEnd();
    } else {
      var c, rest := bytes[0], bytes[1..];
      PrintedHead(bytes, previousHex);
      if c == 0 {
        PrintedNul();
        if rest == [] || !OctalByte(rest[0]) {
          ReadNul(rest);
          PrintThenRead(rest, false);
        } else if |rest| == 1 || !OctalByte(rest[1]) {
          ReadNulOne(rest);
          assert rest[1..] == bytes[2..];
          PrintThenRead(bytes[2..], false);
        } else {
          ReadNulTwo(rest);
          assert rest[2..] == bytes[3..];
          PrintThenRead(bytes[3..], false);
        }
      } else {
        ReadOne(c, rest);
        PrintThenRead(rest, PrintAsStringLiteral(c).1 == HexEscape);
      }
    }
  }

  lemma PrintNothing(previousHex: bool)
    ensures PrintFrom([], previousHex) == [QUOTE]
  {
  }

  lemma PrintedNul()
    ensures PrintAsStringLiteral(0) == ("\\0", SpecialEscape)
  {
  }

  /** Any character but NUL is read back, thanks to the break after a hexadecimal escape. */
  lemma ReadOne(c: Byte, rest: seq<Byte>)
    requires c != 0
    ensures var (text, format) := PrintAsStringLiteral(c);
      var t := PrintFrom(rest, format == HexEscape);
      Read(text + t) == Then(c, Read(t))
  {
    hide Read, PrintFrom, PrintAsStringLiteral;
    var format := PrintAsStringLiteral(c).1;
    var t := PrintFrom(rest, format == HexEscape);
    if format == AsIs {
      ReadAsIs(c, t);
    } else if format == SpecialEscape {
      ReadSpecial(c, t);
    } else {
      BreakStopsHex(rest);
      ReadHex(c, t);
    }
  }

  /** The printed text read as adjacent literals gives the array back if and only if no NUL is
      followed by an octal digit; otherwise it gives fewer characters. */
  lemma RoundTripExactly(bytes: seq<Byte>)
    ensures var r := ReadLiterals([QUOTE] + PrintFrom(bytes, false));
      r.Some? && (r.value == bytes <==> !Swallows(bytes)) && (Swallows(bytes) ==> |r.value| < |bytes|)
  {
    hide Read, PrintFrom;
    var s := [QUOTE] + PrintFrom(bytes, false);
    assert s[1..] == PrintFrom(bytes, false);
    PrintThenRead(bytes, false);
    RereadExactly(bytes);
  }
}
