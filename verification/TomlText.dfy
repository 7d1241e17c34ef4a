/** Strings of the configuration format: how the writer escapes them and how the parser reads them. */
module TomlText {
  import opened Wrappers
  import opened HexCodec
  import Utf8

  const BACKSPACE: char := 8 as char
  const FORM_FEED: char := 12 as char
  const QUOTE: char := '\"'
  const BACKSLASH: char := '\\'

  /** What a parse step leaves: a value and the rest of the line, an error, or a construct that is
      not part of this model. */
  datatype Parsed<+T> = Ok(value: T, rest: string) | Malformed | NotModelled {
    predicate IsFailure() { !Ok? }

    function PropagateFailure<U>(): Parsed<U>
      requires IsFailure()
    {
      if Malformed? then Malformed else NotModelled
    }

    function Extract(): (T, string)
      requires !IsFailure()
    {
      (value, rest)
    }
  }

  predicate IsBlank(c: char) { c == ' ' || c == '\t' }

  predicate IsDigit(c: char) { '0' <= c <= '9' }

  function SkipBlanks(s: string): string {
    if s != "" && IsBlank(s[0]) then SkipBlanks(s[1..]) else s
  }

  // ---------- escaping ----------

  function LowerHexDigit(n: nat): char
    requires n < 16
  {
    "0123456789abcdef"[n]
  }

  /** Unpadded lower-case hexadecimal. */
  function HexText(n: nat): string
    requires n < 256
  {
    if n < 16 then [LowerHexDigit(n)] else [LowerHexDigit(n / 16), LowerHexDigit(n % 16)]
  }

  function EscapeChar(c: char): string {
    if c == BACKSPACE then "\\b"
    else if c == '\t' then "\\t"
    else if c == '\n' then "\\n"
    else if c == FORM_FEED then "\\f"
    else if c == '\r' then "\\r"
    else if c == QUOTE then "\\\""
    else if c == BACKSLASH then "\\\\"
    else if c as int <= 0x1f then "\\u" + HexText(c as int)
    else [c]
  }

  function Escape(s: string): string {
    if s == "" then "" else EscapeChar(s[0]) + Escape(s[1..])
  }

  method EscapeString(str: string) returns (res: string)
    ensures res == Escape(str)
  {
    res := "";
    var i := 0;
    while i < |str|
      invariant 0 <= i <= |str|
      invariant res + Escape(str[i..]) == Escape(str)
    {
      var c := str[i];
      var piece: string;
      if c == BACKSPACE {
        piece := "\\b";
      } else if c == '\t' {
        piece := "\\t";
      } else if c == '\n' {
        piece := "\\n";
      } else if c == FORM_FEED {
        piece := "\\f";
      } else if c == '\r' {
        piece := "\\r";
      } else if c == QUOTE {
        piece := "\\\"";
      } else if c == BACKSLASH {
        piece := "\\\\";
      } else if c as int <= 0x1f {
        piece := "\\u" + HexText(c as int);
      } else {
        piece := [c];
      }
      EscapeStep(res, str[i..], piece);
      assert str[i..][1..] == str[i + 1..];
      res := res + piece;
      i := i + 1;
    }
  }

  lemma EscapeStep(done: string, s: string, piece: string)
    requires s != "" && piece == EscapeChar(s[0])
    ensures done + Escape(s) == (done + piece) + Escape(s[1..])
  {
  }

  // ---------- reading ----------

  /** Reads `digits` hexadecimal digits on top of the value read so far. */
  function ParseHex(s: string, digits: nat, soFar: nat): (r: Parsed<nat>)
    ensures r.Ok? ==> |r.rest| + digits == |s|
    decreases digits
  {
    if digits == 0 then Ok(soFar, s)
    else if s == "" || !IsHex(s[0]) then Malformed
    else ParseHex(s[1..], digits - 1, soFar * 16 + HexValue(s[0]))
  }

  function AsText(bytes: seq<Utf8.Byte>): (s: string)
    ensures |s| == |bytes|
  {
    seq(|bytes|, i requires 0 <= i < |bytes| => bytes[i] as char)
  }

  /** The escape sequence after a backslash. */
  function EscapeCode(s: string): (r: Parsed<string>)
    ensures r.Ok? ==> |r.rest| < |s|
  {
    if s == "" then Malformed
    else if s[0] == 'b' then Ok([BACKSPACE], s[1..])
    else if s[0] == 't' then Ok("\t", s[1..])
    else if s[0] == 'n' then Ok("\n", s[1..])
    else if s[0] == 'f' then Ok([FORM_FEED], s[1..])
    else if s[0] == 'r' then Ok("\r", s[1..])
    else if s[0] == QUOTE then Ok([QUOTE], s[1..])
    else if s[0] == BACKSLASH then Ok([BACKSLASH], s[1..])
    else if s[0] == 'u' || s[0] == 'U' then
      var (codepoint, rest) :- ParseHex(s[1..], if s[0] == 'U' then 8 else 4, 0);
      if Utf8.IsScalar(codepoint) then Ok(AsText(Utf8.Emit(codepoint)), rest) else Malformed
    else Malformed
  }

  /** Puts characters already read in front of the value still to be read. */
  function Prefixed(chars: string, r: Parsed<string>): Parsed<string> {
    if r.Ok? then Ok(chars + r.value, r.rest) else r
  }

  /** A string literal from just after its opening delimiter. */
  function Literal(s: string, delim: char): (r: Parsed<string>)
    ensures !r.NotModelled?
    decreases |s|
  {
    if s == "" then Malformed
    else if delim == QUOTE && s[0] == BACKSLASH then
      var code := EscapeCode(s[1..]);
      if code.Ok? then Prefixed(code.value, Literal(code.rest, delim)) else Malformed
    else if s[0] == delim then Ok("", SkipBlanks(s[1..]))
    else Prefixed([s[0]], Literal(s[1..], delim))
  }

  /** The literal loop, appending to the value as it goes. */
  method StringLiteral(s: string, delim: char) returns (r: Parsed<string>)
    ensures r == Literal(s, delim)
  {
    var it := s;
    var val := "";
    PrefixedNothing(Literal(s, delim));
    while it != ""
      invariant Literal(s, delim) == Prefixed(val, Literal(it, delim))
      decreases |it|
    {
      if delim == QUOTE && it[0] == BACKSLASH {
        var code := EscapeCode(it[1..]);
        if code.IsFailure() { return Malformed; }
        PrefixedTwice(val, code.value, Literal(code.rest, delim));
        val := val + code.value;
        it := code.rest;
      } else if it[0] == delim {
        r := Ok(val, SkipBlanks(it[1..]));
        assert val + "" == val;
        return;
      } else {
        PrefixedTwice(val, [it[0]], Literal(it[1..], delim));
        val := val + [it[0]];
        it := it[1..];
      }
    }
    return Malformed;
  }

  lemma PrefixedNothing(r: Parsed<string>)
    ensures Prefixed("", r) == r
  {
    if r.Ok? { assert "" + r.value == r.value; }
  }

  lemma PrefixedTwice(a: string, b: string, r: Parsed<string>)
    ensures Prefixed(a, Prefixed(b, r)) == Prefixed(a + b, r)
  {
    if r.Ok? { assert a + (b + r.value) == (a + b) + r.value; }
  }

  // ---------- escaping and reading are inverse on strings without other control characters ----------

  predicate CleanChar(c: char) {
    c as int > 0x1f || c == BACKSPACE || c == '\t' || c == '\n' || c == FORM_FEED || c == '\r'
  }

  ghost predicate Clean(s: string) {
    forall i :: 0 <= i < |s| ==> CleanChar(s[i])
  }

  lemma EscapeHead(s: string)
    requires s != ""
    ensures Escape(s) == EscapeChar(s[0]) + Escape(s[1..])
  {
  }

  lemma CleanCharRead(c: char, tail: string)
    requires CleanChar(c)
    ensures Literal(EscapeChar(c) + tail, QUOTE) == Prefixed([c], Literal(tail, QUOTE))
  {
    var s := EscapeChar(c) + tail;
    if |EscapeChar(c)| == 2 {
      assert s[0] == BACKSLASH && s[1..][1..] == tail;
      assert EscapeCode(s[1..]) == Ok([c], tail);
    } else {
      assert s[1..] == tail;
    }
  }

  lemma {:induction false} CleanRoundTrip(s: string, tail: string)
    requires Clean(s)
    ensures Literal(Escape(s) + [QUOTE] + tail, QUOTE) == Ok(s, SkipBlanks(tail))
  {
    if s == "" {
      assert Escape(s) + [QUOTE] + tail == [QUOTE] + tail;
      assert ([QUOTE] + tail)[1..] == tail;
    } else {
      CleanRoundTrip(s[1..], tail);
      var rest := Escape(s[1..]) + [QUOTE] + tail;
      CleanCharRead(s[0], rest);
      EscapeTail(s, tail);
      assert [s[0]] + s[1..] == s;
    }
  }

  lemma EscapeTail(s: string, tail: string)
    requires s != ""
    ensures Escape(s) + [QUOTE] + tail == EscapeChar(s[0]) + (Escape(s[1..]) + [QUOTE] + tail)
  {
  }

  // ---------- and on no other string ----------

  lemma {:induction false} HexBounds(s: string, digits: nat, soFar: nat)
    requires ParseHex(s, digits, soFar).Ok?
    ensures digits == 3 ==> ParseHex(s, digits, soFar).value < (soFar + 1) * 0x1000
    ensures digits == 2 ==> soFar * 0x100 <= ParseHex(s, digits, soFar).value < (soFar + 1) * 0x100
    ensures digits == 1 ==> soFar * 0x10 <= ParseHex(s, digits, soFar).value < (soFar + 1) * 0x10
    ensures digits == 0 ==> ParseHex(s, digits, soFar).value == soFar
    decreases digits
  {
    if digits > 0 { HexBounds(s[1..], digits - 1, soFar * 16 + HexValue(s[0])); }
  }

  /** Where the next `digits` characters are read as hexadecimal digits, they are characters of the
      string itself: an escape starts with a backslash and the literal ends with a quote. */
  lemma {:induction false} HexFromString(s: string, tail: string, digits: nat, soFar: nat)
    requires ParseHex(Escape(s) + [QUOTE] + tail, digits, soFar).Ok?
    ensures |s| >= digits && forall i :: 0 <= i < digits ==> IsHex(s[i])
    ensures ParseHex(Escape(s) + [QUOTE] + tail, digits, soFar).rest == Escape(s[digits..]) + [QUOTE] + tail
    decreases digits
  {
    hide Escape, IsHex;
    var text := Escape(s) + [QUOTE] + tail;
    if digits == 0 {
      assert s[0..] == s;
    } else {
      assert IsHex(text[0]);
      HexHead(s, tail);
      HexFromString(s[1..], tail, digits - 1, soFar * 16 + HexValue(text[0]));
      assert s[1..][digits - 1..] == s[digits..];
      assert forall i :: 1 <= i < digits ==> s[i] == s[1..][i - 1];
    }
  }

  lemma HexHead(s: string, tail: string)
    requires IsHex((Escape(s) + [QUOTE] + tail)[0])
    ensures s != "" && s[0] == (Escape(s) + [QUOTE] + tail)[0]
    ensures (Escape(s) + [QUOTE] + tail)[1..] == Escape(s[1..]) + [QUOTE] + tail
  {
    assert Escape("") + [QUOTE] + tail == [QUOTE] + tail;
    assert !IsHex(([QUOTE] + tail)[0]);
    EscapeTail(s, tail);
    assert EscapeChar(s[0]) == [s[0]];
  }

  lemma ControlRead(c: char, tail: string)
    requires !CleanChar(c)
    ensures var n := c as int; var r := ParseHex(tail, if n < 16 then 3 else 2, n);
      Literal(EscapeChar(c) + tail, QUOTE) ==
        if r.Ok? && Utf8.IsScalar(r.value) then Prefixed(AsText(Utf8.Emit(r.value)), Literal(r.rest, QUOTE))
        else Malformed
  {
    var n, s := c as int, EscapeChar(c) + tail;
    assert EscapeChar(c) == "\\u" + HexText(n);
    assert s[1..] == "u" + (HexText(n) + tail);
    assert s[1..][1..] == HexText(n) + tail;
    UnpaddedHex(n, tail);
  }

  lemma HexDigitRead(n: nat, tail: string, digits: nat, soFar: nat)
    requires n < 16 && digits > 0
    ensures ParseHex([LowerHexDigit(n)] + tail, digits, soFar) == ParseHex(tail, digits - 1, soFar * 16 + n)
  {
    var s := [LowerHexDigit(n)] + tail;
    assert s[1..] == tail && IsHex(s[0]) && HexValue(s[0]) == n;
  }

  lemma UnpaddedHex(n: nat, tail: string)
    requires n < 32
    ensures ParseHex(HexText(n) + tail, 4, 0) == ParseHex(tail, if n < 16 then 3 else 2, n)
  {
    if n < 16 {
      HexDigitRead(n, tail, 4, 0);
    } else {
      assert HexText(n) + tail == [LowerHexDigit(1)] + ([LowerHexDigit(n % 16)] + tail);
      HexDigitRead(1, [LowerHexDigit(n % 16)] + tail, 4, 0);
      HexDigitRead(n % 16, tail, 3, 1);
    }
  }

  /** Length, with control characters that are not kept counted twice. */
  function Weight(s: string): nat {
    if s == "" then 0 else (if CleanChar(s[0]) then 1 else 2) + Weight(s[1..])
  }

  lemma {:induction false} WeightConcat(a: string, b: string)
    ensures Weight(a + b) == Weight(a) + Weight(b)
  {
    if a == "" {
      assert a + b == b;
    } else {
      assert (a + b)[1..] == a[1..] + b;
      WeightConcat(a[1..], b);
    }
  }

  lemma {:induction false} WeightAtMost(s: string)
    ensures |s| <= Weight(s) <= 2 * |s| && (Clean(s) ==> Weight(s) == |s|)
  {
    if s != "" {
      WeightAtMost(s[1..]);
      assert forall i :: 0 <= i < |s[1..]| ==> s[1..][i] == s[i + 1];
    }
  }

  lemma HexWeight(s: string, digits: nat)
    requires digits <= |s| && forall i :: 0 <= i < digits ==> IsHex(s[i])
    ensures Weight(s) == digits + Weight(s[digits..])
  {
    assert s == s[..digits] + s[digits..];
    WeightConcat(s[..digits], s[digits..]);
    WeightAtMost(s[..digits]);
  }

  /** What is read in place of a control character and the digits after it weighs less. */
  lemma ControlReplaced(c: char, codepoint: nat)
    requires !CleanChar(c) && Utf8.IsScalar(codepoint)
    requires var n := c as int;
      if n < 16 then codepoint < (n + 1) * 0x1000 else n * 0x100 <= codepoint < (n + 1) * 0x100
    ensures Weight(AsText(Utf8.Emit(codepoint))) < 2 + if c as int < 16 then 3 else 2
  {
    var t := AsText(Utf8.Emit(codepoint));
    WeightAtMost(t);
    if |t| == 3 { assert forall i :: 0 <= i < 3 ==> t[i] as int >= 0x80; }
  }

  /** Reading back never makes a string heavier. Any other control character is lost: reading back fails or
      gives a lighter string. */
  lemma {:induction false} ControlLost(s: string, tail: string)
    ensures var r := Literal(Escape(s) + [QUOTE] + tail, QUOTE);
      r.Ok? ==>
        && Weight(r.value) <= Weight(s) && (r.value == "" ==> s == "")
        && (!Clean(s) ==> Weight(r.value) < Weight(s) && r.value != s)
    decreases |s|
  {
    var r := Literal(Escape(s) + [QUOTE] + tail, QUOTE);
    if s == "" {
      CleanRoundTrip(s, tail);
    } else {
      EscapeTail(s, tail);
      var rest := Escape(s[1..]) + [QUOTE] + tail;
      if CleanChar(s[0]) {
        CleanCharRead(s[0], rest);
        ControlLost(s[1..], tail);
        if r.Ok? {
          assert r.value[1..] == Literal(rest, QUOTE).value;
          if !Clean(s) { assert !Clean(s[1..]) by { assert forall i :: 0 <= i < |s[1..]| ==> s[1..][i] == s[i + 1]; } }
        }
      } else {
        ControlRead(s[0], rest);
        if r.Ok? { ControlShrinks(s, tail); }
      }
    }
  }

  lemma {:induction false} ControlShrinks(s: string, tail: string)
    requires s != "" && !CleanChar(s[0]) && Literal(EscapeChar(s[0]) + (Escape(s[1..]) + [QUOTE] + tail), QUOTE).Ok?
    ensures var t := Literal(EscapeChar(s[0]) + (Escape(s[1..]) + [QUOTE] + tail), QUOTE).value;
      t != "" && Weight(t) < Weight(s)
    decreases |s|, 0
  {
    var n := s[0] as int;
    var digits := if n < 16 then 3 else 2;
    var rest := Escape(s[1..]) + [QUOTE] + tail;
    ControlRead(s[0], rest);
    var r := ParseHex(rest, digits, n);
    HexFromString(s[1..], tail, digits, n);
    HexBounds(rest, digits, n);
    var after := s[1..][digits..];
    ControlLost(after, tail);
    HexWeight(s[1..], digits);
    ControlReplaced(s[0], r.value);
    WeightConcat(AsText(Utf8.Emit(r.value)), Literal(r.rest, QUOTE).value);
  }

  /** The exact condition: a string survives escaping and reading back if and only if its control
      characters are among \b \t \n \f \r. */
  lemma RoundTripExactly(s: string, tail: string)
    ensures Literal(Escape(s) + [QUOTE] + tail, QUOTE) == Ok(s, SkipBlanks(tail)) <==> Clean(s)
  {
    if Clean(s) { CleanRoundTrip(s, tail); } else { ControlLost(s, tail); }
  }

  // ---------- what any string is read back as ----------

  /** What reading the escaped string back gives, if it succeeds. */
  function Reread(s: string): Option<string> {
    var r := Literal(Escape(s) + [QUOTE], QUOTE);
    if r.Ok? then Some(r.value) else None
  }

  lemma {:induction false} HexAnyTail(s: string, tail: string, other: string, digits: nat, soFar: nat)
    requires ParseHex(Escape(s) + [QUOTE] + tail, digits, soFar).Ok?
    ensures ParseHex(Escape(s) + [QUOTE] + other, digits, soFar).Ok?
    ensures ParseHex(Escape(s) + [QUOTE] + other, digits, soFar).value
      == ParseHex(Escape(s) + [QUOTE] + tail, digits, soFar).value
    decreases digits
  {
    if digits > 0 {
      HexHead(s, tail);
      EscapeTail(s, other);
      assert IsHex(s[0]) && EscapeChar(s[0]) == [s[0]];
      assert (Escape(s) + [QUOTE] + other)[1..] == Escape(s[1..]) + [QUOTE] + other;
      HexAnyTail(s[1..], tail, other, digits - 1, soFar * 16 + HexValue(s[0]));
    }
  }

  lemma {:induction false} SameReading(s: string, tail: string, other: string)
    requires Literal(Escape(s) + [QUOTE] + tail, QUOTE).Ok?
    ensures Literal(Escape(s) + [QUOTE] + tail, QUOTE).rest == SkipBlanks(tail)
    ensures Literal(Escape(s) + [QUOTE] + other, QUOTE)
      == Ok(Literal(Escape(s) + [QUOTE] + tail, QUOTE).value, SkipBlanks(other))
    decreases |s|
  {
    if s == "" {
      CleanRoundTrip(s, tail);
      CleanRoundTrip(s, other);
    } else {
      var rest, rest' := Escape(s[1..]) + [QUOTE] + tail, Escape(s[1..]) + [QUOTE] + other;
      EscapeTail(s, tail);
      EscapeTail(s, other);
      if CleanChar(s[0]) {
        CleanCharRead(s[0], rest);
        CleanCharRead(s[0], rest');
        SameReading(s[1..], tail, other);
      } else {
        var n := s[0] as int;
        var digits := if n < 16 then 3 else 2;
        ControlRead(s[0], rest);
        ControlRead(s[0], rest');
        HexFromString(s[1..], tail, digits, n);
        HexAnyTail(s[1..], tail, other, digits, n);
        HexFromString(s[1..], other, digits, n);
        SameReading(s[1..][digits..], tail, other);
      }
    }
  }

  /** What follows the closing quote does not matter. */
  lemma RereadBefore(s: string, tail: string)
    ensures Literal(Escape(s) + [QUOTE] + tail, QUOTE) ==
      if Reread(s).Some? then Ok(Reread(s).value, SkipBlanks(tail)) else Malformed
  {
    var text := Escape(s) + [QUOTE];
    assert text + "" == text;
    if Literal(text, QUOTE).Ok? {
      SameReading(s, "", tail);
    } else if Literal(text + tail, QUOTE).Ok? {
      SameReading(s, tail, "");
    }
  }

  lemma RereadLighter(s: string)
    requires Reread(s).Some?
    ensures Weight(Reread(s).value) <= Weight(s) && (!Clean(s) ==> Weight(Reread(s).value) < Weight(s))
    ensures Reread(s).value == "" ==> s == ""
  {
    ControlLost(s, "");
    var text := Escape(s) + [QUOTE];
    assert text + "" == text;
  }

  lemma CleanReread(s: string)
    requires Clean(s)
    ensures Reread(s) == Some(s)
  {
    CleanRoundTrip(s, "");
    var text := Escape(s) + [QUOTE];
    assert text + "" == text;
  }
}
