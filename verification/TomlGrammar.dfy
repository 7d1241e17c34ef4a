/** The lines of the configuration format, described apart from the parser: which texts are keys, values
    and lines, and what they say. The parser reads a line as this says, and in no other way. */
module TomlGrammar {
  import opened Wrappers
  import opened Sequences
  import opened HexCodec
  import opened TomlText
  import opened TomlTree
  import opened TomlParser
  import Utf8
  import TomlWriter
  import TomlReading

  // ---------- blanks ----------

  ghost predicate Blanks(s: string) {
    forall i :: 0 <= i < |s| ==> s[i] == ' ' || s[i] == '\t'
  }

  lemma {:induction false} BlanksSkipped(gap: string, rest: string)
    requires Blanks(gap)
    ensures SkipBlanks(gap + rest) == SkipBlanks(rest)
  {
    if gap == "" {
      assert gap + rest == rest;
    } else {
      assert (gap + rest)[1..] == gap[1..] + rest;
      BlanksSkipped(gap[1..], rest);
    }
  }

  lemma {:induction false} SkippedBlanks(s: string) returns (gap: string)
    ensures Blanks(gap) && s == gap + SkipBlanks(s)
    ensures SkipBlanks(s) != "" ==> !IsBlank(SkipBlanks(s)[0])
  {
    if s != "" && IsBlank(s[0]) {
      var more := SkippedBlanks(s[1..]);
      gap := [s[0]] + more;
      HeadAndRest(s);
      Associative([s[0]], more, SkipBlanks(s[1..]));
    } else {
      gap := "";
    }
  }

  // ---------- strings ----------

  lemma {:induction false} VerbatimRead(s: string, tail: string)
    requires '\'' !in s
    ensures Literal(s + "'" + tail, '\'') == Ok(s, SkipBlanks(tail))
  {
    if s == "" {
      assert ("" + "'" + tail)[1..] == tail;
    } else {
      var rest := s[1..] + "'" + tail;
      assert s + "'" + tail == [s[0]] + rest;
      assert s[0] in s && forall c :: c in s[1..] ==> c in s;
      VerbatimRead(s[1..], tail);
      assert [s[0]] + s[1..] == s;
    }
  }

  lemma {:induction false} VerbatimShape(t: string) returns (s: string, tail: string)
    requires Literal(t, '\'').Ok?
    ensures '\'' !in s && t == s + "'" + tail && Literal(t, '\'') == Ok(s, SkipBlanks(tail))
  {
    if t[0] == '\'' {
      s, tail := "", t[1..];
    } else {
      s, tail := VerbatimShape(t[1..]);
      assert t == [t[0]] + t[1..];
      s := [t[0]] + s;
    }
  }

  /** The pieces of a string in double quotes. */
  datatype Piece = Plain(c: char) | Short(c: char) | Unicode(digits: string)

  predicate ValidPiece(p: Piece) {
    match p
    case Plain(c) => c != '\"' && c != '\\'
    case Short(c) => c in "btnfr\"\\"
    case Unicode(digits) => (|digits| == 4 || |digits| == 8) && AllHex(digits)
  }

  function PieceText(p: Piece): string {
    match p
    case Plain(c) => [c]
    case Short(c) => ['\\', c]
    case Unicode(digits) => (if |digits| == 4 then "\\u" else "\\U") + digits
  }

  /** The code point of a one-letter escape. */
  function ShortCode(c: char): (n: nat)
    ensures n < 128
  {
    match c
    case 'b' => 8
    case 't' => 9
    case 'n' => 10
    case 'f' => 12
    case 'r' => 13
    case '\"' => 34
    case _ => 92
  }

  /** The characters a piece stands for; there are none for what is no Unicode scalar value. */
  function PieceMeaning(p: Piece): Option<string>
    requires ValidPiece(p)
  {
    match p
    case Plain(c) => Some([c])
    case Short(c) => Some([ShortCode(c) as char])
    case Unicode(digits) =>
      if Utf8.IsScalar(HexCodec.Value(digits)) then Some(AsText(Utf8.Emit(HexCodec.Value(digits)))) else None
  }

  ghost predicate Valid(ps: seq<Piece>) {
    forall i :: 0 <= i < |ps| ==> ValidPiece(ps[i])
  }

  function Text(ps: seq<Piece>): string {
    if ps == [] then "" else PieceText(ps[0]) + Text(ps[1..])
  }

  ghost function Meaning(ps: seq<Piece>): Option<string>
    requires Valid(ps)
  {
    if ps == [] then Some("")
    else
      var first, rest := PieceMeaning(ps[0]), Meaning(ps[1..]);
      if first.Some? && rest.Some? then Some(first.value + rest.value) else None
  }

  lemma {:induction false} HexRead(digits: string, tail: string, soFar: nat)
    requires AllHex(digits)
    ensures ParseHex(digits + tail, |digits|, soFar)
      == Ok(soFar * Power(16, |digits|) + HexCodec.Value(digits), tail)
  {
    if digits == "" {
      assert digits + tail == tail;
    } else {
      assert (digits + tail)[1..] == digits[1..] + tail;
      HexRead(digits[1..], tail, soFar * 16 + HexValue(digits[0]));
      HexFront(digits);
      FrontArithmetic(soFar, HexValue(digits[0]), Power(16, |digits| - 1), HexCodec.Value(digits[1..]));
    }
  }

  lemma FrontArithmetic(soFar: nat, d: nat, p: nat, rest: nat)
    ensures (soFar * 16 + d) * p + rest == soFar * (16 * p) + (d * p + rest)
  {
  }

  lemma LastDigitArithmetic(h: nat, p: nat, w: nat, e: nat)
    ensures (h * p + w) * 16 + e == h * (16 * p) + (w * 16 + e)
  {
  }

  lemma ValueLast(digits: string)
    requires AllHex(digits) && digits != ""
    ensures HexCodec.Value(digits)
      == HexCodec.Value(digits[..|digits| - 1]) * 16 + HexValue(digits[|digits| - 1])
  {
  }

  lemma InnerDigits(digits: string)
    requires |digits| > 1
    ensures digits[..|digits| - 1][1..] == digits[1..][..|digits| - 2]
    ensures digits[1..][|digits| - 2] == digits[|digits| - 1] && digits[..|digits| - 1][0] == digits[0]
  {
  }

  lemma {:induction false} HexFront(digits: string)
    requires AllHex(digits) && digits != ""
    ensures HexCodec.Value(digits)
      == HexValue(digits[0]) * Power(16, |digits| - 1) + HexCodec.Value(digits[1..])
  {
    hide HexCodec.Value, HexValue, Power;
    var last := |digits| - 1;
    ValueLast(digits);
    if last == 0 {
      OneDigit(digits);
    } else {
      HexFront(digits[..last]);
      InnerDigits(digits);
      ValueLast(digits[1..]);
      PowerStep(last);
      LastDigitArithmetic(HexValue(digits[0]), Power(16, last - 1), HexCodec.Value(digits[1..][..last - 1]),
                          HexValue(digits[last]));
    }
  }

  lemma PowerStep(k: nat)
    ensures Power(16, 0) == 1 && (k > 0 ==> Power(16, k) == 16 * Power(16, k - 1))
  {
  }

  lemma OneDigit(digits: string)
    requires AllHex(digits) && |digits| == 1
    ensures HexCodec.Value(digits) == HexValue(digits[0]) && HexCodec.Value(digits[1..]) == 0
    ensures HexValue(digits[0]) * Power(16, 0) == HexValue(digits[0])
  {
    assert digits[..0] == "" && digits[1..] == "";
  }

  lemma EscapeStart(e: string, tail: string)
    requires |e| > 1 && e[0] == '\\'
    ensures Literal(e + tail, QUOTE) ==
      var code := EscapeCode(e[1..] + tail);
      if code.Ok? then Prefixed(code.value, Literal(code.rest, QUOTE)) else Malformed
  {
    assert (e + tail)[1..] == e[1..] + tail;
  }

  lemma ShortRead(c: char, tail: string)
    requires ValidPiece(Short(c))
    ensures EscapeCode(['\\', c][1..] + tail) == Ok([ShortCode(c) as char], tail)
  {
    assert ['\\', c][1..] == [c];
    FrontCut([c], tail);
  }

  lemma UnicodeRead(digits: string, tail: string)
    requires ValidPiece(Unicode(digits))
    ensures EscapeCode(PieceText(Unicode(digits))[1..] + tail) ==
      if Utf8.IsScalar(HexCodec.Value(digits)) then Ok(AsText(Utf8.Emit(HexCodec.Value(digits))), tail) else Malformed
  {
    hide IsHex, AllHex, HexValue;
    var e := PieceText(Unicode(digits))[1..];
    assert e == (if |digits| == 4 then "u" else "U") + digits;
    assert (e + tail)[1..] == digits + tail;
    HexRead(digits, tail, 0);
  }

  lemma PieceRead(p: Piece, tail: string)
    requires ValidPiece(p)
    ensures Literal(PieceText(p) + tail, QUOTE) ==
      if PieceMeaning(p).Some? then Prefixed(PieceMeaning(p).value, Literal(tail, QUOTE)) else Malformed
  {
    var s := PieceText(p) + tail;
    match p {
      case Plain(c) => FrontCut([c], tail);
      case Short(c) =>
        EscapeStart(['\\', c], tail);
        ShortRead(c, tail);
      case Unicode(digits) =>
        EscapeStart(PieceText(p), tail);
        UnicodeRead(digits, tail);
    }
  }

  lemma TextPieces(ps: seq<Piece>, tail: string)
    requires ps != []
    ensures Text(ps) + "\"" + tail == PieceText(ps[0]) + (Text(ps[1..]) + "\"" + tail)
  {
  }

  lemma {:induction false} PiecesRead(ps: seq<Piece>, tail: string)
    requires Valid(ps)
    ensures Literal(Text(ps) + "\"" + tail, QUOTE) ==
      if Meaning(ps).Some? then Ok(Meaning(ps).value, SkipBlanks(tail)) else Malformed
  {
    if ps == [] {
      assert ("" + "\"" + tail)[1..] == tail;
    } else {
      TextPieces(ps, tail);
      PiecesRead(ps[1..], tail);
      PieceRead(ps[0], Text(ps[1..]) + "\"" + tail);
    }
  }

  lemma {:induction false} HexShape(s: string, digits: nat, soFar: nat)
    requires ParseHex(s, digits, soFar).Ok?
    ensures digits <= |s| && AllHex(s[..digits])
    ensures ParseHex(s, digits, soFar)
      == Ok(soFar * Power(16, digits) + HexCodec.Value(s[..digits]), s[digits..])
    decreases digits
  {
    HexDigitsRead(s, digits, soFar);
    HexRead(s[..digits], s[digits..], soFar);
    assert s[..digits] + s[digits..] == s;
  }

  lemma {:induction false} HexDigitsRead(s: string, digits: nat, soFar: nat)
    requires ParseHex(s, digits, soFar).Ok?
    ensures digits <= |s| && AllHex(s[..digits])
    decreases digits
  {
    if digits > 0 {
      HexDigitsRead(s[1..], digits - 1, soFar * 16 + HexValue(s[0]));
      assert forall i :: 1 <= i < digits ==> s[i] == s[1..][..digits - 1][i - 1];
    }
  }

  lemma ShortShape(s: string)
    requires EscapeCode(s).Ok? && s[0] != 'u' && s[0] != 'U'
    ensures s[0] in "btnfr\"\\" && EscapeCode(s) == Ok([ShortCode(s[0]) as char], s[1..])
  {
  }

  lemma UnicodeShape(s: string)
    requires EscapeCode(s).Ok? && (s[0] == 'u' || s[0] == 'U')
    ensures var n := if s[0] == 'U' then 8 else 4;
      && n < |s| && AllHex(s[1..][..n]) && PieceMeaning(Unicode(s[1..][..n])) == Some(EscapeCode(s).value)
      && EscapeCode(s).rest == s[1..][n..]
  {
    hide ParseHex, HexCodec.Value, Utf8.Emit, Utf8.IsScalar;
    HexShape(s[1..], if s[0] == 'U' then 8 else 4, 0);
  }

  lemma CutTwice(s: string, n: nat)
    requires n < |s|
    ensures s == [s[0]] + (s[1..][..n] + s[1..][n..])
    ensures [BACKSLASH] + s == ([BACKSLASH, s[0]] + s[1..][..n]) + s[1..][n..]
  {
  }

  /** What follows the backslash of an escape that is read. */
  lemma EscapeShape(s: string) returns (p: Piece)
    requires EscapeCode(s).Ok?
    ensures ValidPiece(p) && PieceMeaning(p) == Some(EscapeCode(s).value)
    ensures [BACKSLASH] + s == PieceText(p) + EscapeCode(s).rest
  {
    assert s != "";
    hide EscapeCode, Utf8.Emit, Utf8.IsScalar, HexCodec.Value;
    if s[0] == 'u' || s[0] == 'U' {
      var n := if s[0] == 'U' then 8 else 4;
      UnicodeShape(s);
      CutTwice(s, n);
      p := Unicode(s[1..][..n]);
      assert PieceText(p) == [BACKSLASH, s[0]] + s[1..][..n];
    } else {
      ShortShape(s);
      p := Short(s[0]);
      assert s == [s[0]] + s[1..];
    }
  }

  lemma TextFront(p: Piece, ps: seq<Piece>, tail: string)
    requires ValidPiece(p) && Valid(ps)
    ensures Valid([p] + ps) && Text([p] + ps) + "\"" + tail == PieceText(p) + (Text(ps) + "\"" + tail)
    ensures Meaning([p] + ps) == if PieceMeaning(p).Some? && Meaning(ps).Some?
      then Some(PieceMeaning(p).value + Meaning(ps).value) else None
  {
    assert ([p] + ps)[1..] == ps;
  }

  lemma {:induction false} PiecesShape(t: string) returns (ps: seq<Piece>, tail: string)
    requires Literal(t, QUOTE).Ok?
    ensures Valid(ps) && t == Text(ps) + "\"" + tail
    ensures Meaning(ps) == Some(Literal(t, QUOTE).value) && Literal(t, QUOTE).rest == SkipBlanks(tail)
    decreases |t|
  {
    if t[0] == QUOTE {
      ps, tail := [], t[1..];
      assert t == "" + "\"" + tail;
    } else {
      var p: Piece, rest: string;
      if t[0] == BACKSLASH {
        p := EscapeShape(t[1..]);
        rest := EscapeCode(t[1..]).rest;
        assert t == [BACKSLASH] + t[1..];
      } else {
        p, rest := Plain(t[0]), t[1..];
        assert t == [t[0]] + t[1..];
      }
      PieceRead(p, rest);
      var more: seq<Piece>;
      more, tail := PiecesShape(rest);
      TextFront(p, more, tail);
      ps := [p] + more;
    }
  }

  /** The text is a string literal that stands for these characters. */
  ghost predicate SaysString(text: string, s: string) {
    || ('\'' !in s && text == "'" + s + "'")
    || (exists ps :: Valid(ps) && Meaning(ps) == Some(s) && text == "\"" + Text(ps) + "\"")
  }

  lemma QuotedCut(q: string, inner: string, tail: string)
    requires |q| == 1
    ensures var text := q + inner + q;
      |text| > 1 && text[0] == q[0] && (text + tail)[1..] == inner + q + tail && q + (inner + q + tail) == text + tail
  {
  }

  lemma StringRead(text: string, s: string, tail: string)
    requires SaysString(text, s)
    ensures |text| > 1 && (text[0] == '\'' || text[0] == QUOTE)
    ensures Literal((text + tail)[1..], text[0]) == Ok(s, SkipBlanks(tail))
  {
    hide Literal, Text, Meaning, Valid, SkipBlanks;
    if '\'' !in s && text == "'" + s + "'" {
      QuotedCut("'", s, tail);
      VerbatimRead(s, tail);
    } else {
      var ps :| Valid(ps) && Meaning(ps) == Some(s) && text == "\"" + Text(ps) + "\"";
      QuotedCut("\"", Text(ps), tail);
      PiecesRead(ps, tail);
    }
  }

  lemma StringShape(t: string) returns (text: string, tail: string)
    requires t != "" && (t[0] == '\'' || t[0] == QUOTE) && Literal(t[1..], t[0]).Ok?
    ensures t == text + tail && SaysString(text, Literal(t[1..], t[0]).value)
    ensures Literal(t[1..], t[0]).rest == SkipBlanks(tail)
  {
    hide Literal, Text, Meaning, Valid, SkipBlanks;
    HeadAndRest(t);
    if t[0] == '\'' {
      var s;
      s, tail := VerbatimShape(t[1..]);
      text := "'" + s + "'";
      QuotedCut("'", s, tail);
    } else {
      var ps;
      ps, tail := PiecesShape(t[1..]);
      text := "\"" + Text(ps) + "\"";
      QuotedCut("\"", Text(ps), tail);
    }
  }

  // ---------- keys ----------

  /** The characters that end or spoil a bare key. */
  predicate KeyStop(c: char) {
    c == '.' || c == '=' || c == ']' || c == '[' || c == '#' || c == ' ' || c == '\t'
  }

  ghost predicate BareWord(k: string) {
    k != "" && k[0] != '\'' && k[0] != '\"' && forall i :: 0 <= i < |k| ==> !KeyStop(k[i])
  }

  /** The text is one part of a key, blanks around it or not. */
  ghost predicate SaysPart(text: string, k: string) {
    exists a, core, b :: Blanks(a) && Blanks(b) && text == a + core + b
      && ((core == k && BareWord(k)) || SaysString(core, k))
  }

  /** The text is a key of one or more parts joined by dots. */
  ghost predicate SaysKey(text: string, path: seq<string>)
    decreases |path|
  {
    if path == [] then false
    else if |path| == 1 then SaysPart(text, path[0])
    else exists a, b :: text == a + "." + b && SaysPart(a, path[0]) && SaysKey(b, path[1..])
  }

  lemma {:induction false} BareSpanEnds(k: string, rest: string)
    requires forall i :: 0 <= i < |k| ==> !EndsBareKey(k[i])
    requires rest == "" || EndsBareKey(rest[0])
    ensures BareSpan(k + rest) == |k|
  {
    if k == "" {
      assert k + rest == rest;
    } else {
      assert (k + rest)[1..] == k[1..] + rest;
      BareSpanEnds(k[1..], rest);
    }
  }

  lemma {:induction false} TrimmedBlanks(k: string, b: string)
    requires k != "" && !IsBlank(k[|k| - 1]) && Blanks(b)
    ensures TrimEnd(k + b) == k
    decreases |b|
  {
    if b == "" {
      assert k + b == k;
    } else {
      assert (k + b)[..|k + b| - 1] == k + b[..|b| - 1];
      TrimmedBlanks(k, b[..|b| - 1]);
    }
  }

  lemma BareWordRead(k: string, b: string, rest: string)
    requires BareWord(k) && Blanks(b) && (rest == "" || EndsBareKey(rest[0]))
    ensures BareKey(k + b + rest) == Ok(k, rest)
  {
    var s := k + b + rest;
    BareSpanEnds(k + b, rest);
    assert s[..|k + b|] == k + b && s[|k + b|..] == rest;
    TrimmedBlanks(k, b);
    assert BareKeyChars(k);
  }

  lemma NothingSkipped(s: string)
    requires s != "" && s[0] != ' ' && s[0] != '\t'
    ensures SkipBlanks(s) == s
  {
  }

  /** What is between the blanks around a part of a key. */
  lemma CoreRead(core: string, k: string, b: string, rest: string)
    requires (core == k && BareWord(k)) || SaysString(core, k)
    requires Blanks(b) && rest != "" && EndsBareKey(rest[0])
    ensures core != "" && !KeyStop(core[0])
    ensures var r := SimpleKey(core + (b + rest)); r.Ok? && r.value == k && SkipBlanks(r.rest) == rest
  {
    hide SaysString, BareKey, Literal;
    NothingSkipped(rest);
    if SaysString(core, k) {
      StringRead(core, k, b + rest);
      BlanksSkipped(b, rest);
    } else {
      BareWordRead(k, b, rest);
      assert core + (b + rest) == core + b + rest;
    }
    NothingSkipped(core + (b + rest));
  }

  lemma SimpleAfterBlanks(a: string, s: string)
    requires Blanks(a)
    ensures SimpleKey(a + s) == SimpleKey(s)
  {
    BlanksSkipped(a, s);
  }

  lemma Regroup(a: string, core: string, b: string, rest: string)
    ensures a + core + b + rest == a + (core + (b + rest))
  {
  }

  /** A part of a key, up to the dot or the end of the key. */
  lemma PartRead(text: string, k: string, rest: string)
    requires SaysPart(text, k) && rest != "" && EndsBareKey(rest[0])
    ensures SimpleKey(text + rest).Ok? && SimpleKey(text + rest).value == k
    ensures SkipBlanks(SimpleKey(text + rest).rest) == rest
    ensures text != "" && !EndsBareKey(text[0]) && text[0] != '['
  {
    hide SaysString, BareWord, SimpleKey;
    var a, core, b :| Blanks(a) && Blanks(b) && text == a + core + b
      && ((core == k && BareWord(k)) || SaysString(core, k));
    Regroup(a, core, b, rest);
    SimpleAfterBlanks(a, core + (b + rest));
    CoreRead(core, k, b, rest);
    if a != "" { assert text[0] == a[0]; } else { assert text[0] == core[0]; }
  }

  lemma KeyEnds(s: string, end: char, k: string, rest: string)
    requires s != "" && s[0] != end && !IsBlank(end) && rest != "" && rest[0] == end
    requires var r := SimpleKey(s); r.Ok? && r.value == k && SkipBlanks(r.rest) == rest
    ensures Key(s, end) == Ok([k], rest)
  {
  }

  lemma KeyGoesOn(s: string, end: char, k: string, more: string)
    requires s != "" && s[0] != end && end != '.'
    requires var r := SimpleKey(s); r.Ok? && r.value == k && SkipBlanks(r.rest) == "." + more
    requires Key(more, end).Ok?
    ensures Key(s, end) == Ok([k] + Key(more, end).value, Key(more, end).rest)
  {
    assert ("." + more)[1..] == more;
  }

  lemma {:induction false} KeyRead(text: string, path: seq<string>, end: char, tail: string)
    requires SaysKey(text, path) && (end == '=' || end == ']')
    ensures Key(text + ([end] + tail), end) == Ok(path, [end] + tail)
    ensures text != "" && text[0] != '[' && text[0] != end
    decreases |path|
  {
    hide Key, SimpleKey, SaysPart;
    if |path| == 1 {
      PartRead(text, path[0], [end] + tail);
      KeyEnds(text + ([end] + tail), end, path[0], [end] + tail);
      assert path == [path[0]];
    } else {
      var a, b :| text == a + "." + b && SaysPart(a, path[0]) && SaysKey(b, path[1..]);
      var more := b + ([end] + tail);
      KeyRead(b, path[1..], end, tail);
      PartRead(a, path[0], "." + more);
      DotJoined(a, b, [end] + tail);
      KeyGoesOn(a + ("." + more), end, path[0], more);
      assert path == [path[0]] + path[1..];
    }
  }

  lemma DotJoined(a: string, b: string, rest: string)
    ensures a + "." + b + rest == a + ("." + (b + rest))
  {
  }

  lemma {:induction false} TrimShape(s: string) returns (b: string)
    requires s != ""
    ensures TrimEnd(s) != "" && Blanks(b) && s == TrimEnd(s) + b
    decreases |s|
  {
    if |s| > 1 && IsBlank(s[|s| - 1]) {
      b := TrimShape(s[..|s| - 1]);
      assert s == s[..|s| - 1] + [s[|s| - 1]];
      b := b + [s[|s| - 1]];
    } else {
      b := "";
    }
  }

  lemma {:induction false} BareSpanShape(s: string)
    ensures forall i :: 0 <= i < BareSpan(s) ==> !EndsBareKey(s[i])
    ensures BareSpan(s) < |s| ==> EndsBareKey(s[BareSpan(s)])
  {
    if s != "" && !EndsBareKey(s[0]) {
      BareSpanShape(s[1..]);
      assert forall i :: 1 <= i < BareSpan(s) ==> s[i] == s[1..][i - 1];
    }
  }

  lemma BareShape(s: string) returns (b: string)
    requires BareKey(s).Ok? && s[0] != '\'' && s[0] != '\"'
    ensures Blanks(b) && s == BareKey(s).value + b + BareKey(s).rest && BareWord(BareKey(s).value)
    ensures BareKey(s).rest != "" ==> EndsBareKey(BareKey(s).rest[0])
  {
    var n := BareSpan(s);
    BareSpanShape(s);
    b := TrimShape(s[..n]);
    var k := BareKey(s).value;
    assert s == s[..n] + s[n..];
    forall i | 0 <= i < |k|
      ensures !KeyStop(k[i])
    {
      assert k[i] == s[i] && k[i] in k;
    }
  }

  lemma PartShape(t: string) returns (text: string)
    requires SimpleKey(t).Ok?
    ensures t == text + SkipBlanks(SimpleKey(t).rest) && SaysPart(text, SimpleKey(t).value)
  {
    hide SaysString, BareWord, BareKey;
    var a := SkippedBlanks(t);
    var s := SkipBlanks(t);
    var k := SimpleKey(t).value;
    if s[0] == QUOTE || s[0] == '\'' {
      var core, tail := StringShape(s);
      var b := SkippedBlanks(tail);
      SkippedTwice(tail);
      text := a + core + b;
      Regroup(a, core, b, SkipBlanks(tail));
      assert Blanks(a) && Blanks(b) && text == a + core + b && SaysString(core, k);
    } else {
      var b := BareShape(s);
      text := a + k + b;
      var rest := SimpleKey(t).rest;
      if rest != "" { NothingSkipped(rest); }
      Regroup(a, k, b, rest);
      assert k + b + rest == k + (b + rest);
      assert Blanks(a) && Blanks(b) && text == a + k + b && BareWord(k);
    }
  }

  lemma SkippedTwice(s: string)
    ensures SkipBlanks(SkipBlanks(s)) == SkipBlanks(s)
  {
    var gap := SkippedBlanks(s);
  }

  lemma {:induction false} KeyShape(s: string, end: char) returns (text: string)
    requires Key(s, end).Ok?
    ensures s == text + Key(s, end).rest && SaysKey(text, Key(s, end).value)
    decreases |s|
  {
    hide SimpleKey, SaysPart;
    var a := PartShape(s);
    var k, tail := SimpleKey(s).value, SimpleKey(s).rest;
    var rest := SkipBlanks(tail);
    if rest == "" || rest[0] == end {
      text := a;
      assert Key(s, end).value == [k];
    } else {
      KeyRestShorter(s);
      var b := KeyShape(rest[1..], end);
      text := a + "." + b;
      assert rest == "." + rest[1..];
      DotJoined(a, b, Key(rest[1..], end).rest);
      assert Key(s, end).value[1..] == Key(rest[1..], end).value;
    }
  }

  lemma KeyRestShorter(s: string)
    requires SimpleKey(s).Ok?
    ensures |SkipBlanks(SimpleKey(s).rest)| <= |s|
  {
    SkipBlanksShorter(SimpleKey(s).rest);
  }

  // ---------- numbers ----------

  /** Digits, with single underscores between some of them. */
  ghost predicate Grouped(u: string) {
    && u != "" && u[0] != '_' && u[|u| - 1] != '_'
    && (forall i :: 0 <= i < |u| ==> '0' <= u[i] <= '9' || u[i] == '_')
    && (forall i :: 0 <= i < |u| - 1 ==> u[i] != '_' || u[i + 1] != '_')
  }

  function Ungrouped(u: string): string {
    if u == "" then ""
    else if u[0] == '_' then Ungrouped(u[1..])
    else [u[0]] + Ungrouped(u[1..])
  }

  predicate Separates(rest: string) {
    rest == "" || !(IsDigit(rest[0]) || rest[0] == '_')
  }

  lemma {:induction false} GroupedRead(u: string, rest: string)
    requires Grouped(u) && Separates(rest)
    ensures EatDigits(u + rest) == Ok(Ungrouped(u), rest)
  {
    var s := u + rest;
    if |u| == 1 {
      assert s[1..] == rest && u[1..] == "" && Ungrouped(u[1..]) == "";
      assert Ungrouped(u) == [u[0]];
    } else if u[1] == '_' {
      assert u[2] != '_';
      assert s[2..] == u[2..] + rest && u[1..][1..] == u[2..];
      assert Ungrouped(u) == [u[0]] + Ungrouped(u[2..]);
      GroupedRead(u[2..], rest);
    } else {
      assert s[1..] == u[1..] + rest;
      GroupedRead(u[1..], rest);
    }
  }

  lemma GroupedLonger(c: char, u: string)
    requires '0' <= c <= '9' && Grouped(u)
    ensures Grouped([c] + u) && Ungrouped([c] + u) == [c] + Ungrouped(u)
  {
    FrontCut([c], u);
  }

  lemma GroupedApart(c: char, u: string)
    requires '0' <= c <= '9' && Grouped(u)
    ensures Grouped([c] + (['_'] + u)) && Ungrouped([c] + (['_'] + u)) == [c] + Ungrouped(u)
  {
    FrontCut([c], ['_'] + u);
    FrontCut(['_'], u);
  }

  lemma OneGroup(c: char)
    requires '0' <= c <= '9'
    ensures Grouped([c]) && Ungrouped([c]) == [c]
  {
    assert [c][1..] == "" && Ungrouped("") == "";
  }

  lemma {:induction false} GroupedShape(s: string) returns (u: string)
    requires EatDigits(s).Ok?
    ensures Grouped(u) && s == u + EatDigits(s).rest && Ungrouped(u) == EatDigits(s).value
    ensures Separates(EatDigits(s).rest)
    decreases |s|
  {
    hide Grouped, Ungrouped;
    HeadAndRest(s);
    if |s| > 1 && s[1] == '_' {
      var more := GroupedShape(s[2..]);
      u := [s[0]] + (['_'] + more);
      GroupedApart(s[0], more);
      assert s == [s[0]] + (['_'] + s[2..]);
      Associative(['_'], more, EatDigits(s[2..]).rest);
      Associative([s[0]], ['_'] + more, EatDigits(s[2..]).rest);
    } else if |s| > 1 && IsDigit(s[1]) {
      var more := GroupedShape(s[1..]);
      u := [s[0]] + more;
      GroupedLonger(s[0], more);
      Associative([s[0]], more, EatDigits(s[1..]).rest);
    } else {
      u := [s[0]];
      OneGroup(s[0]);
    }
  }

  /** The text is a decimal number in the range of 64 bits, without leading zeros. */
  ghost predicate SaysInt(text: string, n: int) {
    exists sign, u, m: int ::
      && (sign == "" || sign == "+" || sign == "-") && text == sign + u
      && Grouped(u) && 0 <= m && Ungrouped(u) == TomlWriter.NatText(m)
      && (if sign == "-" then n == -m else n == m) && -0x8000_0000_0000_0000 <= n <= 0x7fff_ffff_ffff_ffff
  }

  lemma NatTextStep(n: nat, y: nat)
    requires n > 0 && y < 10
    ensures TomlWriter.NatText(n * 10 + y) == TomlWriter.NatText(n) + [TomlWriter.DigitChar(y)]
  {
    assert (n * 10 + y) / 10 == n && (n * 10 + y) % 10 == y;
  }

  lemma DigitBack(c: char)
    requires IsDigit(c)
    ensures TomlWriter.DigitChar(DigitValue(c)) == c && (c != '0' ==> DigitValue(c) > 0)
  {
  }

  lemma {:induction false} NatTextOnly(d: string)
    requires d != "" && AllDigits(d) && (d[0] == '0' ==> |d| == 1)
    ensures TomlWriter.NatText(Decimal(d)) == d && (d[0] != '0' ==> Decimal(d) > 0)
  {
    hide TomlWriter.DigitChar, DigitValue;
    var init, last := d[..|d| - 1], d[|d| - 1];
    assert IsDigit(last);
    DigitBack(last);
    assert d == init + [last];
    if init == "" {
      assert Decimal(d) == DigitValue(last) && d == [last];
    } else {
      NatTextOnly(init);
      NatTextStep(Decimal(init), DigitValue(last));
    }
  }

  lemma {:induction false} UngroupedHead(u: string)
    requires u != "" && u[0] != '_'
    ensures Ungrouped(u) != "" && Ungrouped(u)[0] == u[0]
  {
  }

  lemma {:induction false} UngroupedSize(u: string)
    requires Grouped(u) && |u| > 1
    ensures |Ungrouped(u)| > 1
  {
    if u[1] == '_' { UngroupedHead(u[2..]); assert u[1..][1..] == u[2..]; } else { UngroupedHead(u[1..]); }
  }

  /** Blanks and a comment, or either, or nothing: what may follow on a line. */
  ghost predicate Tail(s: string) {
    exists gap, comment :: Blanks(gap) && (comment == "" || comment[0] == '#') && s == gap + comment
  }

  lemma TailExactly(s: string)
    ensures Tail(s) <==> EndsLine(s)
  {
    if Tail(s) {
      var gap, comment :| Blanks(gap) && (comment == "" || comment[0] == '#') && s == gap + comment;
      BlanksSkipped(gap, comment);
      if comment != "" { NothingSkipped(comment); }
    }
    if EndsLine(s) {
      var gap := SkippedBlanks(s);
      assert Blanks(gap) && s == gap + SkipBlanks(s);
    }
  }

  lemma TailStarts(s: string)
    requires Tail(s)
    ensures s == "" || IsBlank(s[0]) || s[0] == '#'
    ensures |s| > 1 && IsBlank(s[0]) ==> !IsDigit(s[1])
    ensures |s| > 1 && IsBlank(s[0]) ==> IsBlank(s[1]) || s[1] == '#'
  {
    var gap, comment :| Blanks(gap) && (comment == "" || comment[0] == '#') && s == gap + comment;
  }

  lemma {:induction false} SpansEnd(s: string)
    ensures TimeSpan(s) < |s| ==> !TimeChar(s[TimeSpan(s)])
    ensures DateSpan(s) < |s| ==> !DateChar(s[DateSpan(s)])
    ensures DateTimeSpan(s) < |s| ==> !DateTimeChar(s[DateTimeSpan(s)])
    ensures forall i :: 0 <= i < TimeSpan(s) ==> TimeChar(s[i])
    ensures forall i :: 0 <= i < DateSpan(s) ==> DateChar(s[i])
    ensures forall i :: 0 <= i < DateTimeSpan(s) ==> DateTimeChar(s[i])
  {
    if s != "" {
      SpansEnd(s[1..]);
      assert forall i :: 1 <= i < |s| ==> s[i] == s[1..][i - 1];
    }
  }

  /** Digits with a sign before and a tail after them are neither a time nor a date. */
  lemma NotATime(w: string, rest: string)
    requires forall i :: 1 <= i < |w| ==> IsDigit(w[i]) || w[i] == '_'
    requires rest == "" || IsBlank(rest[0]) || rest[0] == '#'
    ensures !IsTime(w + rest)
  {
    hide TimeSpan;
    var s := w + rest;
    SpansEnd(s);
    assert rest != "" ==> s[|w|] == rest[0];
  }

  lemma SpansWithin(x: string, rest: string)
    requires rest == "" || IsBlank(rest[0]) || rest[0] == '#'
    ensures DateSpan(x + rest) <= |x| && DateTimeSpan(x + rest) <= |x|
  {
    hide DateSpan, DateTimeSpan;
    SpansEnd(x + rest);
    assert rest != "" ==> (x + rest)[|x|] == rest[0];
  }

  lemma DateEndWithin(w: string, rest: string)
    requires forall i :: 0 <= i < |w| ==> !IsBlank(w[i])
    requires rest == "" || IsBlank(rest[0]) || rest[0] == '#'
    requires |rest| > 1 && IsBlank(rest[0]) ==> !IsDigit(rest[1])
    ensures DateEnd(w + rest) <= |w|
  {
    hide DateSpan, DateTimeSpan;
    var s := w + rest;
    SpansWithin(w, rest);
    var n := DateSpan(s);
    assert s[n..] == w[n..] + rest;
    SpansWithin(w[n..], rest);
    if n + 1 < |s| && s[n] == ' ' {
      assert n == |w| && s[n] == rest[0] && s[n + 1] == rest[1];
    }
  }

  lemma NotADate(w: string, rest: string)
    requires w != "" && !IsBlank(w[0])
    requires forall i :: 1 <= i < |w| ==> IsDigit(w[i]) || w[i] == '_'
    requires rest == "" || IsBlank(rest[0]) || rest[0] == '#'
    requires |rest| > 1 && IsBlank(rest[0]) ==> !IsDigit(rest[1])
    ensures !IsDate(w + rest)
  {
    DateEndWithin(w, rest);
    hide DateEnd, IsTime;
    if 10 <= DateEnd(w + rest) { assert (w + rest)[4] == w[4]; }
  }

  lemma SignedText(sign: string, u: string, rest: string)
    requires (sign == "" || sign == "+" || sign == "-") && Grouped(u)
    ensures AfterSign(sign + u + rest) == u + rest && sign + u + rest != ""
    ensures forall i :: 1 <= i < |sign + u| ==> IsDigit((sign + u)[i]) || (sign + u)[i] == '_'
    ensures StartsNumber(sign + u + rest) && !IsBlank((sign + u)[0]) && (sign + u)[0] != QUOTE && (sign + u)[0] != '\''
    ensures (sign + u + rest)[0] == '-' <==> sign == "-"
    ensures |sign + u + rest| > 1 && (sign + u + rest)[0] == '0' ==> sign == "" && u[0] == '0'
  {
    if sign == "" { assert sign + u + rest == u + rest; } else { assert (sign + u + rest)[1..] == u + rest; }
  }

  lemma NumberParts(s: string, t: string, digits: string, rest: string)
    requires s != "" && AfterSign(s) == t && t != "" && IsDigit(t[0])
    requires DigitSpan(t) < |t| ==> t[DigitSpan(t)] != '.'
    requires |s| > 1 && s[0] == '0' ==> s == t
    requires |t| > 1 && t[0] == '0' ==>
      !NumberChar(t[1]) && !HasPrefix(t[1..], "inf") && !HasPrefix(t[1..], "nan")
    requires AllDigits(digits) && EatDigits(t) == Ok(digits, rest)
    requires rest == "" || IsBlank(rest[0]) || rest[0] == '#'
    ensures var n: int := if s[0] == '-' then -(Decimal(digits) as int) else Decimal(digits);
      Number(s) == if IsInt64(n) then Ok(Int(n), rest) else Malformed
  {
    hide EatDigits, DigitSpan, Decimal, IsInt64, HasPrefix, AllDigits, AfterSign;
  }

  lemma NumberMagnitude(sign: string, u: string, m: nat, rest: string)
    requires sign == "" || sign == "+" || sign == "-"
    requires Grouped(u) && Ungrouped(u) == TomlWriter.NatText(m)
    requires rest == "" || IsBlank(rest[0]) || rest[0] == '#'
    ensures sign + u + rest != ""
    ensures var n: int := if sign == "-" then -(m as int) else m;
      Number(sign + u + rest) == if IsInt64(n) then Ok(Int(n), rest) else Malformed
  {
    hide EatDigits, DigitSpan, Decimal, IsInt64, HasPrefix, Number, TomlWriter.NatText, Ungrouped, AfterSign;
    hide StartsNumber;
    var s := sign + u + rest;
    SignedText(sign, u, rest);
    GroupedRead(u, rest);
    TomlReading.NatTextDigits(m);
    UngroupedHead(u);
    if |u| > 1 { UngroupedSize(u); }
    var t := u + rest;
    assert t[0] == u[0] && IsDigit(t[0]);
    SpanOfGroup(u, rest);
    NoOtherBase(u, rest);
    if sign == "" { assert s == t; }
    NumberParts(s, t, Ungrouped(u), rest);
  }

  lemma {:induction false} SpanOfGroup(u: string, rest: string)
    requires Grouped(u) && (rest == "" || IsBlank(rest[0]) || rest[0] == '#')
    ensures var t := u + rest; DigitSpan(t) < |t| ==> t[DigitSpan(t)] != '.'
  {
    var t := u + rest;
    DigitSpanEnds(t);
    assert rest != "" ==> t[|u|] == rest[0];
  }

  lemma {:induction false} DigitSpanEnds(s: string)
    ensures forall i :: 0 <= i < DigitSpan(s) ==> IsDigit(s[i])
    ensures DigitSpan(s) < |s| ==> !IsDigit(s[DigitSpan(s)])
  {
    if s != "" {
      DigitSpanEnds(s[1..]);
      assert forall i :: 1 <= i < |s| ==> s[i] == s[1..][i - 1];
    }
  }

  lemma NoOtherBase(u: string, rest: string)
    requires Grouped(u) && (u[0] == '0' ==> |u| == 1) && (rest == "" || IsBlank(rest[0]) || rest[0] == '#')
    ensures var t := u + rest;
      |t| > 1 && t[0] == '0' ==>
        !NumberChar(t[1]) && !HasPrefix(t[1..], "inf") && !HasPrefix(t[1..], "nan")
  {
    var t := u + rest;
    if |t| > 1 && t[0] == '0' { assert t[1..] == rest; }
  }

  /** A number that is read, and what follows it. */
  lemma NumberShape(s: string) returns (text: string)
    requires s != "" && Number(s).Ok? && Tail(Number(s).rest)
    ensures s == text + Number(s).rest && Number(s).value.Int? && SaysInt(text, Number(s).value.number)
  {
    hide Decimal, HasPrefix, DigitSpan, EatDigits, Ungrouped, Tail;
    var t := AfterSign(s);
    var sign := s[..|s| - |t|];
    var u := GroupedShape(t);
    var digits, rest := EatDigits(t).value, EatDigits(t).rest;
    UngroupedHead(u);
    if |u| > 1 {
      UngroupedSize(u);
      assert t[1] == u[1] && NumberChar(t[1]);
    } else {
      assert u == [u[0]];
      OneUngrouped(u);
    }
    assert t[0] == u[0];
    NatTextOnly(digits);
    text := sign + u;
    SignSplit(s, t, sign, u, rest);
  }

  lemma OneUngrouped(u: string)
    requires |u| == 1
    ensures |Ungrouped(u)| <= 1
  {
    assert u[1..] == "";
  }

  lemma SignSplit(s: string, t: string, sign: string, u: string, rest: string)
    requires s != "" && t == AfterSign(s) && sign == s[..|s| - |t|] && t == u + rest
    ensures s == sign + u + rest && (sign == "" || sign == "+" || sign == "-")
    ensures sign == "-" <==> s[0] == '-'
  {
    assert s == s[..1] + s[1..];
    if s[0] == '-' || s[0] == '+' { assert sign == [s[0]]; } else { assert sign == ""; }
  }

  // ---------- values ----------

  ghost predicate Says(text: string, v: Value) {
    match v
    case Str(s) => SaysString(text, s)
    case Bool(b) => text == if b then "true" else "false"
    case Int(n) => SaysInt(text, n)
  }

  lemma StringValueRead(text: string, s: string, rest: string)
    requires SaysString(text, s) && Tail(rest)
    ensures ParseValue(text + rest) == Ok(Str(s), SkipBlanks(rest))
    ensures text != "" && !IsBlank(text[0])
  {
    hide SaysString, Literal, IsTime, IsDate, StartsNumber, Number, Tail;
    StringRead(text, s, rest);
    TailStarts(rest);
    NotTripled(text, s, rest);
    assert text + rest != "";
  }

  lemma NotTripled(text: string, s: string, rest: string)
    requires SaysString(text, s) && (rest == "" || IsBlank(rest[0]) || rest[0] == '#')
    ensures var t := text + rest; |text| > 1 && !(|t| > 2 && t[1] == t[0] && t[2] == t[0])
  {
    var t := text + rest;
    if '\'' !in s && text == "'" + s + "'" {
      if s != "" { assert t[1] == s[0]; } else if |t| > 2 { assert t[2] == rest[0]; }
    } else {
      var ps :| Valid(ps) && Meaning(ps) == Some(s) && text == "\"" + Text(ps) + "\"";
      if ps != [] {
        assert ValidPiece(ps[0]);
        assert t[1] == PieceText(ps[0])[0];
      } else if |t| > 2 {
        assert t[2] == rest[0];
      }
    }
  }

  lemma BoolValueRead(b: bool, rest: string)
    requires Tail(rest)
    ensures var text := if b then "true" else "false"; ParseValue(text + rest) == Ok(Bool(b), rest)
  {
    var text := if b then "true" else "false";
    var t := text + rest;
    assert t[|text|..] == rest && HasPrefix(t, text);
    assert t[0] == text[0];
    assert TimeSpan(t) == 0 && DateSpan(t) == 0 && t[0..] == t && DateTimeSpan(t) == 0;
  }

  lemma IntValueRead(text: string, n: int, rest: string)
    requires SaysInt(text, n) && Tail(rest)
    ensures ParseValue(text + rest) == Ok(Int(n), rest)
    ensures text != "" && !IsBlank(text[0])
  {
    hide Number, IsTime, IsDate, StartsNumber, TomlWriter.NatText, Tail;
    var sign, u, m: int :|
      && (sign == "" || sign == "+" || sign == "-") && text == sign + u
      && Grouped(u) && 0 <= m && Ungrouped(u) == TomlWriter.NatText(m)
      && (if sign == "-" then n == -m else n == m) && -0x8000_0000_0000_0000 <= n <= 0x7fff_ffff_ffff_ffff;
    TailStarts(rest);
    SignedText(sign, u, rest);
    NotATime(sign + u, rest);
    NotADate(sign + u, rest);
    NumberMagnitude(sign, u, m, rest);
  }

  /** A value with a tail after it, such as a comment. */
  lemma ValueRead(text: string, v: Value, rest: string)
    requires Says(text, v) && Tail(rest)
    ensures ParseValue(text + rest).Ok? && ParseValue(text + rest).value == v && Tail(ParseValue(text + rest).rest)
    ensures text != "" && !IsBlank(text[0])
  {
    hide ParseValue, SaysString, SaysInt, Tail;
    match v {
      case Str(s) =>
        StringValueRead(text, s, rest);
        TailSkipped(rest);
      case Bool(b) => BoolValueRead(b, rest);
      case Int(n) => IntValueRead(text, n, rest);
    }
  }

  lemma TailSkipped(rest: string)
    ensures Tail(SkipBlanks(rest)) <==> Tail(rest)
  {
    TailExactly(rest);
    TailExactly(SkipBlanks(rest));
    SkippedTwice(rest);
  }

  lemma StringValueShape(s: string) returns (text: string, tail: string)
    requires s != "" && (s[0] == QUOTE || s[0] == '\'') && ParseValue(s).Ok? && Tail(ParseValue(s).rest)
    ensures s == text + tail && Says(text, ParseValue(s).value) && Tail(tail)
  {
    hide SaysString, Tail, Literal;
    text, tail := StringShape(s);
    TailSkipped(tail);
  }

  lemma WordShape(s: string) returns (text: string)
    requires s != "" && (s[0] == 't' || s[0] == 'f') && ParseValue(s).Ok?
    ensures s == text + ParseValue(s).rest && Says(text, ParseValue(s).value)
  {
    hide Number, IsTime, IsDate;
    if s[0] == 't' {
      text := "true";
      assert s == s[..4] + s[4..];
    } else {
      text := "false";
      assert s == s[..5] + s[5..];
    }
  }

  lemma ValueShape(s: string) returns (text: string, tail: string)
    requires ParseValue(s).Ok? && Tail(ParseValue(s).rest)
    ensures s == text + tail && Says(text, ParseValue(s).value) && Tail(tail)
  {
    hide Number, StringValue, IsTime, IsDate, SaysInt, SaysString, Tail;
    if s[0] == QUOTE || s[0] == '\'' {
      text, tail := StringValueShape(s);
    } else if StartsNumber(s) {
      assert ParseValue(s) == Number(s);
      text := NumberShape(s);
      tail := Number(s).rest;
    } else {
      text := WordShape(s);
      tail := ParseValue(s).rest;
    }
  }

  // ---------- lines ----------

  /** A key, an equals sign and a value, blanks around them or not, and perhaps a comment. */
  ghost predicate SaysAssign(line: string, path: seq<string>, v: Value) {
    exists key, gap, text, tail ::
      && line == key + "=" + gap + text + tail
      && SaysKey(key, path) && Blanks(gap) && Says(text, v) && Tail(tail)
  }

  /** A key in brackets, none of its parts empty, and perhaps a comment. */
  ghost predicate SaysHeader(line: string, path: seq<string>) {
    exists gap, key, tail ::
      && line == gap + "[" + key + "]" + tail
      && Blanks(gap) && SaysKey(key, path) && "" !in path && Tail(tail)
  }

  lemma PartHead(text: string, k: string, rest: string)
    requires SaysPart(text, k)
    ensures var t := SkipBlanks(text + rest); t != "" && !KeyStop(t[0])
  {
    hide SaysString, BareWord;
    var a, core, b :| Blanks(a) && Blanks(b) && text == a + core + b
      && ((core == k && BareWord(k)) || SaysString(core, k));
    Regroup(a, core, b, rest);
    BlanksSkipped(a, core + (b + rest));
    CoreRead(core, k, "", "=");
    NothingSkipped(core + (b + rest));
  }

  lemma KeyHead(text: string, path: seq<string>, rest: string)
    requires SaysKey(text, path)
    ensures var t := SkipBlanks(text + rest); t != "" && !KeyStop(t[0])
  {
    hide SaysPart, SkipBlanks, KeyStop;
    if |path| == 1 {
      PartHead(text, path[0], rest);
    } else {
      var a, b :| text == a + "." + b && SaysPart(a, path[0]) && SaysKey(b, path[1..]);
      PartHead(a, path[0], "." + (b + rest));
      DotJoined(a, b, rest);
    }
  }

  /** Blanks before a key belong to it. */
  lemma DotIndented(gap: string, a: string, b: string)
    ensures gap + (a + "." + b) == (gap + a) + "." + b
  {
  }

  lemma KeyIndented(gap: string, text: string, path: seq<string>)
    requires Blanks(gap) && SaysKey(text, path)
    ensures SaysKey(gap + text, path)
  {
    hide SaysPart, Blanks;
    if |path| == 1 {
      PartIndented(gap, text, path[0]);
    } else {
      var a, b :| text == a + "." + b && SaysPart(a, path[0]) && SaysKey(b, path[1..]);
      PartIndented(gap, a, path[0]);
      DotIndented(gap, a, b);
    }
  }

  lemma PartIndented(gap: string, text: string, k: string)
    requires Blanks(gap) && SaysPart(text, k)
    ensures SaysPart(gap + text, k)
  {
    hide SaysString, BareWord;
    var a, core, b :| Blanks(a) && Blanks(b) && text == a + core + b
      && ((core == k && BareWord(k)) || SaysString(core, k));
    assert gap + text == (gap + a) + core + b && Blanks(gap + a);
  }

  lemma KeyAfterBlanks(s: string, end: char)
    requires SkipBlanks(s) != "" && SkipBlanks(s)[0] != end && !IsBlank(end)
    ensures Key(SkipBlanks(s), end) == Key(s, end)
  {
    SkippedTwice(s);
  }

  lemma AssignPieces(key: string, gap: string, text: string, tail: string)
    ensures key + "=" + gap + text + tail == key + (['='] + (gap + (text + tail)))
    ensures (['='] + (gap + (text + tail)))[1..] == gap + (text + tail)
  {
  }

  lemma AssignLineRead(line: string, path: seq<string>, v: Value)
    requires SaysAssign(line, path, v)
    ensures ParseLine(line) == Ok(Assign(path, v), "")
  {
    hide SaysKey, Says, Tail, Key, ParseValue;
    var key, gap, text, tail :| line == key + "=" + gap + text + tail
      && SaysKey(key, path) && Blanks(gap) && Says(text, v) && Tail(tail);
    AssignPieces(key, gap, text, tail);
    var rest := gap + (text + tail);
    KeyRead(key, path, '=', rest);
    KeyHead(key, path, ['='] + rest);
    KeyAfterBlanks(line, '=');
    BlanksSkipped(gap, text + tail);
    ValueRead(text, v, tail);
    NothingSkipped(text + tail);
    TailExactly(ParseValue(text + tail).rest);
    SkippedTwice(line);
  }

  lemma AssignParsed(line: string)
    requires ParseLine(line).Ok? && ParseLine(line).value.Assign?
    ensures var s := SkipBlanks(line);
      && Key(s, '=').Ok? && Key(s, '=').rest != "" && Key(s, '=').rest[0] == '='
      && var r := ParseValue(SkipBlanks(Key(s, '=').rest[1..]));
      r.Ok? && EndsLine(r.rest) && ParseLine(line).value == Assign(Key(s, '=').value, r.value)
  {
    hide Key, ParseValue;
    assert ParseLine(line) == ParseAssign(SkipBlanks(line)) by { hide ParseAssign; }
  }

  lemma AssignLineShape(line: string)
    requires ParseLine(line).Ok? && ParseLine(line).value.Assign?
    ensures SaysAssign(line, ParseLine(line).value.path, ParseLine(line).value.value)
  {
    AssignParsed(line);
    hide SaysKey, Says, Tail, Key, ParseValue, ParseLine, EndsLine, SkipBlanks, Blanks;
    var indent := SkippedBlanks(line);
    var s := SkipBlanks(line);
    var key := KeyShape(s, '=');
    var rest := Key(s, '=').rest;
    var gap := SkippedBlanks(rest[1..]);
    var value := SkipBlanks(rest[1..]);
    TailExactly(ParseValue(value).rest);
    var text, tail := ValueShape(value);
    KeyIndented(indent, key, Key(s, '=').value);
    HeadAndRest(rest);
    AssignPieces(indent + key, gap, text, tail);
    Associative(indent, key, rest);
  }

  lemma HeaderPieces(gap: string, key: string, tail: string)
    ensures gap + "[" + key + "]" + tail == gap + ("[" + (key + ([']'] + tail)))
    ensures ("[" + (key + ([']'] + tail)))[1..] == key + ([']'] + tail)
    ensures ([']'] + tail)[1..] == tail
  {
  }

  lemma HeaderLineRead(line: string, path: seq<string>)
    requires SaysHeader(line, path)
    ensures ParseLine(line) == Ok(Header(path), "")
  {
    hide SaysKey, Tail, Key, ParseAssign;
    var gap, key, tail :| line == gap + "[" + key + "]" + tail
      && Blanks(gap) && SaysKey(key, path) && "" !in path && Tail(tail);
    HeaderPieces(gap, key, tail);
    var inner := key + ([']'] + tail);
    BlanksSkipped(gap, "[" + inner);
    NothingSkipped("[" + inner);
    KeyRead(key, path, ']', tail);
    TailExactly(tail);
    assert inner[0] == key[0];
  }

  lemma HeaderLineShape(line: string)
    requires ParseLine(line).Ok? && ParseLine(line).value.Header?
    ensures SaysHeader(line, ParseLine(line).value.path)
  {
    hide SaysKey, Tail, Key, ParseValue;
    var gap := SkippedBlanks(line);
    var s := SkipBlanks(line);
    assert s[0] == '[' && ParseLine(line) == ParseHeader(s[1..]);
    var key := KeyShape(s[1..], ']');
    var rest := Key(s[1..], ']').rest;
    TailExactly(rest[1..]);
    assert s == "[" + s[1..] && rest == [']'] + rest[1..];
    HeaderPieces(gap, key, rest[1..]);
  }

  lemma BlankExactly(line: string)
    ensures ParseLine(line) == Ok(Blank, "") <==> Tail(line)
  {
    hide Tail, ParseAssign, ParseHeader;
    TailExactly(line);
    SkippedTwice(line);
    if !EndsLine(line) {
      var s := SkipBlanks(line);
      assert ParseHeader(s[1..]) != Ok(Blank, "") && ParseAssign(s) != Ok(Blank, "") by { NeverBlank(s); }
    }
  }

  lemma NeverBlank(s: string)
    requires s != ""
    ensures ParseHeader(s[1..]) != Ok(Blank, "") && ParseAssign(s) != Ok(Blank, "")
  {
  }

  /** The parser reads a line as what it says, and reads no other line. */
  lemma LineExactly(line: string)
    ensures ParseLine(line) == Ok(Blank, "") <==> Tail(line)
    ensures forall path :: ParseLine(line) == Ok(Header(path), "") <==> SaysHeader(line, path)
    ensures forall path, v :: ParseLine(line) == Ok(Assign(path, v), "") <==> SaysAssign(line, path, v)
    ensures ParseLine(line).Ok? ==> ParseLine(line).rest == ""
  {
    hide ParseLine, Tail, SaysHeader, SaysAssign;
    BlankExactly(line);
    forall path
      ensures ParseLine(line) == Ok(Header(path), "") <==> SaysHeader(line, path)
    {
      if SaysHeader(line, path) { HeaderLineRead(line, path); }
      if ParseLine(line) == Ok(Header(path), "") { HeaderLineShape(line); }
    }
    forall path, v
      ensures ParseLine(line) == Ok(Assign(path, v), "") <==> SaysAssign(line, path, v)
    {
      if SaysAssign(line, path, v) { AssignLineRead(line, path, v); }
      if ParseLine(line) == Ok(Assign(path, v), "") { AssignLineShape(line); }
    }
    NothingLeft(line);
  }

  lemma NothingLeft(line: string)
    ensures ParseLine(line).Ok? ==> ParseLine(line).rest == ""
  {
    hide Key, ParseValue, SkipBlanks;
  }

  // ---------- where lines end ----------

  ghost predicate NoNewline(s: string) {
    forall i :: 0 <= i < |s| ==> s[i] != '\n'
  }

  lemma LineHeadTail(line: string, rest: string)
    requires line != "" && NoNewline(line)
    ensures NoNewline(line[1..]) && line == [line[0]] + line[1..]
    ensures line[1..] + rest == (line + rest)[1..] && (line + rest)[0] == line[0] != '\n'
  {
  }

  lemma {:induction false} LineAlone(line: string)
    requires NoNewline(line)
    ensures FirstLine(line) == line && AfterLine(line) == ""
  {
    if line != "" {
      LineHeadTail(line, "");
      LineAlone(line[1..]);
    }
  }

  /** `stop` is a newline, or one after a carriage return. */
  lemma {:induction false} LineBefore(line: string, stop: string, rest: string)
    requires NoNewline(line)
    requires stop == "\r\n" || (stop == "\n" && (line == "" || line[|line| - 1] != '\r'))
    ensures FirstLine(line + (stop + rest)) == line && AfterLine(line + (stop + rest)) == rest
  {
    if line == "" {
      FrontCut(stop, rest);
      assert line + (stop + rest) == stop + rest;
    } else {
      LineHeadTail(line, stop + rest);
      LineBefore(line[1..], stop, rest);
      assert !(line[0] == '\r' && (line[1..] + (stop + rest))[0] == '\n');
    }
  }

  /** A line ends at a newline or at the end of the input; a carriage return before the newline belongs to
      the line end, any other is part of the line. */
  lemma LineEndExactly(line: string, rest: string)
    requires NoNewline(line)
    ensures FirstLine(line) == line && AfterLine(line) == ""
    ensures FirstLine(line + "\r\n" + rest) == line && AfterLine(line + "\r\n" + rest) == rest
    ensures line == "" || line[|line| - 1] != '\r' ==>
      FirstLine(line + "\n" + rest) == line && AfterLine(line + "\n" + rest) == rest
  {
    LineAlone(line);
    LineBefore(line, "\r\n", rest);
    Associative(line, "\r\n", rest);
    if line == "" || line[|line| - 1] != '\r' {
      LineBefore(line, "\n", rest);
      Associative(line, "\n", rest);
    }
  }
}
