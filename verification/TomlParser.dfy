/** Reading the configuration format line by line. */
module TomlParser {
  import opened TomlText
  import opened Wrappers
  import opened TomlTree

  // ---------- keys ----------

  predicate EndsBareKey(c: char) { c == '.' || c == '=' || c == ']' }

  function BareSpan(s: string): (n: nat)
    ensures n <= |s|
  {
    if s == "" || EndsBareKey(s[0]) then 0 else 1 + BareSpan(s[1..])
  }

  /** Drops trailing blanks, but never the first character. */
  function TrimEnd(s: string): string {
    if |s| > 1 && IsBlank(s[|s| - 1]) then TrimEnd(s[..|s| - 1]) else s
  }

  predicate BareKeyChars(key: string) {
    forall c :: c in key ==> c != '#' && !IsBlank(c) && c != '[' && c != ']'
  }

  function BareKey(s: string): (r: Parsed<string>)
    ensures r.Ok? ==> |r.rest| <= |s|
  {
    var n := BareSpan(s);
    if n == 0 then Malformed
    else
      var key := TrimEnd(s[..n]);
      if BareKeyChars(key) then Ok(key, s[n..]) else Malformed
  }

  lemma SkipBlanksShorter(s: string)
    ensures |SkipBlanks(s)| <= |s|
  {
  }

  lemma {:induction false} LiteralShorter(s: string, delim: char)
    ensures Literal(s, delim).Ok? ==> |Literal(s, delim).rest| <= |s|
    decreases |s|
  {
    if s != "" {
      if delim == QUOTE && s[0] == BACKSLASH {
        if EscapeCode(s[1..]).Ok? { LiteralShorter(EscapeCode(s[1..]).rest, delim); }
      } else if s[0] == delim {
        SkipBlanksShorter(s[1..]);
      } else {
        LiteralShorter(s[1..], delim);
      }
    }
  }

  function SimpleKey(s: string): (r: Parsed<string>)
    ensures r.Ok? ==> |r.rest| <= |s|
  {
    SkipBlanksShorter(s);
    var key := SkipBlanks(s);
    if key == "" then Malformed
    else if key[0] == QUOTE || key[0] == '\'' then
      LiteralShorter(key[1..], key[0]);
      Literal(key[1..], key[0])
    else BareKey(key)
  }

  /** Key parts joined by dots, up to `end` or the end of the line. */
  function Key(s: string, end: char): (r: Parsed<seq<string>>)
    ensures r.Ok? ==> r.value != [] && (r.rest == "" || r.rest[0] == end)
    decreases |s|
  {
    if s == "" || s[0] == end then Malformed
    else
      var (part, tail) :- SimpleKey(s);
      var rest := SkipBlanks(tail);
      SkipBlanksShorter(tail);
      if rest == "" || rest[0] == end then Ok([part], rest)
      else if rest[0] != '.' then Malformed
      else
        var (more, last) :- Key(rest[1..], end);
        Ok([part] + more, last)
  }

  // ---------- values ----------

  predicate TimeChar(c: char) { IsDigit(c) || c == ':' || c == '.' }

  predicate DateChar(c: char) { IsDigit(c) || c == '-' }

  predicate DateTimeChar(c: char) { IsDigit(c) || c == 'T' || c == 'Z' || c == ':' || c == '-' || c == '+' || c == '.' }

  function TimeSpan(s: string): (n: nat)
    ensures n <= |s|
  {
    if s == "" || !TimeChar(s[0]) then 0 else 1 + TimeSpan(s[1..])
  }

  function DateSpan(s: string): (n: nat)
    ensures n <= |s|
  {
    if s == "" || !DateChar(s[0]) then 0 else 1 + DateSpan(s[1..])
  }

  function DateTimeSpan(s: string): (n: nat)
    ensures n <= |s|
  {
    if s == "" || !DateTimeChar(s[0]) then 0 else 1 + DateTimeSpan(s[1..])
  }

  predicate IsTime(s: string) {
    var n := TimeSpan(s);
    8 <= n && s[2] == ':' && s[5] == ':' && (n > 8 ==> s[8] == '.' && n > 9)
  }

  function DateEnd(s: string): (n: nat)
    ensures n <= |s|
  {
    var n := DateSpan(s);
    var m := if n + 1 < |s| && s[n] == ' ' && IsDigit(s[n + 1]) then n + 1 else n;
    m + DateTimeSpan(s[m..])
  }

  predicate IsDate(s: string) {
    var n := DateEnd(s);
    10 <= n && s[4] == '-' && s[7] == '-'
    && ((19 <= n && (s[10] == 'T' || s[10] == ' ') && IsTime(s[11..n])) || n == 10)
  }

  predicate HasPrefix(s: string, p: string) { p <= s }

  predicate StartsNumber(s: string)
    requires s != ""
  {
    IsDigit(s[0]) || s[0] == '-' || s[0] == '+' || HasPrefix(s, "inf") || HasPrefix(s, "nan")
  }

  function DigitSpan(s: string): (n: nat)
    ensures n <= |s|
  {
    if s == "" || !IsDigit(s[0]) then 0 else 1 + DigitSpan(s[1..])
  }

  function AfterSign(s: string): string {
    if s != "" && (s[0] == '-' || s[0] == '+') then s[1..] else s
  }

  predicate NumberChar(c: char) {
    || IsDigit(c) || c == '_' || c == '.' || c == 'e' || c == 'E' || c == '-' || c == '+'
    || c == 'x' || c == 'o' || c == 'b'
  }

  /** Digits, single underscores allowed between them. */
  function EatDigits(s: string): (r: Parsed<string>)
    ensures r.Ok? ==> r.value != ""
    ensures r.Ok? ==> AllDigits(r.value)
  {
    if s == "" || !IsDigit(s[0]) then Malformed
    else if |s| > 1 && s[1] == '_' then
      var (more, rest) :- EatDigits(s[2..]);
      Ok([s[0]] + more, rest)
    else if |s| > 1 && IsDigit(s[1]) then
      var (more, rest) :- EatDigits(s[1..]);
      Ok([s[0]] + more, rest)
    else Ok([s[0]], s[1..])
  }

  predicate AllDigits(s: string) {
    forall i :: 0 <= i < |s| ==> IsDigit(s[i])
  }

  function Decimal(digits: string): (n: nat)
    requires AllDigits(digits)
  {
    if digits == "" then 0
    else Decimal(digits[..|digits| - 1]) * 10 + DigitValue(digits[|digits| - 1])
  }

  function DigitValue(c: char): (n: nat)
    requires IsDigit(c)
    ensures n < 10
  {
    c as int - '0' as int
  }

  predicate IsInt64(n: int) { -0x8000_0000_0000_0000 <= n < 0x8000_0000_0000_0000 }

  /** Decimal integers; other bases and floats are not part of this model. */
  function Number(s: string): Parsed<Value>
    requires s != ""
  {
    var t := AfterSign(s);
    if t == "" then Malformed
    else if t[0] == 'i' || t[0] == 'n' then NotModelled
    else if DigitSpan(t) < |t| && t[DigitSpan(t)] == '.' then NotModelled
    else if |s| > 1 && s[0] == '0' && (s[1] == 'x' || s[1] == 'o' || s[1] == 'b') then NotModelled
    else if |t| > 1 && t[0] == '0' && (NumberChar(t[1]) || HasPrefix(t[1..], "inf") || HasPrefix(t[1..], "nan"))
    then Malformed
    else
      var (digits, rest) :- EatDigits(t);
      if rest != "" && (rest[0] == '.' || rest[0] == 'e' || rest[0] == 'E') then NotModelled
      else
        var magnitude: int := Decimal(digits);
        var n := if s[0] == '-' then -magnitude else magnitude;
        if IsInt64(n) then Ok(Int(n), rest) else Malformed
  }

  function StringValue(s: string): Parsed<Value>
    requires s != ""
  {
    if |s| > 2 && s[1] == s[0] && s[2] == s[0] then NotModelled
    else
      var (text, rest) :- Literal(s[1..], s[0]);
      Ok(Str(text), rest)
  }

  function ParseValue(s: string): Parsed<Value> {
    if s == "" then Malformed
    else if s[0] == QUOTE || s[0] == '\'' then StringValue(s)
    else if IsTime(s) || IsDate(s) then NotModelled
    else if StartsNumber(s) then Number(s)
    else if s[0] == 't' then if HasPrefix(s, "true") then Ok(Bool(true), s[4..]) else Malformed
    else if s[0] == 'f' then if HasPrefix(s, "false") then Ok(Bool(false), s[5..]) else Malformed
    else if s[0] == '[' || s[0] == '{' then NotModelled
    else Malformed
  }

  // ---------- lines ----------

  predicate EndsLine(s: string) {
    SkipBlanks(s) == "" || SkipBlanks(s)[0] == '#'
  }

  function ParseHeader(s: string): Parsed<Line> {
    if s == "" then Malformed
    else if s[0] == '[' then NotModelled
    else
      var (path, rest) :- Key(s, ']');
      if "" in path || rest == "" || !EndsLine(rest[1..]) then Malformed
      else Ok(Header(path), "")
  }

  function ParseAssign(s: string): Parsed<Line> {
    var (path, rest) :- Key(s, '=');
    if rest == "" then Malformed
    else
      var (value, tail) :- ParseValue(SkipBlanks(rest[1..]));
      if EndsLine(tail) then Ok(Assign(path, value), "") else Malformed
  }

  function ParseLine(line: string): (r: Parsed<Line>)
    ensures r.Ok? && r.value.Assign? ==> r.value.path != []
  {
    var s := SkipBlanks(line);
    if EndsLine(s) then Ok(Blank, "")
    else if s[0] == '[' then ParseHeader(s[1..])
    else ParseAssign(s)
  }

  /** The line at the head of the input: up to a newline, alone or after a carriage return. */
  function FirstLine(t: string): string {
    if t == "" || t[0] == '\n' || (t[0] == '\r' && |t| > 1 && t[1] == '\n') then ""
    else [t[0]] + FirstLine(t[1..])
  }

  function AfterLine(t: string): (rest: string)
    ensures t != "" ==> |rest| < |t|
  {
    if t == "" then ""
    else if t[0] == '\n' then t[1..]
    else if t[0] == '\r' && |t| > 1 && t[1] == '\n' then t[2..]
    else AfterLine(t[1..])
  }

  /** What a whole input comes to. */
  datatype Outcome = Parsed(state: State) | Rejected | Unmodelled

  function RunLine(st: State, line: string, merge: Merge): Outcome {
    match ParseLine(line)
    case Malformed => Rejected
    case NotModelled => Unmodelled
    case Ok(l, _) =>
      match ExecLine(st, l, merge)
      case None => Rejected
      case Some(next) => Parsed(next)
  }

  function RunText(st: State, text: string, merge: Merge): Outcome
    decreases |text|
  {
    if text == "" then Parsed(st)
    else match RunLine(st, FirstLine(text), merge)
      case Parsed(next) => RunText(next, AfterLine(text), merge)
      case stop => stop
  }

  /** Parsing a whole input from the empty tree. */
  function Parse(text: string, merge: Merge): Outcome {
    RunText(State(map[], []), text, merge)
  }

  // ---------- reading first, then carrying out ----------

  /** All lines of an input, if each of them can be read. */
  function ReadAll(text: string): (lines: Option<seq<Line>>)
    ensures lines.Some? ==> WellFormed(lines.value)
    decreases |text|
  {
    if text == "" then Some([])
    else
      Joined(ParseLine(FirstLine(text)), ReadAll(AfterLine(text)))
  }

  function Joined(line: Parsed<Line>, rest: Option<seq<Line>>): Option<seq<Line>> {
    if line.Ok? && rest.Some? then Some([line.value] + rest.value) else None
  }

  function Both(a: Option<seq<Line>>, b: Option<seq<Line>>): (both: Option<seq<Line>>)
    ensures both.Some? ==> a.Some? && b.Some? && (WellFormed(a.value) && WellFormed(b.value) ==> WellFormed(both.value))
  {
    if a.Some? && b.Some? then Some(a.value + b.value) else None
  }

  lemma JoinedConcat(line: Parsed<Line>, a: Option<seq<Line>>, b: Option<seq<Line>>)
    ensures Joined(line, Both(a, b)) == Both(Joined(line, a), b)
  {
    if Joined(line, a).Some? && b.Some? {
      assert [line.value] + (a.value + b.value) == ([line.value] + a.value) + b.value;
    }
  }

  lemma {:induction false} ReadThenExec(st: State, text: string, merge: Merge)
    requires ReadAll(text).Some?
    ensures RunText(st, text, merge) ==
      match Exec(st, ReadAll(text).value, merge) case None => Rejected case Some(end) => Parsed(end)
    decreases |text|
  {
    if text != "" {
      var lines := ReadAll(text).value;
      var next := ExecLine(st, lines[0], merge);
      assert lines[1..] == ReadAll(AfterLine(text)).value;
      if next.Some? { ReadThenExec(next.value, AfterLine(text), merge); }
    }
  }

  /** Text that ends with a newline, or is empty. */
  predicate Complete(text: string) {
    text == "" || text[|text| - 1] == '\n'
  }

  lemma {:induction false} FirstLineConcat(a: string, b: string)
    requires a != "" && Complete(a)
    ensures FirstLine(a + b) == FirstLine(a) && AfterLine(a + b) == AfterLine(a) + b && Complete(AfterLine(a))
  {
    if a[0] == '\n' {
      assert (a + b)[1..] == a[1..] + b;
    } else if a[0] == '\r' && a[1] == '\n' {
      assert (a + b)[2..] == a[2..] + b;
    } else {
      assert (a + b)[1..] == a[1..] + b;
      FirstLineConcat(a[1..], b);
    }
  }

  /** A complete text and what follows it are read apart. */
  lemma {:induction false} ReadConcat(a: string, b: string)
    requires Complete(a)
    ensures ReadAll(a + b) == Both(ReadAll(a), ReadAll(b))
    decreases |a|
  {
    if a == "" {
      assert a + b == b;
      if ReadAll(b).Some? { assert [] + ReadAll(b).value == ReadAll(b).value; }
    } else {
      FirstLineConcat(a, b);
      JoinedConcat(ParseLine(FirstLine(a)), ReadAll(AfterLine(a)), ReadAll(b));
      ReadConcat(AfterLine(a), b);
    }
  }

  /** Text that parses can be read line by line. */
  lemma {:induction false} ParsedReads(st: State, text: string, merge: Merge)
    requires RunText(st, text, merge).Parsed?
    ensures ReadAll(text).Some?
    decreases |text|
  {
    if text != "" { ParsedReads(RunLine(st, FirstLine(text), merge).state, AfterLine(text), merge); }
  }

  /** Where a line that has been read up to `rest` goes on. */
  lemma LineHead(rest: string, line: string)
    ensures rest == "" || rest[0] == '\n' || (rest[0] == '\r' && |rest| > 1 && rest[1] == '\n') ==>
      line + FirstLine(rest) == line
    ensures rest == "" ==> AfterLine(rest) == ""
    ensures rest != "" && rest[0] == '\n' ==> AfterLine(rest) == rest[1..]
    ensures |rest| > 1 && rest[0] == '\r' && rest[1] == '\n' ==> AfterLine(rest) == rest[2..]
    ensures rest != "" && rest[0] != '\n' && !(rest[0] == '\r' && |rest| > 1 && rest[1] == '\n') ==>
      line + FirstLine(rest) == (line + [rest[0]]) + FirstLine(rest[1..]) && AfterLine(rest) == AfterLine(rest[1..])
  {
  }

  class Parser {
    const input: string
    const merge: Merge
    var pos: nat
    var eof: bool
    var line: string
    var root: Entries
    var current: seq<string>

    ghost predicate Valid()
      reads this
    {
      pos <= |input|
    }

    constructor (input: string, merge: Merge)
      ensures Valid() && this.input == input && this.merge == merge
      ensures pos == 0 && !eof && root == map[] && current == []
    {
      this.input := input;
      this.merge := merge;
      pos, eof, line, root, current := 0, false, "", map[], [];
    }

    /** Reads one line into `line`. The end of input is flagged only by a call that reads nothing. */
    method GetLine()
      requires Valid() && !eof
      modifies this`pos, this`eof, this`line
      ensures Valid()
      ensures line == FirstLine(old(input[pos..])) && input[pos..] == AfterLine(old(input[pos..]))
      ensures eof <==> old(pos) == |input|
      ensures !eof ==> old(pos) < pos
    {
      ghost var start := pos;
      line := "";
      while true
        invariant start <= pos <= |input| && !eof
        invariant FirstLine(input[start..]) == line + FirstLine(input[pos..])
        invariant AfterLine(input[start..]) == AfterLine(input[pos..])
        invariant |line| == pos - start
        decreases |input| - pos
      {
        hide FirstLine, AfterLine;
        ghost var rest := input[pos..];
        LineHead(rest, line);
        if pos == |input| {
          if line == "" { eof := true; }
          return;
        }
        var c := input[pos];
        pos := pos + 1;
        assert rest[1..] == input[pos..];
        if c == '\r' && pos < |input| && input[pos] == '\n' {
          pos := pos + 1;
          assert rest[2..] == input[pos..];
          return;
        }
        if c == '\n' { return; }
        line := line + [c];
      }
    }

    /** Carries out one line. */
    method HandleLine() returns (r: Outcome)
      modifies this`root, this`current
      ensures r == RunLine(State(old(root), old(current)), line, merge)
      ensures r.Parsed? ==> root == r.state.root && current == r.state.current
      ensures !r.Parsed? ==> root == old(root) && current == old(current)
    {
      var parsed := ParseLine(line);
      if parsed.Malformed? { return Rejected; }
      if parsed.NotModelled? { return Unmodelled; }
      match parsed.value {
        case Blank =>
        case Header(path) =>
          var t := OpenAt(root, path, false, merge);
          if t.None? { return Rejected; }
          root, current := t.value, path;
        case Assign(path, value) =>
          var t := AssignAt(root, current + path, value, merge);
          if t.None? { return Rejected; }
          root := t.value;
      }
      return Parsed(State(root, current));
    }

    method Run() returns (r: Outcome)
      requires Valid() && !eof
      modifies this
      ensures r == RunText(State(old(root), old(current)), old(input[pos..]), merge)
    {
      while !eof
        invariant Valid()
        invariant eof ==> pos == |input|
        invariant RunText(State(old(root), old(current)), old(input[pos..]), merge)
          == RunText(State(root, current), input[pos..], merge)
        decreases !eof, |input| - pos
      {
        ghost var rest := input[pos..];
        GetLine();
        if eof { assert rest == "" && line == "" && ParseLine("") == Ok(Blank, ""); }
        var step := HandleLine();
        if !step.Parsed? { return step; }
      }
      return Parsed(State(root, current));
    }
  }
}
