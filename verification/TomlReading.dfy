/** What the parser makes of each kind of line the writer produces. */
module TomlReading {
  import opened Wrappers
  import opened TomlText
  import opened TomlTree
  import opened TomlParser
  import opened TomlWriter

  // ---------- keys ----------

  lemma {:induction false} BareSpanConcat(k: string, rest: string)
    requires Bare(k)
    ensures BareSpan(k + rest) == |k| + BareSpan(rest)
  {
    if k == "" {
      assert k + rest == rest;
    } else {
      assert (k + rest)[1..] == k[1..] + rest;
      BareSpanConcat(k[1..], rest);
    }
  }

  lemma GapSpan(gap: string, rest: string)
    requires (gap == "" || gap == " ") && (rest == "" || EndsBareKey(rest[0]))
    ensures BareSpan(gap + rest) == |gap|
  {
    if gap == " " { assert (gap + rest)[1..] == rest; } else { assert gap + rest == rest; }
  }

  lemma GapTrimmed(k: string, gap: string)
    requires Bare(k) && k != "" && (gap == "" || gap == " ")
    ensures TrimEnd(k + gap) == k && BareKeyChars(k)
  {
    assert BareChar(k[|k| - 1]) && !IsBlank(k[|k| - 1]);
    if gap == " " { assert (k + gap)[..|k|] == k; } else { assert k + gap == k; }
  }

  lemma KeyCut(k: string, gap: string, rest: string)
    ensures k + gap + rest == k + (gap + rest)
    ensures (k + gap + rest)[..|k| + |gap|] == k + gap && (k + gap + rest)[|k| + |gap|..] == rest
  {
  }

  lemma BareKeyRead(k: string, gap: string, rest: string)
    requires Bare(k) && k != "" && (gap == "" || gap == " ") && (rest == "" || EndsBareKey(rest[0]))
    ensures BareKey(k + gap + rest) == Ok(k, rest)
  {
    hide BareSpan, TrimEnd, BareKeyChars, Bare, EndsBareKey;
    KeyCut(k, gap, rest);
    BareSpanConcat(k, gap + rest);
    GapSpan(gap, rest);
    GapTrimmed(k, gap);
  }

  lemma QuotedRead(k: string, rest: string)
    ensures Quoted(k) + rest != "" && (Quoted(k) + rest)[0] == QUOTE
    ensures Literal((Quoted(k) + rest)[1..], QUOTE) ==
      if Reread(k).Some? then Ok(Reread(k).value, SkipBlanks(rest)) else Malformed
  {
    assert (Quoted(k) + rest)[1..] == Escape(k) + [QUOTE] + rest;
    RereadBefore(k, rest);
  }

  lemma KeyTextHead(k: string)
    ensures KeyText(k) == "" <==> k == ""
    ensures k != "" ==> KeyText(k)[0] == QUOTE || BareChar(KeyText(k)[0])
  {
  }

  lemma GapSkipped(gap: string, rest: string)
    requires (gap == "" || gap == " ") && rest != "" && EndsBareKey(rest[0])
    ensures SkipBlanks(gap + rest) == rest && SkipBlanks(rest) == rest
  {
    if gap == " " { assert (gap + rest)[1..] == rest; } else { assert gap + rest == rest; }
  }

  lemma SimpleKeyIsBare(s: string)
    requires s != "" && BareChar(s[0])
    ensures SimpleKey(s) == BareKey(s)
  {
    assert SkipBlanks(s) == s;
  }

  lemma SimpleKeyIsQuoted(s: string)
    requires s != "" && s[0] == QUOTE
    ensures SimpleKey(s) == Literal(s[1..], QUOTE)
  {
    assert SkipBlanks(s) == s;
  }

  lemma KeyReadBare(k: string, gap: string, rest: string)
    requires Bare(k) && k != "" && (gap == "" || gap == " ") && rest != "" && EndsBareKey(rest[0])
    ensures SimpleKey(k + gap + rest) == Ok(k, rest)
  {
    BareKeyRead(k, gap, rest);
    SimpleKeyIsBare(k + gap + rest);
  }

  /** What a written key is read as. */
  function RereadKey(k: string): Option<string> {
    if k == "" then None else Reread(k)
  }

  lemma BareIsClean(k: string)
    requires Bare(k)
    ensures Clean(k) && Reread(k) == Some(k)
  {
    CleanReread(k);
  }

  lemma KeyReadQuoted(k: string, gap: string, rest: string)
    requires (gap == "" || gap == " ") && rest != "" && EndsBareKey(rest[0])
    ensures SimpleKey(Quoted(k) + gap + rest) == if Reread(k).Some? then Ok(Reread(k).value, rest) else Malformed
  {
    hide Reread, Quoted, SkipBlanks, SimpleKey;
    var s := Quoted(k) + (gap + rest);
    assert Quoted(k) + gap + rest == s;
    QuotedRead(k, gap + rest);
    GapSkipped(gap, rest);
    SimpleKeyIsQuoted(s);
  }

  /** A written key, before a separator that may be one blank away. */
  lemma KeyRead(k: string, gap: string, rest: string)
    requires k != "" && (gap == "" || gap == " ") && rest != "" && EndsBareKey(rest[0])
    ensures SimpleKey(KeyText(k) + gap + rest) ==
      if RereadKey(k).Some? then Ok(RereadKey(k).value, rest) else Malformed
  {
    if Bare(k) {
      BareIsClean(k);
      KeyReadBare(k, gap, rest);
    } else {
      KeyReadQuoted(k, gap, rest);
    }
  }

  lemma EmptyBetween(a: string, b: string)
    ensures a + "" + b == a + b
  {
  }

  lemma KeyReadTight(k: string, rest: string)
    requires k != "" && rest != "" && EndsBareKey(rest[0])
    ensures SimpleKey(KeyText(k) + rest) == if RereadKey(k).Some? then Ok(RereadKey(k).value, rest) else Malformed
  {
    EmptyBetween(KeyText(k), rest);
    KeyRead(k, "", rest);
  }

  lemma KeyLast(s: string, end: char, part: Parsed<string>)
    requires s != "" && s[0] != end && SimpleKey(s) == part && !IsBlank(end)
    requires part.Ok? ==> part.rest != "" && part.rest[0] == end
    ensures Key(s, end) ==
      match part case Ok(k, rest) => Ok([k], rest) case Malformed => Malformed case NotModelled => NotModelled
  {
    if part.Ok? { assert SkipBlanks(part.rest) == part.rest; }
  }

  lemma KeyMore(s: string, end: char, part: string, more: string)
    requires s != "" && s[0] != end && end != '.' && SimpleKey(s) == Ok(part, "." + more)
    ensures Key(s, end) ==
      match Key(more, end)
      case Ok(path, rest) => Ok([part] + path, rest)
      case Malformed => Malformed
      case NotModelled => NotModelled
  {
    assert ("." + more)[1..] == more;
  }

  lemma KeyRefused(s: string, end: char)
    requires s != "" && s[0] != end && SimpleKey(s) == Malformed
    ensures Key(s, end) == Malformed
  {
  }

  /** A part without any text. */
  lemma NoKey(s: string, end: char)
    requires s != "" && EndsBareKey(s[0])
    ensures Key(s, end) == Malformed
  {
    if s[0] != end { assert SkipBlanks(s) == s && BareSpan(s) == 0; }
  }

  lemma PathTextOne(k: string)
    ensures PathText([k]) == KeyText(k)
  {
    assert [k][..0] == [] && PathText([k]) == "" + "" + KeyText(k);
  }

  lemma {:induction false} PathTextHead(path: seq<string>)
    requires |path| > 1
    ensures PathText(path) == KeyText(path[0]) + ("." + PathText(path[1..]))
  {
    hide PathText, KeyText;
    var last := |path| - 1;
    PathTextTail(path);
    if last == 1 {
      assert path[..1] == [path[0]] && path[1..] == [path[1]];
      PathTextOne(path[0]);
      PathTextOne(path[1]);
      Reassociated(KeyText(path[0]), ".", KeyText(path[1]));
    } else {
      PathTextHead(path[..last]);
      assert path[..last][1..] == path[1..][..last - 1];
      PathTextTail(path[1..]);
      Regroup3(KeyText(path[0]), ".", PathText(path[1..][..last - 1]), ".", KeyText(path[last]));
    }
  }

  lemma Reassociated(a: string, b: string, c: string)
    ensures (a + b) + c == a + (b + c)
  {
  }

  lemma PathTextTail(path: seq<string>)
    requires |path| > 1
    ensures PathText(path) == PathText(path[..|path| - 1]) + "." + KeyText(path[|path| - 1])
  {
  }

  lemma Regroup3(a: string, b: string, c: string, d: string, e: string)
    ensures (a + (b + c)) + d + e == a + (b + (c + d + e))
  {
  }

  ghost predicate CleanPath(path: seq<string>) {
    forall i :: 0 <= i < |path| ==> path[i] != "" && Clean(path[i])
  }

  /** What a written path is read as. */
  function RereadPath(path: seq<string>): (r: Option<seq<string>>)
    ensures r.Some? ==> |r.value| == |path|
  {
    if path == [] then Some([])
    else
      var k, rest := RereadKey(path[0]), RereadPath(path[1..]);
      if k.Some? && rest.Some? then Some([k.value] + rest.value) else None
  }

  lemma PathOfOne(k: string)
    ensures RereadPath([k]) == if RereadKey(k).Some? then Some([RereadKey(k).value]) else None
  {
    assert [k][1..] == [] && RereadPath([]) == Some([]);
    if RereadKey(k).Some? { assert [RereadKey(k).value] + [] == [RereadKey(k).value]; }
  }

  lemma PathReadOne(k: string)
    ensures PathText([k]) == KeyText(k)
    ensures Key(KeyText(k) + "]", ']') == if RereadKey(k).Some? then Ok([RereadKey(k).value], "]") else Malformed
  {
    assert [k][..0] == [] && PathText([k]) == "" + "" + KeyText(k);
    KeyTextHead(k);
    if k == "" {
      assert KeyText(k) + "]" == "]";
      NoKey("]", ']');
    } else {
      KeyReadTight(k, "]");
      KeyLast(KeyText(k) + "]", ']', SimpleKey(KeyText(k) + "]"));
    }
  }

  lemma PathReadMore(k: string, rest: string)
    ensures Key(KeyText(k) + ("." + rest), ']') ==
      if RereadKey(k).None? then Malformed
      else match Key(rest, ']')
        case Ok(path, end) => Ok([RereadKey(k).value] + path, end)
        case Malformed => Malformed
        case NotModelled => NotModelled
  {
    KeyTextHead(k);
    var s := KeyText(k) + ("." + rest);
    if k == "" {
      assert s == "." + rest;
      NoKey(s, ']');
    } else {
      KeyReadTight(k, "." + rest);
      if RereadKey(k).Some? { KeyMore(s, ']', RereadKey(k).value, rest); } else { KeyRefused(s, ']'); }
    }
  }

  lemma PathTextSplit(path: seq<string>)
    requires |path| > 1
    ensures PathText(path) + "]" == KeyText(path[0]) + ("." + (PathText(path[1..]) + "]"))
  {
    PathTextHead(path);
    Reassociate(KeyText(path[0]), ".", PathText(path[1..]), "]");
  }

  lemma PathTextStarts(path: seq<string>)
    requires path != []
    ensures (PathText(path) + "]")[0] != '['
  {
    KeyTextHead(path[0]);
    if |path| == 1 {
      assert path == [path[0]];
      PathReadOne(path[0]);
    } else {
      PathTextSplit(path);
    }
  }

  lemma Reassociate(a: string, b: string, c: string, d: string)
    ensures (a + (b + c)) + d == a + (b + (c + d))
  {
  }

  lemma {:induction false} PathRead(path: seq<string>)
    requires path != []
    ensures Key(PathText(path) + "]", ']') ==
      if RereadPath(path).Some? then Ok(RereadPath(path).value, "]") else Malformed
    decreases |path|
  {
    if |path| == 1 {
      assert path == [path[0]];
      PathOfOne(path[0]);
      PathReadOne(path[0]);
    } else {
      PathTextSplit(path);
      PathRead(path[1..]);
      PathReadMore(path[0], PathText(path[1..]) + "]");
    }
  }

  // ---------- values ----------

  ghost predicate GoodValue(v: Value) {
    match v
    case Str(s) => Clean(s)
    case Bool(_) => true
    case Int(n) => IsInt64(n)
  }

  lemma {:induction false} NatTextDigits(n: nat)
    ensures NatText(n) != "" && AllDigits(NatText(n)) && Decimal(NatText(n)) == n
    ensures n > 0 ==> NatText(n)[0] != '0'
    ensures n == 0 ==> NatText(n) == "0"
  {
    if n >= 10 {
      NatTextDigits(n / 10);
      var init := NatText(n / 10);
      assert NatText(n)[..|init|] == init;
      assert DigitValue(DigitChar(n % 10)) == n % 10;
    } else {
      assert [DigitChar(n)][..0] == "";
      assert Decimal([DigitChar(n)]) == Decimal("") * 10 + DigitValue(DigitChar(n));
    }
  }

  lemma {:induction false} DigitsEaten(s: string)
    requires s != "" && AllDigits(s)
    ensures EatDigits(s) == Ok(s, "") && DigitSpan(s) == |s|
  {
    if |s| == 1 {
      assert s[1..] == "" && s == [s[0]];
    } else {
      DigitsEaten(s[1..]);
      assert s == [s[0]] + s[1..];
    }
  }

  /** What a written value is read as. */
  function RereadValue(v: Value): Option<Value> {
    match v
    case Str(s) => if Reread(s).Some? then Some(Str(Reread(s).value)) else None
    case Bool(_) => Some(v)
    case Int(n) => if IsInt64(n) then Some(v) else None
  }

  lemma UnsignedRead(s: string, t: string, m: int)
    requires s != "" && AfterSign(s) == t && t != "" && AllDigits(t) && (s == t || s[0] == '-')
    requires Decimal(t) == m && (t[0] == '0' ==> |t| == 1)
    ensures var n := if s[0] == '-' then -m else m;
      Number(s) == if IsInt64(n) then Ok(Int(n), "") else Malformed
  {
    DigitsEaten(t);
    assert |s| > 1 && s == t ==> IsDigit(s[1]);
  }

  lemma NumberShape(s: string)
    requires s != "" && (IsDigit(s[0]) || s[0] == '-') && AllDigits(s[1..])
    ensures StartsNumber(s) && !IsTime(s) && !IsDate(s) && !IsBlank(s[0]) && s[0] != QUOTE && s[0] != '\''
  {
    assert forall i :: 1 <= i < |s| ==> s[i] == s[1..][i - 1];
  }

  lemma NumberRead(n: int)
    ensures ParseValue(IntText(n)) == if IsInt64(n) then Ok(Int(n), "") else Malformed
    ensures !IsBlank(IntText(n)[0])
  {
    var m: nat := if n < 0 then -n else n;
    var t, s := NatText(m), IntText(n);
    NatTextDigits(m);
    if n < 0 {
      assert s[1..] == t;
    } else {
      assert forall i :: 0 <= i < |s[1..]| ==> s[1..][i] == s[i + 1];
    }
    UnsignedRead(s, t, m);
    NumberShape(s);
  }

  lemma BoolRead(b: bool)
    ensures ParseValue(ValueText(Bool(b))) == Ok(Bool(b), "") && !IsBlank(ValueText(Bool(b))[0])
  {
    var s := ValueText(Bool(b));
    assert s[|s|..] == "";
    assert TimeSpan(s) < 8;
  }

  lemma ValueRead(v: Value)
    ensures ParseValue(ValueText(v)) == if RereadValue(v).Some? then Ok(RereadValue(v).value, "") else Malformed
    ensures SkipBlanks(" " + ValueText(v)) == ValueText(v)
  {
    hide ParseValue, IsInt64, Reread;
    var s := ValueText(v);
    match v {
      case Str(text) => StringRead(text);
      case Bool(b) => BoolRead(b);
      case Int(n) => NumberRead(n);
    }
    assert (" " + s)[1..] == s;
  }

  lemma StringRead(text: string)
    ensures ParseValue(Quoted(text)) == if Reread(text).Some? then Ok(Str(Reread(text).value), "") else Malformed
    ensures !IsBlank(Quoted(text)[0])
  {
    var s := Quoted(text);
    QuotedRead(text, "");
    assert s + "" == s;
    if |s| > 2 {
      EscapeHead(text);
      assert s[1] == EscapeChar(text[0])[0] != QUOTE;
    }
  }

  // ---------- lines ----------

  lemma {:induction false} TabsSkipped(n: nat, rest: string)
    ensures SkipBlanks(Tabs(n) + rest) == SkipBlanks(rest)
  {
    if n == 0 {
      assert Tabs(0) + rest == rest;
    } else {
      assert (Tabs(n) + rest)[1..] == Tabs(n - 1) + rest;
      TabsSkipped(n - 1, rest);
    }
  }

  /** What a written line is read as. */
  function RereadLine(line: Line): (r: Option<Line>)
    ensures r.Some? && r.value.Assign? ==> line.Assign? && |r.value.path| == |line.path|
  {
    match line
    case Blank => Some(Blank)
    case Header(path) => if RereadPath(path).Some? then Some(Header(RereadPath(path).value)) else None
    case Assign(path, v) =>
      if RereadPath(path).Some? && RereadValue(v).Some?
      then Some(Assign(RereadPath(path).value, RereadValue(v).value)) else None
  }

  function AsParsed(line: Option<Line>): Parsed<Line> {
    if line.Some? then Ok(line.value, "") else Malformed
  }

  lemma AssignParsed(s: string, key: Option<string>, value: string, v: Option<Value>)
    requires Key(s, '=') == if key.Some? then Ok([key.value], "= " + value) else Malformed
    requires SkipBlanks(" " + value) == value
    requires ParseValue(value) == if v.Some? then Ok(v.value, "") else Malformed
    ensures ParseAssign(s) ==
      if key.Some? && v.Some? then Ok(Assign([key.value], v.value), "") else Malformed
  {
    assert ("= " + value)[1..] == " " + value;
  }

  lemma LineIsAssign(line: string, s: string)
    requires s != "" && (s[0] == '=' || s[0] == QUOTE || BareChar(s[0])) && SkipBlanks(line) == s
    ensures ParseLine(line) == ParseAssign(s)
  {
  }

  lemma ItemKeyRead(k: string, value: string)
    ensures var s := KeyText(k) + " = " + value;
      Key(SkipBlanks(s), '=') == if RereadKey(k).Some? then Ok([RereadKey(k).value], "= " + value) else Malformed
    ensures var s := SkipBlanks(KeyText(k) + " = " + value);
      s != "" && (s[0] == '=' || s[0] == QUOTE || BareChar(s[0]))
  {
    var s := KeyText(k) + " = " + value;
    KeyTextHead(k);
    if k == "" {
      assert s[1..] == "= " + value && SkipBlanks(s) == "= " + value;
      NoKey("= " + value, '=');
    } else {
      assert s == KeyText(k) + " " + ("= " + value) && SkipBlanks(s) == s;
      KeyRead(k, " ", "= " + value);
      KeyLast(s, '=', SimpleKey(s));
    }
  }

  lemma AssignRead(n: nat, k: string, v: Value)
    ensures ParseLine(Tabs(n) + (KeyText(k) + " = " + ValueText(v))) == AsParsed(RereadLine(Assign([k], v)))
  {
    var value := ValueText(v);
    var s := KeyText(k) + " = " + value;
    ItemKeyRead(k, value);
    PathOfOne(k);
    TabsSkipped(n, s);
    ValueRead(v);
    AssignParsed(SkipBlanks(s), RereadKey(k), value, RereadValue(v));
    LineIsAssign(Tabs(n) + s, SkipBlanks(s));
  }

  lemma {:induction false} RereadNotEmpty(path: seq<string>)
    requires RereadPath(path).Some?
    ensures "" !in RereadPath(path).value
  {
    if path != [] {
      RereadLighter(path[0]);
      RereadNotEmpty(path[1..]);
    }
  }

  lemma HeaderParsed(s: string, path: Option<seq<string>>)
    requires s != "" && s[0] != '[' && Key(s, ']') == if path.Some? then Ok(path.value, "]") else Malformed
    requires path.Some? ==> "" !in path.value
    ensures ParseHeader(s) == if path.Some? then Ok(Header(path.value), "") else Malformed
  {
    assert "]"[1..] == "";
  }

  lemma LineIsHeader(line: string, inner: string)
    requires line == "[" + inner
    ensures ParseLine(line) == ParseHeader(inner)
  {
    assert line[1..] == inner;
    assert SkipBlanks(line) == line;
  }

  lemma HeaderRead(path: seq<string>)
    requires path != []
    ensures ParseLine("[" + PathText(path) + "]") == AsParsed(RereadLine(Header(path)))
  {
    var s := "[" + PathText(path) + "]";
    PathRead(path);
    PathTextStarts(path);
    if RereadPath(path).Some? { RereadNotEmpty(path); }
    var inner := PathText(path) + "]";
    HeaderParsed(inner, RereadPath(path));
    LineIsHeader(s, inner);
  }

  // ---------- what is read as it was ----------

  lemma CleanKeyRead(k: string)
    requires k != "" && Clean(k)
    ensures RereadKey(k) == Some(k)
  {
    CleanReread(k);
  }

  lemma {:induction false} CleanPathRead(path: seq<string>)
    requires CleanPath(path)
    ensures RereadPath(path) == Some(path)
  {
    if path != [] {
      CleanKeyRead(path[0]);
      CleanPathRead(path[1..]);
      assert [path[0]] + path[1..] == path;
    }
  }

  lemma GoodValueRead(v: Value)
    ensures RereadValue(v) == Some(v) <==> GoodValue(v)
  {
    if v.Str? {
      if Clean(v.text) { CleanReread(v.text); } else if Reread(v.text).Some? { RereadLighter(v.text); }
    }
  }

  lemma TabsBlank(n: nat)
    ensures ParseLine(Tabs(n)) == Ok(Blank, "")
  {
    TabsSkipped(n, "");
    assert Tabs(n) + "" == Tabs(n);
  }
}
