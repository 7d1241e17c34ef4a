/** The simple regular expressions of gtest-port: their grammar, their language, and the matcher. */
module SimpleRegex {
  import opened Wrappers

  /** A C string: null, or its characters before the terminator. */
  type CString = Option<string>

  // ---------- character classes ----------

  predicate IsInSet(ch: char, str: string) { ch in str }

  predicate IsAsciiDigit(ch: char) { '0' <= ch <= '9' }

  predicate IsAsciiPunct(ch: char) { IsInSet(ch, "^-!\"#$%&'()*+,./:;<=>?@[\\]_`{|}~") }

  predicate IsRepeat(ch: char) { ch == '?' || ch == '*' || ch == '+' }

  predicate IsUnsupported(ch: char) {
    ch == '(' || ch == ')' || ch == '[' || ch == ']' || ch == '{' || ch == '}' || ch == '|'
  }

  /** Unescaped, it stands for itself or for any character, and may be repeated. */
  predicate IsRepeatable(ch: char) { ch != '^' && ch != '$' && !IsRepeat(ch) }

  const FORM_FEED: char := 12 as char
  const VERTICAL_TAB: char := 11 as char

  predicate IsAsciiWhiteSpace(ch: char) {
    ch == ' ' || ch == FORM_FEED || ch == '\n' || ch == '\r' || ch == '\t' || ch == VERTICAL_TAB
  }

  predicate IsAsciiWordChar(ch: char) {
    'a' <= ch <= 'z' || 'A' <= ch <= 'Z' || '0' <= ch <= '9' || ch == '_'
  }

  predicate IsValidEscape(c: char) { IsAsciiPunct(c) || IsInSet(c, "dDfnrsStvwW") }

  predicate AtomMatchesChar(escaped: bool, p: char, ch: char) {
    if escaped then
      if p == 'd' then IsAsciiDigit(ch)
      else if p == 'D' then !IsAsciiDigit(ch)
      else if p == 'f' then ch == FORM_FEED
      else if p == 'n' then ch == '\n'
      else if p == 'r' then ch == '\r'
      else if p == 's' then IsAsciiWhiteSpace(ch)
      else if p == 'S' then !IsAsciiWhiteSpace(ch)
      else if p == 't' then ch == '\t'
      else if p == 'v' then ch == VERTICAL_TAB
      else if p == 'w' then IsAsciiWordChar(ch)
      else if p == 'W' then !IsAsciiWordChar(ch)
      else IsAsciiPunct(p) && p == ch
    else (p == '.' && ch != '\n') || p == ch
  }

  // ---------- the grammar ----------

  datatype Atom = Atom(escaped: bool, c: char) {
    predicate Ok() {
      if escaped then IsValidEscape(c) else c != '\\' && IsRepeatable(c) && !IsUnsupported(c)
    }

    predicate Matches(ch: char) { AtomMatchesChar(escaped, c, ch) }

    function Text(): string { if escaped then ['\\', c] else [c] }
  }

  datatype Repeat = Once | Optional | Star | Plus {
    function Text(): string {
      match this case Once => "" case Optional => "?" case Star => "*" case Plus => "+"
    }

    predicate Allows(count: nat) {
      match this case Once => count == 1 case Optional => count <= 1 case Star => true case Plus => count >= 1
    }
  }

  /** What may follow the optional '^': atoms with or without repetition, then possibly '$'. */
  datatype Regex = Done | AtEnd | Then(atom: Atom, repeat: Repeat, rest: Regex) {
    predicate Ok() { Then? ==> atom.Ok() && rest.Ok() }

    function Text(): string {
      match this
      case Done => ""
      case AtEnd => "$"
      case Then(atom, repeat, rest) => atom.Text() + repeat.Text() + rest.Text()
    }

    predicate Anchored() {
      match this case Done => false case AtEnd => true case Then(_, _, rest) => rest.Anchored()
    }
  }

  function RepeatOf(ch: char): (r: Repeat)
    requires IsRepeat(ch)
    ensures r.Text() == [ch] && r != Once
  {
    if ch == '?' then Optional else if ch == '*' then Star else Plus
  }

  function Prepended(atom: Atom, repeat: Repeat, rest: Option<Regex>): Option<Regex> {
    if atom.Ok() && rest.Some? then Some(Then(atom, repeat, rest.value)) else None
  }

  function ParseTail(atom: Atom, s: string): Option<Regex>
    decreases |s|, 1
  {
    if s != "" && IsRepeat(s[0]) then Prepended(atom, RepeatOf(s[0]), Parse(s[1..]))
    else Prepended(atom, Once, Parse(s))
  }

  function Parse(s: string): Option<Regex>
    decreases |s|, 0
  {
    if s == "" then Some(Done)
    else if s == "$" then Some(AtEnd)
    else if s[0] == '\\' then if |s| == 1 then None else ParseTail(Atom(true, s[1]), s[2..])
    else ParseTail(Atom(false, s[0]), s[1..])
  }

  lemma {:induction false} ParseTailSound(atom: Atom, s: string)
    requires ParseTail(atom, s).Some?
    ensures ParseTail(atom, s).value.Ok() && ParseTail(atom, s).value.Text() == atom.Text() + s
    decreases |s|, 1
  {
    hide Atom.Ok, Atom.Text;
    if s != "" && IsRepeat(s[0]) {
      ParseSound(s[1..]);
      assert s == [s[0]] + s[1..];
    } else {
      ParseSound(s);
      assert atom.Text() + "" == atom.Text();
    }
  }

  lemma {:induction false} ParseSound(s: string)
    requires Parse(s).Some?
    ensures Parse(s).value.Ok() && Parse(s).value.Text() == s
    decreases |s|, 0
  {
    hide Atom.Ok;
    if s != "" && s != "$" {
      if s[0] == '\\' {
        ParseTailSound(Atom(true, s[1]), s[2..]);
        assert s == ['\\', s[1]] + s[2..];
      } else {
        ParseTailSound(Atom(false, s[0]), s[1..]);
        assert s == [s[0]] + s[1..];
      }
    }
  }

  lemma TextHead(r: Regex)
    requires r.Ok()
    ensures r.Text() != "" ==> !IsRepeat(r.Text()[0])
    ensures r.Then? ==> r.Text() != "" && r.Text() != "$"
  {
  }

  lemma AtomTextParsed(atom: Atom, tail: string)
    requires atom.Ok()
    ensures Parse(atom.Text() + tail) == ParseTail(atom, tail)
  {
    hide ParseTail;
    var s := atom.Text() + tail;
    if atom.escaped {
      assert s[0] == '\\' && s[1] == atom.c && s[2..] == tail;
    } else {
      assert IsRepeatable(atom.c) && s[0] == atom.c && s[1..] == tail;
    }
  }

  lemma AtomParsed(r: Regex)
    requires r.Ok() && r.Then?
    ensures Parse(r.Text()) == ParseTail(r.atom, r.repeat.Text() + r.rest.Text())
  {
    hide Parse, ParseTail, Atom.Ok, Atom.Text, Repeat.Text;
    var a, b, c := r.atom.Text(), r.repeat.Text(), r.rest.Text();
    assert (a + b) + c == a + (b + c);
    AtomTextParsed(r.atom, b + c);
  }

  lemma TailParsed(r: Regex)
    requires r.Ok() && r.Then? && Parse(r.rest.Text()) == Some(r.rest)
    ensures ParseTail(r.atom, r.repeat.Text() + r.rest.Text()) == Some(r)
  {
    hide Parse, Regex.Text;
    TextHead(r.rest);
    var tail := r.repeat.Text() + r.rest.Text();
    if r.repeat == Once { assert tail == r.rest.Text(); } else { assert tail[1..] == r.rest.Text(); }
  }

  lemma {:induction false} ParseComplete(r: Regex)
    requires r.Ok()
    ensures Parse(r.Text()) == Some(r)
  {
    if r.Then? {
      ParseComplete(r.rest);
      AtomParsed(r);
      TailParsed(r);
    }
  }

  function AfterCaret(s: string): string { if s != "" && s[0] == '^' then s[1..] else s }

  predicate Starts(s: string) { s != "" && s[0] == '^' }

  predicate IsRegex(s: string) { Parse(AfterCaret(s)).Some? }

  function Body(s: string): Regex
    requires IsRegex(s)
  {
    Parse(AfterCaret(s)).value
  }

  /** The valid expressions are exactly those the grammar produces. */
  lemma RegexExactly(s: string)
    ensures IsRegex(s) <==>
      exists r: Regex :: r.Ok() && (s == r.Text() || s == "^" + r.Text())
  {
    if IsRegex(s) {
      ParseSound(AfterCaret(s));
      var r := Body(s);
      assert Starts(s) ==> s == "^" + s[1..];
    }
    if r: Regex :| r.Ok() && (s == r.Text() || s == "^" + r.Text()) {
      ParseComplete(r);
      if s == "^" + r.Text() { assert s[1..] == r.Text(); } else { NoCaret(r); }
    }
  }

  lemma NoCaret(r: Regex)
    requires r.Ok()
    ensures !Starts(r.Text())
  {
  }

  // ---------- validation ----------

  /** What may follow when the previous token can, or cannot, be repeated. */
  predicate Continues(s: string, repeatable: bool) {
    Parse(s).Some? || (repeatable && s != "" && IsRepeat(s[0]) && Parse(s[1..]).Some?)
  }

  lemma RepeatNoAtom(s: string)
    requires s != "" && IsRepeat(s[0])
    ensures Parse(s).None?
  {
    assert s != "$" && s[0] != '\\';
    assert !Atom(false, s[0]).Ok();
    assert Parse(s) == ParseTail(Atom(false, s[0]), s[1..]);
  }

  lemma TailContinues(atom: Atom, tail: string)
    ensures ParseTail(atom, tail).Some? <==> atom.Ok() && Continues(tail, true)
  {
    if tail != "" && IsRepeat(tail[0]) { RepeatNoAtom(tail); }
  }

  lemma ContinuesStep(s: string, repeatable: bool)
    requires s != "" && s[0] != '\\'
    ensures var c := s[0];
      Continues(s, repeatable) <==>
        c != '^' && (c == '$' ==> |s| == 1) && !IsUnsupported(c) && (IsRepeat(c) ==> repeatable)
        && Continues(s[1..], IsRepeatable(c))
  {
    var c := s[0];
    if c == '$' && |s| == 1 {
      assert s == "$" && s[1..] == "";
      assert Parse("") == Some(Done);
    } else {
      assert s != "$";
      assert Parse(s) == ParseTail(Atom(false, c), s[1..]);
      TailContinues(Atom(false, c), s[1..]);
    }
  }

  lemma ContinuesEscape(s: string, repeatable: bool)
    requires |s| > 1 && s[0] == '\\'
    ensures Continues(s, repeatable) <==> IsValidEscape(s[1]) && Continues(s[2..], true)
  {
    assert s != "$";
    assert Parse(s) == ParseTail(Atom(true, s[1]), s[2..]);
    TailContinues(Atom(true, s[1]), s[2..]);
  }

  method ValidateRegex(regex: CString) returns (valid: bool)
    ensures valid <==> regex.Some? && IsRegex(regex.value)
  {
    if regex.None? { return false; }
    var s := regex.value;
    valid := true;
    var prevRepeatable := false;
    var i := 0;
    while i < |s|
      invariant 0 <= i <= |s|
      invariant i == 0 ==> valid && !prevRepeatable
      invariant i > 0 ==> (IsRegex(s) <==> valid && Continues(s[i..], prevRepeatable))
    {
      ghost var rest := s[i..];
      assert i == 0 && !Starts(s) ==> rest == s;
      if s[i] == '\\' {
        i := i + 1;
        if i == |s| {
          assert rest == "\\";
          return false;
        }
        ContinuesEscape(rest, prevRepeatable);
        assert rest[2..] == s[i + 1..];
        if !IsValidEscape(s[i]) { valid := false; }
        prevRepeatable := true;
      } else {
        var ch := s[i];
        ContinuesStep(rest, prevRepeatable);
        assert rest[1..] == s[i + 1..];
        if ch == '^' && i > 0 {
          valid := false;
        } else if ch == '$' && i + 1 < |s| {
          valid := false;
        } else if IsUnsupported(ch) {
          valid := false;
        } else if IsRepeat(ch) && !prevRepeatable {
          valid := false;
        }
        prevRepeatable := IsRepeatable(ch);
      }
      i := i + 1;
    }
  }

  // ---------- the language ----------

  ghost predicate AllMatch(atom: Atom, s: string) {
    forall i :: 0 <= i < |s| ==> atom.Matches(s[i])
  }

  /** `s` as a whole is in the language of `r`. */
  ghost predicate Denotes(r: Regex, s: string)
    decreases r
  {
    match r
    case Done => s == ""
    case AtEnd => s == ""
    case Then(atom, repeat, rest) =>
      exists n: nat :: n <= |s| && Splits(atom, repeat, s, n) && Denotes(rest, s[n..])
  }

  ghost predicate Splits(atom: Atom, repeat: Repeat, s: string, n: nat)
    requires n <= |s|
  {
    repeat.Allows(n) && AllMatch(atom, s[..n])
  }

  /** Some prefix of `s` is in the language; after '$', only all of `s`. */
  ghost predicate HasPrefix(r: Regex, s: string) {
    exists m: nat :: m <= |s| && Ends(r, s, m)
  }

  ghost predicate Ends(r: Regex, s: string, m: nat)
    requires m <= |s|
  {
    Denotes(r, s[..m]) && (r.Anchored() ==> m == |s|)
  }

  /** The first atom takes some `n` characters, and the rest has a prefix after them. */
  lemma PrefixSplits(atom: Atom, repeat: Repeat, rest: Regex, s: string)
    ensures HasPrefix(Then(atom, repeat, rest), s) <==>
      exists n: nat :: n <= |s| && Splits(atom, repeat, s, n) && HasPrefix(rest, s[n..])
  {
    var r := Then(atom, repeat, rest);
    if HasPrefix(r, s) {
      var m: nat :| m <= |s| && Ends(r, s, m);
      var n: nat :| n <= m && Splits(atom, repeat, s[..m], n) && Denotes(rest, s[..m][n..]);
      assert s[..m][..n] == s[..n] && s[..m][n..] == s[n..][..m - n];
      assert Splits(atom, repeat, s, n) && Ends(rest, s[n..], m - n);
    }
    if n: nat :| n <= |s| && Splits(atom, repeat, s, n) && HasPrefix(rest, s[n..]) {
      var k: nat :| k <= |s[n..]| && Ends(rest, s[n..], k);
      var m := n + k;
      assert s[..m][..n] == s[..n] && s[..m][n..] == s[n..][..k];
      assert Splits(atom, repeat, s[..m], n) && Denotes(rest, s[..m][n..]);
      assert Ends(r, s, m);
    }
  }

  lemma PrefixDone(s: string)
    ensures HasPrefix(Done, s) && (HasPrefix(AtEnd, s) <==> s == "")
  {
    assert Ends(Done, s, 0);
    if s == "" { assert Ends(AtEnd, s, 0); }
  }

  lemma PrefixOnce(atom: Atom, rest: Regex, s: string)
    ensures HasPrefix(Then(atom, Once, rest), s) <==> s != "" && atom.Matches(s[0]) && HasPrefix(rest, s[1..])
  {
    PrefixSplits(atom, Once, rest, s);
    if s != "" && atom.Matches(s[0]) && HasPrefix(rest, s[1..]) { assert Splits(atom, Once, s, 1); }
  }

  // ---------- the matcher ----------

  /** No count below `i` lets the atom and the rest match. */
  ghost predicate NoneBelow(atom: Atom, repeat: Repeat, rest: Regex, s: string, i: nat) {
    forall n: nat :: n < i && n <= |s| ==> !(Splits(atom, repeat, s, n) && HasPrefix(rest, s[n..]))
  }

  lemma OneMoreTried(atom: Atom, repeat: Repeat, rest: Regex, s: string, i: nat)
    requires NoneBelow(atom, repeat, rest, s, i)
    requires i <= |s| ==> !(repeat.Allows(i) && HasPrefix(rest, s[i..]))
    ensures NoneBelow(atom, repeat, rest, s, i + 1)
  {
  }

  lemma AllTried(atom: Atom, repeat: Repeat, rest: Regex, s: string, i: nat)
    requires NoneBelow(atom, repeat, rest, s, i)
    requires i > |s| || (repeat == Optional && i > 1) || (i > 0 && !atom.Matches(s[i - 1]))
    ensures !HasPrefix(Then(atom, repeat, rest), s)
  {
    hide HasPrefix;
    PrefixSplits(atom, repeat, rest, s);
    forall n: nat | n <= |s|
      ensures !(Splits(atom, repeat, s, n) && HasPrefix(rest, s[n..]))
    {
      if n >= i && i > 0 && !atom.Matches(s[i - 1]) { assert s[..n][i - 1] == s[i - 1]; }
    }
  }

  lemma TriedMatches(atom: Atom, repeat: Repeat, rest: Regex, s: string, i: nat)
    requires i <= |s| && AllMatch(atom, s[..i]) && repeat.Allows(i) && HasPrefix(rest, s[i..])
    ensures HasPrefix(Then(atom, repeat, rest), s)
  {
    hide HasPrefix;
    PrefixSplits(atom, repeat, rest, s);
    assert Splits(atom, repeat, s, i);
  }

  lemma RepeatsAllowed(repeat: char, n: nat)
    requires IsRepeat(repeat)
    ensures RepeatOf(repeat) == Optional <==> repeat == '?'
    ensures RepeatOf(repeat).Allows(n) <==> (if repeat == '+' then 1 else 0) <= n && (repeat == '?' ==> n <= 1)
  {
  }

  lemma OneMoreMatches(atom: Atom, s: string, i: nat)
    requires i < |s| && AllMatch(atom, s[..i]) && atom.Matches(s[i])
    ensures AllMatch(atom, s[..i + 1])
  {
  }

  const MAX_COUNT: nat := 0xFFFF_FFFF_FFFF_FFFE

  /** Short enough to be indexed by size_t. */
  predicate Indexable(s: string) { |s| < 0xFFFF_FFFF_FFFF_FFFE }

  method MatchRepetitionAndRegexAtHead(escaped: bool, c: char, repeat: char, regex: string,
      str: string) returns (r: bool)
    requires IsRepeat(repeat) && Parse(regex).Some? && Indexable(str)
    ensures r <==> HasPrefix(Then(Atom(escaped, c), RepeatOf(repeat), Parse(regex).value), str)
    decreases |regex|, 1
  {
    ghost var atom, times, rest := Atom(escaped, c), RepeatOf(repeat), Parse(regex).value;
    assert AllMatch(atom, str[..0]) && NoneBelow(atom, times, rest, str, 0);
    hide AllMatch, NoneBelow, HasPrefix, AtomMatchesChar, IsRepeat, RepeatOf, Parse;
    var minCount := if repeat == '+' then 1 else 0;
    var maxCount := if repeat == '?' then 1 else MAX_COUNT;
    var i := 0;
    while i <= maxCount
      invariant 0 <= i <= maxCount + 1 && i <= |str| && AllMatch(atom, str[..i])
      invariant NoneBelow(atom, times, rest, str, i)
    {
      RepeatsAllowed(repeat, i);
      if i >= minCount {
        var matched := MatchRegexAtHead(regex, str[i..]);
        if matched {
          TriedMatches(atom, times, rest, str, i);
          return true;
        }
      }
      OneMoreTried(atom, times, rest, str, i);
      if i == |str| || !AtomMatchesChar(escaped, c, str[i]) {
        AllTried(atom, times, rest, str, i + 1);
        return false;
      }
      OneMoreMatches(atom, str, i);
      i := i + 1;
    }
    RepeatsAllowed(repeat, i);
    AllTried(atom, times, rest, str, i);
    return false;
  }

  method MatchRegexAtHead(regex: string, str: string) returns (r: bool)
    requires Parse(regex).Some? && Indexable(str)
    ensures r <==> HasPrefix(Parse(regex).value, str)
    decreases |regex|, 0
  {
    PrefixDone(str);
    if regex == "" { return true; }
    if regex[0] == '$' { return str == ""; }
    var escaped := regex[0] == '\\';
    var rest := if escaped then regex[1..] else regex;
    assert rest[1..] == if escaped then regex[2..] else regex[1..];
    if |rest| > 1 && IsRepeat(rest[1]) {
      assert rest[2..] == rest[1..][1..];
      r := MatchRepetitionAndRegexAtHead(escaped, rest[0], rest[1], rest[2..], str);
    } else {
      PrefixOnce(Atom(escaped, rest[0]), Parse(rest[1..]).value, str);
      if str == "" || !AtomMatchesChar(escaped, rest[0], str[0]) { return false; }
      r := MatchRegexAtHead(rest[1..], str[1..]);
    }
  }

  /** The expression occurs in `s` from `p`, respecting both anchors. */
  ghost predicate OccursAt(regex: string, s: string, p: nat)
    requires IsRegex(regex) && p <= |s|
  {
    (Starts(regex) ==> p == 0) && HasPrefix(Body(regex), s[p..])
  }

  ghost predicate Occurs(regex: string, s: string)
    requires IsRegex(regex)
  {
    exists p: nat :: p <= |s| && OccursAt(regex, s, p)
  }

  method MatchRegexAnywhere(regex: CString, str: CString) returns (r: bool)
    requires regex.Some? ==> IsRegex(regex.value)
    requires str.Some? ==> Indexable(str.value)
    ensures r <==> regex.Some? && str.Some? && Occurs(regex.value, str.value)
  {
    hide HasPrefix, Parse;
    if regex.None? || str.None? { return false; }
    var re, s := regex.value, str.value;
    if re != "" && re[0] == '^' {
      assert s[0..] == s;
      r := MatchRegexAtHead(re[1..], s);
      assert r ==> OccursAt(re, s, 0);
      return;
    }
    var p := 0;
    while p <= |s|
      invariant 0 <= p <= |s| + 1
      invariant forall q: nat :: q < p ==> !OccursAt(re, s, q)
    {
      r := MatchRegexAtHead(re, s[p..]);
      if r {
        assert OccursAt(re, s, p);
        return;
      }
      p := p + 1;
    }
    return false;
  }

  // ---------- anchoring ----------

  /** Ends in an escaped '$', which the anchoring takes for an anchor. */
  predicate EndsInEscapedDollar(r: Regex) {
    r.Then? && if r.rest.Done? then r.atom == Atom(true, '$') && r.repeat.Once? else EndsInEscapedDollar(r.rest)
  }

  function WithEnd(r: Regex): (e: Regex)
    ensures e.Anchored() && (r.Ok() ==> e.Ok())
  {
    match r
    case Done => AtEnd
    case AtEnd => AtEnd
    case Then(atom, repeat, rest) => Then(atom, repeat, WithEnd(rest))
  }

  lemma {:induction false} WithEndText(r: Regex)
    requires !r.Anchored()
    ensures WithEnd(r).Text() == r.Text() + "$"
  {
    if r.Then? {
      WithEndText(r.rest);
    }
  }

  lemma {:induction false} AnchoredWithEnd(r: Regex)
    requires r.Anchored()
    ensures WithEnd(r) == r
  {
    if r.Then? { AnchoredWithEnd(r.rest); }
  }

  lemma {:induction false} WithEndDenotes(r: Regex, s: string)
    ensures Denotes(WithEnd(r), s) <==> Denotes(r, s)
    decreases r
  {
    if r.Then? {
      forall n: nat | n <= |s|
        ensures Denotes(WithEnd(r.rest), s[n..]) <==> Denotes(r.rest, s[n..])
      {
        WithEndDenotes(r.rest, s[n..]);
      }
    }
  }

  lemma {:induction false} LastDollar(r: Regex)
    requires r.Ok()
    ensures EndsInDollar(r.Text()) <==> r.Anchored() || EndsInEscapedDollar(r)
  {
    if r.Then? {
      LastDollar(r.rest);
      if r.rest.Done? {
        assert r.Text() == r.atom.Text() + r.repeat.Text();
      } else {
        TextHead(r.rest);
      }
    }
  }

  lemma WholeIsPrefix(r: Regex, s: string)
    requires r.Anchored()
    ensures HasPrefix(r, s) <==> Denotes(r, s)
  {
    assert s[..|s|] == s;
    if Denotes(r, s) { assert Ends(r, s, |s|); }
  }

  predicate EndsInDollar(s: string) { s != "" && s[|s| - 1] == '$' }

  /** The pattern that a full match is done with. */
  function FullPattern(s: string): string {
    (if Starts(s) then s else "^" + s) + (if EndsInDollar(s) then "" else "$")
  }

  lemma FullPatternText(s: string)
    ensures Starts(FullPattern(s))
    ensures AfterCaret(FullPattern(s)) == AfterCaret(s) + if EndsInDollar(AfterCaret(s)) then "" else "$"
  {
    assert EndsInDollar(AfterCaret(s)) <==> EndsInDollar(s);
  }

  /** An expression with a dollar at the end, unless it has one. */
  lemma AnchoredText(r: Regex)
    requires r.Ok()
    ensures Parse(r.Text() + if EndsInDollar(r.Text()) then "" else "$")
      == Some(if EndsInEscapedDollar(r) then r else WithEnd(r))
  {
    hide Parse, Regex.Text;
    LastDollar(r);
    assert r.Text() + "" == r.Text();
    if r.Anchored() {
      AnchoredWithEnd(r);
      NotBoth(r);
      ParseComplete(r);
    } else if EndsInEscapedDollar(r) {
      ParseComplete(r);
    } else {
      WithEndText(r);
      ParseComplete(WithEnd(r));
    }
  }

  lemma FullPatternBody(s: string)
    requires IsRegex(s)
    ensures IsRegex(FullPattern(s)) && Starts(FullPattern(s))
    ensures Body(FullPattern(s)) == if EndsInEscapedDollar(Body(s)) then Body(s) else WithEnd(Body(s))
  {
    hide Parse, Regex.Text, AfterCaret, FullPattern, EndsInDollar;
    ParseSound(AfterCaret(s));
    AnchoredText(Body(s));
    FullPatternText(s);
  }

  lemma {:induction false} NotBoth(r: Regex)
    requires r.Anchored()
    ensures !EndsInEscapedDollar(r)
  {
    if r.Then? { NotBoth(r.rest); }
  }

  /** What a full match decides: the whole string is in the language, or, after an escaped '$' at
      the end, only some prefix of it. */
  lemma FullMatchMeans(regex: string, s: string)
    requires IsRegex(regex)
    ensures IsRegex(FullPattern(regex))
    ensures Occurs(FullPattern(regex), s) <==>
      if EndsInEscapedDollar(Body(regex)) then HasPrefix(Body(regex), s) else Denotes(Body(regex), s)
  {
    FullPatternBody(regex);
    var full := FullPattern(regex);
    assert s[0..] == s;
    assert Occurs(full, s) <==> OccursAt(full, s, 0);
    if !EndsInEscapedDollar(Body(regex)) {
      WholeIsPrefix(WithEnd(Body(regex)), s);
      WithEndDenotes(Body(regex), s);
    }
  }

  // ---------- a compiled expression ----------

  class RE {
    var pattern: CString
    var fullPattern: CString
    var isValid: bool

    ghost predicate Valid()
      reads this
    {
      isValid ==> pattern.Some? && IsRegex(pattern.value) && fullPattern == Some(FullPattern(pattern.value))
    }

    constructor (regex: CString)
      ensures Valid() && pattern == regex && (isValid <==> regex.Some? && IsRegex(regex.value))
    {
      pattern, fullPattern := regex, None;
      var ok := ValidateRegex(regex);
      isValid := ok;
      if ok {
        var s := regex.value;
        var buffer := "";
        if s == "" || s[0] != '^' { buffer := buffer + "^"; }
        buffer := buffer + s;
        assert buffer == if Starts(s) then s else "^" + s;
        if s == "" || s[|s| - 1] != '$' { buffer := buffer + "$"; }
        assert buffer == FullPattern(s);
        fullPattern := Some(buffer);
      }
    }

    /** Whole-string membership in the language, except after an escaped '$' at the end. */
    static method FullMatch(str: string, re: RE) returns (r: bool)
      requires re.Valid() && Indexable(str)
      ensures r ==> re.isValid
      ensures re.isValid && !EndsInEscapedDollar(Body(re.pattern.value)) ==>
        (r <==> Denotes(Body(re.pattern.value), str))
      ensures re.isValid && EndsInEscapedDollar(Body(re.pattern.value)) ==>
        (r <==> HasPrefix(Body(re.pattern.value), str))
    {
      if !re.isValid { return false; }
      FullMatchMeans(re.pattern.value, str);
      r := MatchRegexAnywhere(re.fullPattern, Some(str));
    }

    static method PartialMatch(str: string, re: RE) returns (r: bool)
      requires re.Valid() && Indexable(str)
      ensures r <==> re.isValid && Occurs(re.pattern.value, str)
    {
      if !re.isValid { return false; }
      r := MatchRegexAnywhere(re.pattern, Some(str));
    }
  }

  // ---------- full matching is exact if and only if no escaped '$' is last ----------

  function SampleChar(a: Atom): (ch: char)
    requires a.Ok()
    ensures a.Matches(ch)
  {
    if !a.escaped then a.c
    else if a.c == 'd' then '0'
    else if a.c == 'W' || a.c == 's' then ' '
    else if a.c == 'D' || a.c == 'S' || a.c == 'w' then 'a'
    else if a.c == 'f' then FORM_FEED
    else if a.c == 'n' then '\n'
    else if a.c == 'r' then '\r'
    else if a.c == 't' then '\t'
    else if a.c == 'v' then VERTICAL_TAB
    else a.c
  }

  /** A member of the language. */
  function Sample(r: Regex): (s: string)
    requires r.Ok()
    ensures Denotes(r, s)
    decreases r
  {
    match r
    case Done => ""
    case AtEnd => ""
    case Then(atom, repeat, rest) =>
      var s := [SampleChar(atom)] + Sample(rest);
      assert s[..1] == [SampleChar(atom)] && s[1..] == Sample(rest);
      assert Splits(atom, repeat, s, 1);
      s
  }

  lemma {:induction false} DollarLast(r: Regex, s: string)
    requires EndsInEscapedDollar(r) && Denotes(r, s)
    ensures s != "" && s[|s| - 1] == '$'
    decreases r
  {
    var n: nat :| n <= |s| && Splits(r.atom, r.repeat, s, n) && Denotes(r.rest, s[n..]);
    if r.rest.Done? {
      assert s[..1][0] == s[0];
    } else {
      DollarLast(r.rest, s[n..]);
    }
  }

  /** A full match decides membership of every string if and only if the pattern does not end in
      an escaped '$'. */
  lemma FullMatchExactly(regex: string)
    requires IsRegex(regex)
    ensures IsRegex(FullPattern(regex))
    ensures (forall s: string :: Occurs(FullPattern(regex), s) <==> Denotes(Body(regex), s))
      <==> !EndsInEscapedDollar(Body(regex))
  {
    var r := Body(regex);
    FullPatternBody(regex);
    if EndsInEscapedDollar(r) {
      ParseSound(AfterCaret(regex));
      var sample := Sample(r);
      var longer := sample + "x";
      assert longer[..|sample|] == sample;
      if r.Anchored() { NotBoth(r); }
      assert Ends(r, longer, |sample|);
      FullMatchMeans(regex, longer);
      if Denotes(r, longer) { DollarLast(r, longer); }
    } else {
      forall s: string
        ensures Occurs(FullPattern(regex), s) <==> Denotes(r, s)
      {
        FullMatchMeans(regex, s);
      }
    }
  }
}
