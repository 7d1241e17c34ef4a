/** What a simple regular expression means, told from its text alone: which characters an atom stands for,
    by code point, and how the language of an expression follows from its first atom and the rest. */
module SimpleRegexLanguage {
  import opened Wrappers
  import opened Sequences
  import opened SimpleRegex

  /** The string is in the language of the expression, which has no '^' in front. */
  ghost predicate In(p: string, s: string) {
    Parse(p).Some? && Denotes(Parse(p).value, s)
  }

  /** The texts of atoms. */
  predicate AtomText(a: string) {
    || (|a| == 1 && a[0] !in "\\^$?*+()[]{}|")
    || (|a| == 2 && a[0] == '\\' && (a[1] in "dDfnrsStvwW" || Punctuation(a[1] as int)))
  }

  predicate Punctuation(code: int) {
    33 <= code <= 47 || 58 <= code <= 64 || 91 <= code <= 96 || 123 <= code <= 126
  }

  predicate Digit(code: int) { 48 <= code <= 57 }

  predicate Space(code: int) { 9 <= code <= 13 || code == 32 }

  predicate Word(code: int) { 48 <= code <= 57 || 65 <= code <= 90 || code == 95 || 97 <= code <= 122 }

  /** The code points that an atom stands for. */
  predicate Covers(a: string, code: int)
    requires AtomText(a)
  {
    if a == "." then code != 10
    else if |a| == 1 then code == a[0] as int
    else match a[1]
      case 'd' => Digit(code)
      case 'D' => !Digit(code)
      case 's' => Space(code)
      case 'S' => !Space(code)
      case 'w' => Word(code)
      case 'W' => !Word(code)
      case 't' => code == 9
      case 'n' => code == 10
      case 'v' => code == 11
      case 'f' => code == 12
      case 'r' => code == 13
      case c => code == c as int
  }

  function AtomOf(a: string): Atom
    requires AtomText(a)
  {
    if |a| == 1 then Atom(false, a[0]) else Atom(true, a[1])
  }

  lemma PunctuationCodes(c: char)
    ensures IsAsciiPunct(c) <==> Punctuation(c as int)
  {
    if Punctuation(c as int) {
      var s := "^-!\"#$%&'()*+,./:;<=>?@[\\]_`{|}~";
      assert s[2] == '!' && s[3] == '\"' && s[4] == '#' && s[5] == '$' && s[6] == '%' && s[7] == '&';
    }
  }

  lemma AtomTextExactly(a: string)
    ensures AtomText(a) <==> exists atom: Atom :: atom.Ok() && a == atom.Text()
    ensures AtomText(a) ==> AtomOf(a).Ok() && AtomOf(a).Text() == a
  {
    if |a| == 2 { PunctuationCodes(a[1]); }
    if AtomText(a) {
      assert AtomOf(a).Ok() && AtomOf(a).Text() == a;
    } else if atom: Atom :| atom.Ok() && a == atom.Text() {
      PunctuationCodes(atom.c);
    }
  }

  lemma CoversExactly(a: string, ch: char)
    requires AtomText(a)
    ensures AtomOf(a).Matches(ch) <==> Covers(a, ch as int)
  {
    if |a| == 2 { PunctuationCodes(a[1]); }
  }

  // ---------- the shape of expressions ----------

  predicate Quantifier(q: string) { q == "" || q == "?" || q == "*" || q == "+" }

  function RepeatFor(q: string): Repeat {
    if q == "?" then Optional else if q == "*" then Star else if q == "+" then Plus else Once
  }

  lemma ParsedStart(t: string)
    requires Parse(t).Some?
    ensures t != "" ==> !IsRepeat(t[0])
  {
    if t != "" && IsRepeat(t[0]) { RepeatNoAtom(t); }
  }

  lemma ParsedTail(atom: Atom, q: string, t: string)
    requires atom.Ok() && Quantifier(q) && Parse(t).Some? && (t != "" ==> !IsRepeat(t[0]))
    ensures ParseTail(atom, q + t) == Some(Then(atom, RepeatFor(q), Parse(t).value))
  {
    hide Parse;
    if q == "" { assert q + t == t; } else { assert (q + t)[1..] == t; }
  }

  /** An atom, its quantifier and an expression after it. */
  lemma ParsedFront(a: string, q: string, t: string)
    requires AtomText(a) && Quantifier(q) && Parse(t).Some?
    ensures Parse(a + q + t) == Some(Then(AtomOf(a), RepeatFor(q), Parse(t).value))
  {
    hide Parse, ParseTail, AtomText, RepeatFor, Quantifier;
    AtomTextExactly(a);
    ParsedStart(t);
    AtomTextParsed(AtomOf(a), q + t);
    ParsedTail(AtomOf(a), q, t);
    Associative(a, q, t);
  }

  lemma QuantifierOf(r: Repeat)
    ensures Quantifier(r.Text()) && RepeatFor(r.Text()) == r
  {
  }

  /** The expressions without '^' in front are "", "$", and an atom with or without a quantifier before another
      expression. */
  lemma ShapeExactly(p: string)
    ensures Parse(p).Some? <==>
      || p == "" || p == "$"
      || (exists a, q, t :: AtomText(a) && Quantifier(q) && p == a + q + t && Parse(t).Some?)
  {
    if Parse(p).Some? {
      ParseSound(p);
      var r := Parse(p).value;
      if r.Then? {
        var a, q, t := r.atom.Text(), r.repeat.Text(), r.rest.Text();
        AtomTextExactly(a);
        QuantifierOf(r.repeat);
        ParseComplete(r.rest);
        assert AtomText(a) && Quantifier(q) && p == a + q + t && Parse(t).Some?;
      }
    }
    if a, q, t :| AtomText(a) && Quantifier(q) && p == a + q + t && Parse(t).Some? { ParsedFront(a, q, t); }
  }

  // ---------- the language, by the first atom ----------

  lemma EmptyLaw(s: string)
    ensures (In("", s) <==> s == "") && (In("$", s) <==> s == "")
  {
  }

  /** `s` starts with a character that the atom stands for. */
  predicate Leads(a: string, s: string)
    requires AtomText(a)
  {
    s != "" && Covers(a, s[0] as int)
  }

  lemma SplitsOne(atom: Atom, repeat: Repeat, s: string)
    requires s != ""
    ensures Splits(atom, repeat, s, 1) <==> repeat.Allows(1) && atom.Matches(s[0])
  {
    assert s[..1][0] == s[0];
  }

  lemma SplitsMore(atom: Atom, repeat: Repeat, s: string, n: nat)
    requires 0 < n <= |s|
    ensures Splits(atom, repeat, s, n) <==> repeat.Allows(n) && atom.Matches(s[0]) && Splits(atom, Star, s[1..], n - 1)
  {
    assert s[..n] == [s[0]] + s[1..][..n - 1];
    var rest := s[1..][..n - 1];
    if Splits(atom, repeat, s, n) {
      assert s[..n][0] == s[0];
      forall i | 0 <= i < |rest|
        ensures atom.Matches(rest[i])
      {
        assert rest[i] == s[..n][i + 1];
      }
    }
  }

  lemma OnceDenotes(atom: Atom, rest: Regex, s: string)
    ensures Denotes(Then(atom, Once, rest), s) <==> s != "" && atom.Matches(s[0]) && Denotes(rest, s[1..])
  {
    if s != "" { SplitsOne(atom, Once, s); }
  }

  lemma OptionalDenotes(atom: Atom, rest: Regex, s: string)
    ensures Denotes(Then(atom, Optional, rest), s) <==>
      Denotes(rest, s) || (s != "" && atom.Matches(s[0]) && Denotes(rest, s[1..]))
  {
    assert s[0..] == s && Splits(atom, Optional, s, 0);
    if s != "" { SplitsOne(atom, Optional, s); }
  }

  lemma StarDenotes(atom: Atom, rest: Regex, s: string)
    ensures Denotes(Then(atom, Star, rest), s) <==>
      Denotes(rest, s) || (s != "" && atom.Matches(s[0]) && Denotes(Then(atom, Star, rest), s[1..]))
  {
    assert s[0..] == s && Splits(atom, Star, s, 0);
    MoreDenotes(atom, Star, rest, s);
  }

  lemma PlusDenotes(atom: Atom, rest: Regex, s: string)
    ensures Denotes(Then(atom, Plus, rest), s) <==>
      s != "" && atom.Matches(s[0]) && Denotes(Then(atom, Star, rest), s[1..])
  {
    MoreDenotes(atom, Plus, rest, s);
  }

  /** Taking at least one character with a repetition that allows any such number. */
  lemma MoreDenotes(atom: Atom, repeat: Repeat, rest: Regex, s: string)
    requires repeat == Star || repeat == Plus
    ensures (exists n: nat :: 0 < n <= |s| && Splits(atom, repeat, s, n) && Denotes(rest, s[n..])) <==>
      s != "" && atom.Matches(s[0]) && Denotes(Then(atom, Star, rest), s[1..])
  {
    hide Denotes, Splits;
    if n: nat :| 0 < n <= |s| && Splits(atom, repeat, s, n) && Denotes(rest, s[n..]) {
      OneTaken(atom, repeat, rest, s, n);
    }
    if s != "" && atom.Matches(s[0]) && Denotes(Then(atom, Star, rest), s[1..]) {
      var n := OneGiven(atom, repeat, rest, s);
    }
  }

  lemma CutTwice(s: string, n: nat)
    requires 0 < n <= |s|
    ensures s[1..][n - 1..] == s[n..]
  {
  }

  lemma OneTaken(atom: Atom, repeat: Repeat, rest: Regex, s: string, n: nat)
    requires repeat == Star || repeat == Plus
    requires 0 < n <= |s| && Splits(atom, repeat, s, n) && Denotes(rest, s[n..])
    ensures atom.Matches(s[0]) && Denotes(Then(atom, Star, rest), s[1..])
  {
    hide Denotes, Splits;
    SplitsMore(atom, repeat, s, n);
    CutTwice(s, n);
    StarAfter(atom, rest, s[1..], n - 1);
  }

  lemma OneGiven(atom: Atom, repeat: Repeat, rest: Regex, s: string) returns (n: nat)
    requires repeat == Star || repeat == Plus
    requires s != "" && atom.Matches(s[0]) && Denotes(Then(atom, Star, rest), s[1..])
    ensures 0 < n <= |s| && Splits(atom, repeat, s, n) && Denotes(rest, s[n..])
  {
    hide Denotes, Splits;
    var k := StarCount(atom, rest, s[1..]);
    n := k + 1;
    SplitsMore(atom, repeat, s, n);
    CutTwice(s, n);
  }

  lemma StarAfter(atom: Atom, rest: Regex, s: string, k: nat)
    requires k <= |s| && Splits(atom, Star, s, k) && Denotes(rest, s[k..])
    ensures Denotes(Then(atom, Star, rest), s)
  {
  }

  lemma StarCount(atom: Atom, rest: Regex, s: string) returns (k: nat)
    requires Denotes(Then(atom, Star, rest), s)
    ensures k <= |s| && Splits(atom, Star, s, k) && Denotes(rest, s[k..])
  {
    k :| k <= |s| && Splits(atom, Star, s, k) && Denotes(rest, s[k..]);
  }

  /** An atom takes one character; with '?' it may be left out; '*' is left out or goes on after one character;
      '+' is one character and then '*'. With `ShapeExactly` and `EmptyLaw` this fixes the language of every
      expression. */
  lemma FirstAtomLaws(a: string, t: string, s: string)
    requires AtomText(a) && Parse(t).Some?
    ensures In(a + t, s) <==> Leads(a, s) && In(t, s[1..])
    ensures In(a + "?" + t, s) <==> In(t, s) || (Leads(a, s) && In(t, s[1..]))
    ensures In(a + "*" + t, s) <==> In(t, s) || (Leads(a, s) && In(a + "*" + t, s[1..]))
    ensures In(a + "+" + t, s) <==> Leads(a, s) && In(a + "*" + t, s[1..])
  {
    hide Denotes, Parse, Covers, AtomText;
    ParsedFront(a, "", t);
    assert a + "" + t == a + t;
    ParsedFront(a, "?", t);
    ParsedFront(a, "*", t);
    ParsedFront(a, "+", t);
    var atom, rest := AtomOf(a), Parse(t).value;
    if s != "" { CoversExactly(a, s[0]); }
    OnceDenotes(atom, rest, s);
    OptionalDenotes(atom, rest, s);
    StarDenotes(atom, rest, s);
    PlusDenotes(atom, rest, s);
  }

  /** An atom alone denotes the single characters it stands for. */
  lemma AtomLanguage(a: string, s: string)
    requires AtomText(a)
    ensures In(a, s) <==> |s| == 1 && Covers(a, s[0] as int)
  {
    FirstAtomLaws(a, "", s);
    assert a + "" == a;
    if s != "" { EmptyLaw(s[1..]); }
  }

  // ---------- what the matchers decide, by the text of the pattern ----------

  /** A partial match: some part of the string is in the language, from its start after '^', to its end before '$'. */
  lemma OccursExactly(regex: string, s: string)
    requires IsRegex(regex)
    ensures Occurs(regex, s) <==>
      exists i: nat, j: nat :: i <= j <= |s| && In(AfterCaret(regex), s[i..j])
        && (regex != "" && regex[0] == '^' ==> i == 0) && (Body(regex).Anchored() ==> j == |s|)
  {
    if Occurs(regex, s) {
      var p: nat :| p <= |s| && OccursAt(regex, s, p);
      var m: nat :| m <= |s[p..]| && Ends(Body(regex), s[p..], m);
      assert s[p..][..m] == s[p..p + m];
      assert In(AfterCaret(regex), s[p..p + m]);
    }
    if i: nat, j: nat :|
      i <= j <= |s| && In(AfterCaret(regex), s[i..j])
      && (regex != "" && regex[0] == '^' ==> i == 0) && (Body(regex).Anchored() ==> j == |s|)
    {
      assert s[i..][..j - i] == s[i..j];
      assert Ends(Body(regex), s[i..], j - i);
      assert OccursAt(regex, s, i);
    }
  }
}
