/** Text as a sequence of lines that mean something; comments mean nothing. */
module TomlLines {
  import opened TomlText
  import opened Wrappers
  import opened TomlTree
  import opened TomlParser
  import opened TomlWriter
  import opened TomlReading

  // ---------- the text as a sequence of lines ----------

  function NonBlank(lines: seq<Line>): (kept: seq<Line>)
    requires WellFormed(lines)
    ensures WellFormed(kept)
  {
    if lines == [] then []
    else if lines[0].Blank? then NonBlank(lines[1..])
    else [lines[0]] + NonBlank(lines[1..])
  }

  lemma {:induction false} NonBlankConcat(a: seq<Line>, b: seq<Line>)
    requires WellFormed(a) && WellFormed(b)
    ensures NonBlank(a + b) == NonBlank(a) + NonBlank(b)
    decreases |a|
  {
    if a == [] {
      assert a + b == b;
    } else {
      assert (a + b)[1..] == a[1..] + b;
      NonBlankConcat(a[1..], b);
    }
  }

  lemma {:induction false} ExecNonBlank(st: State, lines: seq<Line>, merge: Merge)
    requires WellFormed(lines)
    ensures Exec(st, lines, merge) == Exec(st, NonBlank(lines), merge)
    decreases |lines|
  {
    if lines != [] {
      var next := ExecLine(st, lines[0], merge);
      if next.Some? { ExecNonBlank(next.value, lines[1..], merge); }
      if !lines[0].Blank? { assert NonBlank(lines)[1..] == NonBlank(lines[1..]); }
    }
  }

  /** The text says exactly `lines`, or, when there are none, it cannot be read. */
  ghost predicate Reads(text: string, lines: Option<seq<Line>>) {
    Complete(text) && match ReadAll(text) case Some(all) => lines == Some(NonBlank(all)) case None => lines == None
  }

  lemma ReadsConcat(a: string, b: string, xs: Option<seq<Line>>, ys: Option<seq<Line>>)
    requires Reads(a, xs) && Reads(b, ys)
    ensures Reads(a + b, Both(xs, ys))
  {
    ReadConcat(a, b);
    if xs.Some? && ys.Some? { NonBlankConcat(ReadAll(a).value, ReadAll(b).value); }
    assert Complete(a + b);
  }

  /** Text that says nothing, before or after. */
  lemma NothingSaid(lines: Option<seq<Line>>)
    ensures Both(lines, Some([])) == lines && Both(Some([]), lines) == lines
  {
    if lines.Some? { assert lines.value + [] == lines.value && [] + lines.value == lines.value; }
  }

  predicate NoBreaks(s: string) {
    forall i :: 0 <= i < |s| ==> s[i] != '\n' && s[i] != '\r'
  }

  lemma {:induction false} PlainLine(s: string)
    requires NoBreaks(s)
    ensures FirstLine(s + "\n") == s && AfterLine(s + "\n") == ""
  {
    if s == "" {
      assert s + "\n" == "\n" && "\n"[1..] == "";
    } else {
      assert (s + "\n")[1..] == s[1..] + "\n";
      PlainLine(s[1..]);
      assert s == [s[0]] + s[1..];
    }
  }

  function Said(line: Option<Line>): Option<seq<Line>> {
    if line.None? then None else Some(if line.value.Blank? then [] else [line.value])
  }

  lemma SingleLine(text: string, line: Option<Line>)
    requires text != "" && Complete(text) && AfterLine(text) == "" && ParseLine(FirstLine(text)) == AsParsed(line)
    ensures Reads(text, Said(line))
  {
    assert ReadAll("") == Some([]);
    if line.Some? {
      assert ReadAll(text).value == [line.value];
      assert [line.value][1..] == [];
    }
  }

  lemma ReadsLine(s: string, line: Option<Line>)
    requires NoBreaks(s) && ParseLine(s) == AsParsed(line)
    ensures Reads(s + "\n", Said(line))
  {
    PlainLine(s);
    SingleLine(s + "\n", line);
  }

  // ---------- comments ----------

  lemma {:induction false} FirstLineStarts(s: string)
    requires forall i :: 0 <= i < |s| ==> s[i] != '\n'
    ensures AfterLine(s + "\n") == ""
    ensures s != "" && s[0] != '\r' ==> FirstLine(s + "\n") != "" && FirstLine(s + "\n")[0] == s[0]
  {
    if s == "" {
      assert s + "\n" == "\n" && "\n"[1..] == "";
    } else {
      assert (s + "\n")[1..] == s[1..] + "\n";
      FirstLineStarts(s[1..]);
      if s[0] == '\r' && |s| == 1 { assert (s + "\n")[2..] == ""; }
    }
  }

  lemma CommentLineBlank(s: string)
    requires s != "" && s[0] == '#' && forall i :: 0 <= i < |s| ==> s[i] != '\n'
    ensures Reads(s + "\n", Some([]))
  {
    FirstLineStarts(s);
    var line := FirstLine(s + "\n");
    assert SkipBlanks(line) == line;
    assert ParseLine(line) == Ok(Blank, "");
    SingleLine(s + "\n", Some(Blank));
  }

  /** Characters before the first line break. */
  function BreakAt(doc: string): (n: nat)
    ensures n <= |doc| && (n < |doc| ==> doc[n] == '\n')
    ensures forall i :: 0 <= i < n ==> doc[i] != '\n'
  {
    if doc == "" || doc[0] == '\n' then 0 else 1 + BreakAt(doc[1..])
  }

  lemma BreakLater(doc: string, n: nat)
    requires doc != "" && n <= |doc[1..]|
    ensures doc[..n + 1] == [doc[0]] + doc[1..][..n] && doc[n + 1..] == doc[1..][n..]
  {
  }

  lemma CommentStep(doc: string)
    requires doc != "" && doc[0] != '\n'
    ensures CommentText(doc) == [doc[0]] + CommentText(doc[1..]) && BreakAt(doc) == 1 + BreakAt(doc[1..])
  {
  }

  lemma CommentBreak(doc: string)
    requires doc != "" && doc[0] == '\n'
    ensures BreakAt(doc) == 0 && CommentText(doc) == doc[..0] + ("\n# " + CommentText(doc[0 + 1..]))
  {
  }

  lemma {:induction false} CommentTextSplit(doc: string)
    ensures var n := BreakAt(doc);
      CommentText(doc) == if n < |doc| then doc[..n] + ("\n# " + CommentText(doc[n + 1..])) else doc
  {
    if doc != "" {
      if doc[0] == '\n' {
        CommentBreak(doc);
      } else {
        CommentStep(doc);
        hide CommentText, BreakAt;
        var n := BreakAt(doc[1..]);
        CommentTextSplit(doc[1..]);
        BreakLater(doc, n);
        if n < |doc[1..]| {
          BreakLater(doc, n + 1);
          Prepended(doc[0], doc[1..][..n], "\n# " + CommentText(doc[n + 2..]));
        }
      }
    }
  }

  lemma Prepended(c: char, a: string, b: string)
    ensures [c] + (a + b) == ([c] + a) + b
  {
  }

  /** Documentation never adds a line that means anything. */
  lemma {:induction false} CommentReads(doc: string)
    ensures Reads("# " + CommentText(doc) + "\n", Some([]))
    decreases |doc|
  {
    CommentTextSplit(doc);
    var n := BreakAt(doc);
    var first := "# " + doc[..n];
    CommentLineBlank(first);
    if n < |doc| {
      var rest := CommentText(doc[n + 1..]);
      CommentReads(doc[n + 1..]);
      ReadsConcat(first + "\n", "# " + rest + "\n", Some([]), Some([]));
      NothingSaid(Some([]));
      CommentPieces("# ", doc[..n], rest);
    } else {
      assert doc[..n] == doc;
    }
  }

  lemma CommentPieces(sign: string, first: string, rest: string)
    requires sign == "# "
    ensures (sign + first + "\n") + (sign + rest + "\n") == sign + (first + ("\n# " + rest)) + "\n"
  {
    assert "\n# " == "\n" + sign;
  }

  lemma DocReads(text: string, lines: Option<seq<Line>>, docs: Docs, path: seq<string>)
    requires Reads(text, lines)
    ensures Reads(PutDoc(Out(text, false), docs, path).text, lines)
  {
    if path in docs {
      var doc := CommentText(docs[path]);
      ReadsLine("", Some(Blank));
      assert "" + "\n" == "\n";
      CommentReads(docs[path]);
      NothingSaid(lines);
      ReadsConcat(text, "\n", lines, Some([]));
      ReadsConcat(text + "\n", "# " + doc + "\n", lines, Some([]));
      DocPieces(text, doc);
    }
  }

  lemma DocPieces(text: string, doc: string)
    ensures (text + "\n") + ("# " + doc + "\n") == ((text + "\n# ") + doc) + "\n"
  {
    assert "\n# " == "\n" + "# ";
  }
}
