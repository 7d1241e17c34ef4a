/** Overrides as the server's command line gives them. */
module TomlOverrides {
  import opened Wrappers
  import opened TomlText
  import opened TomlTree
  import opened TomlParser
  import opened TomlWriter
  import opened TomlReading
  import opened TomlLines
  import opened TomlMerge
  import opened TomlRoundTrip

  /** An override that sets one key. */
  function Entry(k: string, v: Value): string { KeyText(k) + " = " + ValueText(v) }

  lemma EntryParsed(k: string, v: Value)
    requires k != "" && Clean(k) && GoodValue(v)
    ensures ParseLine(Entry(k, v)) == AsParsed(Some(Assign([k], v)))
  {
    hide ParseLine, KeyText, ValueText, RereadKey, RereadValue;
    AssignRead(0, k, v);
    assert Tabs(0) + Entry(k, v) == Entry(k, v);
    CleanKeyRead(k);
    PathOfOne(k);
    GoodValueRead(v);
  }

  lemma EntryPlain(k: string, v: Value)
    ensures NoBreaks(Entry(k, v))
  {
    hide KeyText, ValueText;
    KeyTextPlain(k);
    ValueTextPlain(v);
  }

  lemma EntryReads(k: string, v: Value)
    requires k != "" && Clean(k) && GoodValue(v)
    ensures Reads(Entry(k, v) + "\n", Some([Assign([k], v)]))
  {
    hide ParseLine, Entry, NoBreaks, Reads;
    EntryParsed(k, v);
    EntryPlain(k, v);
    ReadsLine(Entry(k, v), Some(Assign([k], v)));
  }

  lemma TwoEntriesRead(k: string, v: Value, w: Value)
    requires k != "" && Clean(k) && GoodValue(v) && GoodValue(w)
    ensures Reads(OverridesText([Entry(k, v), Entry(k, w)]), Some([Assign([k], v), Assign([k], w)]))
  {
    hide Reads, Entry;
    var a, b := Entry(k, v) + "\n", Entry(k, w) + "\n";
    EntryReads(k, v);
    EntryReads(k, w);
    BlankReads();
    ReadsConcat(b, "\n", Some([Assign([k], w)]), Some([]));
    NothingSaid(Some([Assign([k], w)]));
    ReadsConcat(a, b + "\n", Some([Assign([k], v)]), Some([Assign([k], w)]));
    assert [Assign([k], v)] + [Assign([k], w)] == [Assign([k], v), Assign([k], w)];
    TwoEntriesText(Entry(k, v), Entry(k, w));
  }

  lemma BlankReads()
    ensures Reads("\n", Some([]))
  {
    ReadsLine("", Some(Blank));
    assert "" + "\n" == "\n";
  }

  lemma TwoEntriesText(a: string, b: string)
    ensures OverridesText([a, b]) == (a + "\n") + ((b + "\n") + "\n")
  {
    assert [a, b][1..] == [b] && [b][1..] == [];
    assert OverridesText([b]) == b + "\n" + "\n";
  }

  lemma AssignTwice(k: string, v: Value, w: Value)
    ensures AssignAt(map[], [k], v, Ignore) == Some(map[k := Leaf(v)]) == AssignAt(map[], [k], v, Strict)
    ensures AssignAt(map[k := Leaf(v)], [k], w, Ignore) == Some(map[k := Leaf(v)])
    ensures AssignAt(map[k := Leaf(v)], [k], w, Strict) == None
  {
    var empty: Entries := map[];
    assert empty[k := Leaf(v)] == map[k := Leaf(v)];
  }

  lemma TwoAssigns(k: string, v: Value, w: Value)
    requires WellFormed([Assign([k], v), Assign([k], w)])
    ensures var lines := [Assign([k], v), Assign([k], w)];
      && Exec(State(map[], []), lines, Ignore) == Some(State(map[k := Leaf(v)], []))
      && Exec(State(map[], []), lines, Strict) == None
  {
    hide AssignAt;
    var lines, start, next := [Assign([k], v), Assign([k], w)], State(map[], []), State(map[k := Leaf(v)], []);
    AssignTwice(k, v, w);
    assert [] + [k] == [k] && lines[1..] == [lines[1]] && lines[1..][1..] == [];
    assert ExecLine(start, lines[0], Ignore) == Some(next) && ExecLine(start, lines[0], Strict) == Some(next);
    assert ExecLine(next, lines[1], Ignore) == Some(next) && ExecLine(next, lines[1], Strict) == None;
    assert Exec(next, lines[1..], Ignore) == Some(next) && Exec(next, lines[1..], Strict) == None;
  }

  /** Any key set twice is accepted, its first value winning, though a strict reading refuses the same lines. */
  lemma SetTwiceAccepted(k: string, v: Value, w: Value)
    requires k != "" && Clean(k) && GoodValue(v) && GoodValue(w)
    ensures var entries := [Entry(k, v), Entry(k, w)];
      && ReadConfig(entries, "").Parsed? && ReadConfig(entries, "").state.root == map[k := Leaf(v)]
      && Parse(OverridesText(entries), Strict) == Rejected
  {
    hide Entry;
    var text, start := OverridesText([Entry(k, v), Entry(k, w)]), State(map[], []);
    TwoEntriesRead(k, v, w);
    TwoAssigns(k, v, w);
    ReadThenExec(start, text, Ignore);
    ReadThenExec(start, text, Strict);
    ExecNonBlank(start, ReadAll(text).value, Ignore);
    ExecNonBlank(start, ReadAll(text).value, Strict);
    assert text + "" == text;
    assert Parse("", Strict).Parsed?;
  }
}
