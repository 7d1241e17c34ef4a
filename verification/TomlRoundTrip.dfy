/** What the writer writes, the parser reads back. */
module TomlRoundTrip {
  import opened Wrappers
  import opened TomlText
  import opened TomlTree
  import opened TomlParser
  import opened TomlWriter
  import opened TomlReading
  import opened TomlRebuild
  import opened TomlLines

  // ---------- what the writer puts on one line has no line break in it ----------

  lemma {:induction false} TabsPlain(n: nat)
    ensures NoBreaks(Tabs(n))
  {
    if n > 0 { TabsPlain(n - 1); }
  }

  lemma {:induction false} EscapePlain(s: string)
    ensures NoBreaks(Escape(s))
  {
    if s != "" {
      EscapePlain(s[1..]);
      assert NoBreaks(EscapeChar(s[0]));
    }
  }

  lemma KeyTextPlain(k: string)
    ensures NoBreaks(KeyText(k))
  {
    EscapePlain(k);
  }

  lemma {:induction false} PathTextPlain(path: seq<string>)
    ensures NoBreaks(PathText(path))
  {
    if path != [] {
      PathTextPlain(path[..|path| - 1]);
      KeyTextPlain(path[|path| - 1]);
    }
  }

  lemma {:induction false} NatTextPlain(n: nat)
    ensures NoBreaks(NatText(n))
  {
    if n >= 10 { NatTextPlain(n / 10); }
  }

  lemma ValueTextPlain(v: Value)
    ensures NoBreaks(ValueText(v))
  {
    match v {
      case Str(s) => EscapePlain(s);
      case Bool(_) =>
      case Int(n) => NatTextPlain(if n < 0 then -n else n);
    }
  }

  // ---------- what written lines are read as ----------

  /** What written lines are read as, if all of them can be read. */
  function Mapped(lines: seq<Line>): (r: Option<seq<Line>>)
    ensures r.Some? && WellFormed(lines) ==> WellFormed(r.value)
  {
    if lines == [] then Some([])
    else
      var line, rest := RereadLine(lines[0]), Mapped(lines[1..]);
      if line.Some? && rest.Some? then Some([line.value] + rest.value) else None
  }

  lemma BothBoth(a: Option<seq<Line>>, b: Option<seq<Line>>, c: Option<seq<Line>>)
    ensures Both(Both(a, b), c) == Both(a, Both(b, c))
  {
    if a.Some? && b.Some? && c.Some? { assert (a.value + b.value) + c.value == a.value + (b.value + c.value); }
  }

  lemma {:induction false} MappedConcat(a: seq<Line>, b: seq<Line>)
    ensures Mapped(a + b) == Both(Mapped(a), Mapped(b))
  {
    if a == [] {
      assert a + b == b;
      NothingSaid(Mapped(b));
    } else {
      assert (a + b)[1..] == a[1..] + b;
      MappedConcat(a[1..], b);
      BothBoth(Mapped([a[0]]), Mapped(a[1..]), Mapped(b));
      MappedOne(a[0]);
    }
  }

  lemma MappedOne(line: Line)
    ensures Mapped([line]) == if RereadLine(line).Some? then Some([RereadLine(line).value]) else None
  {
    assert [line][1..] == [] && Mapped([]) == Some([]);
    var read := RereadLine(line);
    if read.Some? { assert [read.value] + [] == [read.value]; }
  }

  /** Lines that are read as they were. */
  ghost predicate Fixed(lines: seq<Line>) {
    forall i :: 0 <= i < |lines| ==> RereadLine(lines[i]) == Some(lines[i])
  }

  lemma {:induction false} FixedMapped(lines: seq<Line>)
    requires Fixed(lines)
    ensures Mapped(lines) == Some(lines)
  {
    if lines != [] {
      FixedMapped(lines[1..]);
      assert [lines[0]] + lines[1..] == lines;
    }
  }

  // ---------- what each piece of output adds to what the text says ----------

  /** At the start of a line, the text says `lines`. */
  ghost predicate Settled(o: Out, lines: Option<seq<Line>>) {
    Reads(o.text, lines)
  }

  /** In the middle of a line: ended there, the text says `lines`. */
  ghost predicate Pending(o: Out, lines: Option<seq<Line>>) {
    !o.naked && Reads(o.text + "\n", lines)
  }

  lemma Ended(o: Out, lines: Option<seq<Line>>)
    requires Settled(o, lines) || Pending(o, lines)
    ensures Settled(o.Endline(), lines)
  {
    if !o.naked && Settled(o, lines) {
      ReadsLine("", Some(Blank));
      assert "" + "\n" == "\n";
      ReadsConcat(o.text, "\n", lines, Some([]));
      NothingSaid(lines);
    }
  }

  lemma AddLine(text: string, lines: Option<seq<Line>>, s: string, line: Line)
    requires Reads(text, lines) && NoBreaks(s) && ParseLine(s) == AsParsed(RereadLine(line)) && !line.Blank?
    ensures Reads((text + s) + "\n", Both(lines, Mapped([line])))
  {
    ReadsLine(s, RereadLine(line));
    MappedOne(line);
    ReadsConcat(text, s + "\n", lines, Mapped([line]));
    assert (text + s) + "\n" == text + (s + "\n");
  }

  lemma AddBlank(text: string, lines: Option<seq<Line>>, n: nat)
    requires Reads(text, lines)
    ensures Reads(text + Tabs(n) + "\n", lines)
  {
    TabsPlain(n);
    TabsBlank(n);
    ReadsLine(Tabs(n), Some(Blank));
    ReadsConcat(text, Tabs(n) + "\n", lines, Some([]));
    NothingSaid(lines);
    assert text + Tabs(n) + "\n" == text + (Tabs(n) + "\n");
  }

  lemma HeaderPieces(text: string, indent: string, path: string)
    ensures ((text + indent) + "\n") + ("[" + path + "]") + "\n"
      == ((((text + indent) + "\n") + "[") + path) + "]" + "\n"
  {
  }

  lemma HeaderAdded(o: Out, lines: Option<seq<Line>>, path: seq<string>)
    requires Settled(o, lines) && path != []
    ensures Settled(PutHeader(o, path), Both(lines, Mapped([Header(path)])))
  {
    hide Reads, PathText, ParseLine, RereadLine;
    var n: nat := |path| - 1;
    AddBlank(o.text, lines, n);
    PathTextPlain(path);
    HeaderRead(path);
    AddLine(o.text + Tabs(n) + "\n", lines, "[" + PathText(path) + "]", Header(path));
    HeaderPieces(o.text, Tabs(n), PathText(path));
  }

  lemma ItemPieces(text: string, indent: string, key: string, value: string)
    ensures text + (indent + (key + " = " + value)) == (((text + indent) + key) + " = ") + value
  {
  }

  lemma ItemAdded(o: Out, lines: Option<seq<Line>>, docs: Docs, path: seq<string>, k: string, v: Value)
    requires Settled(o, lines)
    ensures Pending(PutItem(o, docs, path + [k], v), Both(lines, Mapped([Assign([k], v)])))
  {
    hide ParseLine, RereadLine, Mapped, Both, Reads, KeyText, ValueText, Tabs;
    var full := path + [k];
    DocReads(o.text, lines, docs, full);
    var text := PutDoc(o, docs, full).text;
    var n: nat := |path|;
    TabsPlain(n);
    KeyTextPlain(k);
    ValueTextPlain(v);
    AssignRead(n, k, v);
    AddLine(text, lines, Tabs(n) + (KeyText(k) + " = " + ValueText(v)), Assign([k], v));
    ItemPieces(text, Tabs(n), KeyText(k), ValueText(v));
  }

  lemma {:induction false} ValuesAdded(o: Out, lines: Option<seq<Line>>, docs: Docs, path: seq<string>, t: Entries,
      keys: seq<string>)
    requires Settled(o, lines) && forall k :: k in keys ==> k in t && t[k].Leaf?
    ensures keys == [] ==> PutValues(o, docs, path, t, keys) == o && ValueLines(t, keys) == []
    ensures keys != [] ==> Pending(PutValues(o, docs, path, t, keys), Both(lines, Mapped(ValueLines(t, keys))))
    decreases |keys|
  {
    hide Reads, PutItem, Out.Endline, Mapped, Both;
    if keys != [] {
      var last := |keys| - 1;
      var init, k := keys[..last], keys[last];
      ValuesAdded(o, lines, docs, path, t, init);
      var o1 := PutValues(o, docs, path, t, init);
      var so := if last > 0 then Both(lines, Mapped(ValueLines(t, init))) else lines;
      if last > 0 { Ended(o1, so); }
      ItemAdded(if last > 0 then o1.Endline() else o1, so, docs, path, k, t[k].value);
      SaidSoFar(lines, ValueLines(t, init), [Assign([k], t[k].value)], so);
    }
  }

  /** What has been said up to the second of two parts, and with it. */
  lemma SaidSoFar(lines: Option<seq<Line>>, first: seq<Line>, second: seq<Line>, so: Option<seq<Line>>)
    requires so == Both(lines, Mapped(first)) || (first == [] && so == lines)
    ensures Both(so, Mapped(second)) == Both(lines, Mapped(first + second))
  {
    MappedConcat(first, second);
    BothBoth(lines, Mapped(first), Mapped(second));
    NothingSaid(lines);
  }

  lemma {:induction false} TablesAdded(o: Out, lines: Option<seq<Line>>, docs: Docs, path: seq<string>, n: Node,
      keys: seq<string>, first: bool, skipEmpty: bool)
    requires if first then Settled(o, lines) else Pending(o, lines)
    requires n.Table? && forall k :: k in keys ==> k in n.entries && n.entries[k].Table?
    ensures keys == [] ==>
      PutTables(o, docs, path, n, keys, first, skipEmpty) == o && TablesLines(path, n, keys, skipEmpty) == []
    ensures keys != [] ==>
      Settled(PutTables(o, docs, path, n, keys, first, skipEmpty),
              Both(lines, Mapped(TablesLines(path, n, keys, skipEmpty))))
    decreases n, 0, |keys|
  {
    hide Reads, TableLines, PutTable, Out.Endline, Mapped, Both;
    if keys != [] {
      var last := |keys| - 1;
      var init, k := keys[..last], keys[last];
      TablesAdded(o, lines, docs, path, n, init, first, skipEmpty);
      var o1 := PutTables(o, docs, path, n, init, first, skipEmpty);
      var so := if last > 0 then Both(lines, Mapped(TablesLines(path, n, init, skipEmpty))) else lines;
      if last > 0 || !first { Ended(o1, so); }
      TableAdded(if last > 0 || !first then o1.Endline() else o1, so, docs, path + [k], n.entries[k], skipEmpty);
      SaidSoFar(lines, TablesLines(path, n, init, skipEmpty), TableLines(path + [k], n.entries[k], skipEmpty), so);
    }
  }

  lemma HeadAdded(o: Out, lines: Option<seq<Line>>, path: seq<string>, n: Node, skipEmpty: bool)
    requires Settled(o, lines) && n.Table?
    ensures Settled(if WantsHeader(n.entries, skipEmpty) then PutHeader(o, path) else o,
                    Both(lines, Mapped(HeaderLines(path, n.entries, skipEmpty))))
  {
    if path != [] && WantsHeader(n.entries, skipEmpty) {
      HeaderAdded(o, lines, path);
    } else {
      NothingSaid(lines);
    }
  }

  /** One table, starting and ending at the start of a line. */
  lemma {:induction false} TableAdded(o: Out, lines: Option<seq<Line>>, docs: Docs, path: seq<string>, n: Node,
      skipEmpty: bool)
    requires Settled(o, lines) && n.Table?
    ensures Settled(PutTable(o, docs, path, n, skipEmpty), Both(lines, Mapped(TableLines(path, n, skipEmpty))))
    decreases n, 1, 0
  {
    hide Reads, Mapped, Both, PutHeader, Out.Endline;
    var t := n.entries;
    var values, tables := ValueKeys(t), TableKeys(t);
    var header, items := HeaderLines(path, t, skipEmpty), ValueLines(t, values);
    var rest := TablesLines(path, n, tables, skipEmpty);
    HeadAdded(o, lines, path, n, skipEmpty);
    var o1 := if WantsHeader(t, skipEmpty) then PutHeader(o, path) else o;
    var s1 := Both(lines, Mapped(header));
    ValuesAdded(o1, s1, docs, path, t, values);
    var o2 := PutValues(o1, docs, path, t, values);
    var s2 := if values == [] then s1 else Both(s1, Mapped(items));
    TablesAdded(o2, s2, docs, path, n, tables, values == [], skipEmpty);
    var s3 := if tables == [] then s2 else Both(s2, Mapped(rest));
    Ended(PutTables(o2, docs, path, n, tables, values == [], skipEmpty), s3);
    SaidSoFar(lines, header, items, s1);
    if values == [] { Unsaid(s1); }
    SaidSoFar(lines, header + items, rest, s2);
    if tables == [] { Unsaid(s2); }
  }

  lemma Unsaid(lines: Option<seq<Line>>)
    ensures Both(lines, Mapped([])) == lines
  {
    NothingSaid(lines);
  }

  /** For every tree, whatever its keys and strings: the written text says the lines of the tree as they are
      read back, one by one, and can be read at all only if each of them can. */
  lemma WrittenSays(n: Node, docs: Docs, skipEmpty: bool)
    requires n.Table?
    ensures Reads(Write(n, docs, skipEmpty), Mapped(TableLines([], n, skipEmpty)))
  {
    TableAdded(Out("", false), Some([]), docs, [], n, skipEmpty);
    NothingSaid(Mapped(TableLines([], n, skipEmpty)));
  }

  // ---------- the round trip ----------

  /** Non-empty keys and strings, without control characters other than \b \t \n \f \r, and
      64-bit integers. */
  ghost predicate Good(n: Node) {
    match n
    case Leaf(v) => GoodValue(v)
    case Table(t) => forall k :: k in t ==> k != "" && Clean(k) && Good(t[k])
  }

  lemma {:induction false} GoodValueLines(t: Entries, keys: seq<string>)
    requires Good(Table(t)) && forall k :: k in keys ==> k in t && t[k].Leaf?
    ensures Fixed(ValueLines(t, keys))
    decreases |keys|
  {
    if keys != [] {
      var k := keys[|keys| - 1];
      GoodValueLines(t, keys[..|keys| - 1]);
      assert Good(t[k]);
      CleanKeyRead(k);
      PathOfOne(k);
      GoodValueRead(t[k].value);
    }
  }

  lemma {:induction false} GoodTablesLines(path: seq<string>, n: Node, keys: seq<string>, skipEmpty: bool)
    requires n.Table? && Good(n) && CleanPath(path) && forall k :: k in keys ==> k in n.entries && n.entries[k].Table?
    ensures Fixed(TablesLines(path, n, keys, skipEmpty))
    decreases n, 0, |keys|
  {
    hide RereadLine, TableLines;
    if keys != [] {
      var k := keys[|keys| - 1];
      GoodTablesLines(path, n, keys[..|keys| - 1], skipEmpty);
      assert Good(n.entries[k]);
      GoodTableLines(path + [k], n.entries[k], skipEmpty);
    }
  }

  lemma {:induction false} GoodTableLines(path: seq<string>, n: Node, skipEmpty: bool)
    requires n.Table? && Good(n) && CleanPath(path)
    ensures Fixed(TableLines(path, n, skipEmpty))
    decreases n, 1, 0
  {
    hide RereadPath, TablesLines, ValueLines;
    CleanPathRead(path);
    GoodValueLines(n.entries, ValueKeys(n.entries));
    GoodTablesLines(path, n, TableKeys(n.entries), skipEmpty);
  }

  /** Parsing a written tree gives the tree back, without the tables that hold no value at any
      depth when those are left out; attached documentation changes nothing. */
  lemma RoundTrip(n: Node, docs: Docs, skipEmpty: bool)
    requires n.Table? && Good(n)
    ensures var r := Parse(Write(n, docs, skipEmpty), Strict);
      r.Parsed? && r.state.root == Kept(n, skipEmpty).entries
  {
    var text, lines := Write(n, docs, skipEmpty), TableLines([], n, skipEmpty);
    WrittenSays(n, docs, skipEmpty);
    GoodTableLines([], n, skipEmpty);
    FixedMapped(lines);
    var start := State(map[], []);
    ReadThenExec(start, text, Strict);
    ExecNonBlank(start, ReadAll(text).value, Strict);
    ExecTable(map[], [], [], n, skipEmpty);
    var kept := Kept(n, skipEmpty).entries;
    assert Grown(map[], [], kept, WantsHeader(n.entries, skipEmpty)) == kept;
  }

  /** A second trip through text changes nothing any more. */
  lemma SecondTrip(n: Node, docs: Docs, moreDocs: Docs, skipEmpty: bool)
    requires n.Table? && Good(n)
    ensures var r := Parse(Write(n, docs, skipEmpty), Strict);
      r.Parsed? && Parse(Write(Table(r.state.root), moreDocs, skipEmpty), Strict).Parsed?
      && Parse(Write(Table(r.state.root), moreDocs, skipEmpty), Strict).state.root == r.state.root
  {
    RoundTrip(n, docs, skipEmpty);
    var m := Kept(n, skipEmpty);
    KeptGood(n, skipEmpty);
    KeptTwice(n, skipEmpty);
    assert m == Table(m.entries);
    RoundTrip(m, moreDocs, skipEmpty);
  }

  lemma {:induction false} KeptGood(n: Node, skipEmpty: bool)
    requires Good(n)
    ensures Good(Kept(n, skipEmpty))
  {
    if n.Table? {
      forall k | k in n.entries
        ensures Good(Kept(n.entries[k], skipEmpty))
      {
        KeptGood(n.entries[k], skipEmpty);
      }
    }
  }

  lemma {:induction false} KeptTwice(n: Node, skipEmpty: bool)
    ensures Kept(Kept(n, skipEmpty), skipEmpty) == Kept(n, skipEmpty)
    ensures Leafless(Kept(n, skipEmpty)) ==> Leafless(n) || !skipEmpty
    ensures Leafless(n) ==> Leafless(Kept(n, skipEmpty))
  {
    if n.Table? {
      forall k | k in n.entries
        ensures Kept(Kept(n.entries[k], skipEmpty), skipEmpty) == Kept(n.entries[k], skipEmpty)
        ensures Leafless(Kept(n.entries[k], skipEmpty)) ==> Leafless(n.entries[k]) || !skipEmpty
        ensures Leafless(n.entries[k]) ==> Leafless(Kept(n.entries[k], skipEmpty))
      {
        KeptTwice(n.entries[k], skipEmpty);
      }
      var once := Kept(n, skipEmpty);
      assert Kept(once, skipEmpty).entries == once.entries;
      if !Leafless(n) && skipEmpty {
        var k :| k in n.entries && !Leafless(n.entries[k]);
        assert k in once.entries && !Leafless(once.entries[k]);
      }
    }
  }
}
