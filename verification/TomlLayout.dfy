/** How the writer's text looks, apart from what it reads as: indentation, comments, quoting. */
module TomlLayout {
  import opened Wrappers
  import opened Sequences
  import Hex = HexCodec
  import opened TomlText
  import opened TomlTree
  import opened TomlWriter

  ghost predicate At(text: string, i: nat, piece: string) {
    i + |piece| <= |text| && text[i..i + |piece|] == piece
  }

  ghost predicate Contains(text: string, piece: string) { exists i :: At(text, i, piece) }

  lemma ContainsMore(text: string, more: string, piece: string)
    requires Contains(text, piece) && text <= more
    ensures Contains(more, piece)
  {
    var i :| At(text, i, piece);
    assert At(more, i, piece);
  }

  function Repeated(c: char, n: int): string { seq(if n < 0 then 0 else n, _ => c) }

  /** A value: its documentation as a comment, one tab for every table it is in, its key and its text. */
  function ItemText(docs: Docs, path: seq<string>, v: Value): string
    requires path != []
  {
    (if path in docs then "\n# " + CommentText(docs[path]) + "\n" else "")
    + (Repeated('\t', |path| - 1) + KeyText(path[|path| - 1]) + " = " + ValueText(v))
  }

  /** A header: the tabs stand on the line before it. */
  function HeaderText(path: seq<string>): string {
    Repeated('\t', |path| - 1) + "\n[" + PathText(path) + "]\n"
  }

  function NodeAt(n: Node, p: seq<string>): Option<Node>
    decreases |p|
  {
    if p == [] then Some(n)
    else if n.Table? && p[0] in n.entries then NodeAt(n.entries[p[0]], p[1..])
    else None
  }

  // ---------- single pieces ----------

  lemma {:induction false} TabsExactly(n: nat)
    ensures Tabs(n) == Repeated('\t', n)
  {
    if n > 0 { TabsExactly(n - 1); }
  }

  lemma PutItemText(o: Out, docs: Docs, path: seq<string>, v: Value)
    requires path != []
    ensures PutItem(o, docs, path, v).text == o.text + ItemText(docs, path, v)
  {
    hide KeyText, ValueText, CommentText;
    TabsExactly(|path| - 1);
  }

  lemma PutHeaderText(o: Out, path: seq<string>)
    requires path != []
    ensures PutHeader(o, path).text == o.text + HeaderText(path)
  {
    hide PathText;
    TabsExactly(|path| - 1);
  }

  lemma Ends(text: string, piece: string)
    ensures Contains(text + piece, piece)
  {
    assert At(text + piece, |text|, piece);
  }

  // ---------- nothing written is taken back ----------

  lemma {:induction false} ValuesGrow(o: Out, docs: Docs, path: seq<string>, t: Entries, keys: seq<string>)
    requires forall k :: k in keys ==> k in t && t[k].Leaf?
    ensures o.text <= PutValues(o, docs, path, t, keys).text
    decreases |keys|
  {
    hide PutItem;
    if keys != [] {
      var last := |keys| - 1;
      ValuesGrow(o, docs, path, t, keys[..last]);
      var o1 := PutValues(o, docs, path, t, keys[..last]);
      PutItemText(if last > 0 then o1.Endline() else o1, docs, path + [keys[last]], t[keys[last]].value);
    }
  }

  lemma {:induction false} TablesGrow(o: Out, docs: Docs, path: seq<string>, n: Node, keys: seq<string>, first: bool,
      skipEmpty: bool)
    requires n.Table? && forall k :: k in keys ==> k in n.entries && n.entries[k].Table?
    ensures o.text <= PutTables(o, docs, path, n, keys, first, skipEmpty).text
    decreases n, 0, |keys|
  {
    hide PutTable;
    if keys != [] {
      var last := |keys| - 1;
      TablesGrow(o, docs, path, n, keys[..last], first, skipEmpty);
      var o1 := PutTables(o, docs, path, n, keys[..last], first, skipEmpty);
      TableGrows(if last > 0 || !first then o1.Endline() else o1, docs, path + [keys[last]], n.entries[keys[last]],
                 skipEmpty);
    }
  }

  lemma {:induction false} TableGrows(o: Out, docs: Docs, path: seq<string>, n: Node, skipEmpty: bool)
    requires n.Table?
    ensures o.text <= PutTable(o, docs, path, n, skipEmpty).text
    decreases n, 1, 0
  {
    hide PutHeader, PutValues, PutTables;
    var o1 := if WantsHeader(n.entries, skipEmpty) then PutHeader(o, path) else o;
    HeaderGrows(o, path);
    ValuesGrow(o1, docs, path, n.entries, ValueKeys(n.entries));
    TablesGrow(PutValues(o1, docs, path, n.entries, ValueKeys(n.entries)), docs, path, n, TableKeys(n.entries),
               ValueKeys(n.entries) == [], skipEmpty);
  }

  lemma HeaderGrows(o: Out, path: seq<string>)
    ensures o.text <= PutHeader(o, path).text
  {
    if path != [] { PutHeaderText(o, path); }
  }

  // ---------- everything is written ----------

  lemma {:induction false} ValueWritten(o: Out, docs: Docs, path: seq<string>, t: Entries, keys: seq<string>, k: string)
    requires k in keys && forall x :: x in keys ==> x in t && t[x].Leaf?
    ensures Contains(PutValues(o, docs, path, t, keys).text, ItemText(docs, path + [k], t[k].value))
    decreases |keys|
  {
    hide PutItem, ItemText;
    var last := |keys| - 1;
    var o1 := PutValues(o, docs, path, t, keys[..last]);
    var o2 := if last > 0 then o1.Endline() else o1;
    PutItemText(o2, docs, path + [keys[last]], t[keys[last]].value);
    if k == keys[last] {
      Ends(o2.text, ItemText(docs, path + [k], t[k].value));
    } else {
      ValueWritten(o, docs, path, t, keys[..last], k);
      ContainsMore(o1.text, PutValues(o, docs, path, t, keys).text, ItemText(docs, path + [k], t[k].value));
    }
  }

  /** What stands in the text for a value, and for a table that gets a header. */
  ghost predicate Shows(text: string, docs: Docs, path: seq<string>, m: Node, skipEmpty: bool) {
    match m
    case Leaf(v) => path != [] ==> Contains(text, ItemText(docs, path, v))
    case Table(t) => path != [] && WantsHeader(t, skipEmpty) ==> Contains(text, HeaderText(path))
  }

  lemma ShowsMore(text: string, more: string, docs: Docs, path: seq<string>, m: Node, skipEmpty: bool)
    requires Shows(text, docs, path, m, skipEmpty) && text <= more
    ensures Shows(more, docs, path, m, skipEmpty)
  {
    hide ItemText, HeaderText, Contains;
    if path != [] {
      match m {
        case Leaf(v) => ContainsMore(text, more, ItemText(docs, path, v));
        case Table(t) => if WantsHeader(t, skipEmpty) { ContainsMore(text, more, HeaderText(path)); }
      }
    }
  }

  lemma {:induction false} TablesWritten(o: Out, docs: Docs, path: seq<string>, n: Node, keys: seq<string>, first: bool,
      skipEmpty: bool, p: seq<string>)
    requires n.Table? && forall k :: k in keys ==> k in n.entries && n.entries[k].Table?
    requires p != [] && p[0] in keys && NodeAt(n, p).Some?
    ensures Shows(PutTables(o, docs, path, n, keys, first, skipEmpty).text, docs, path + p, NodeAt(n, p).value,
                  skipEmpty)
    decreases n, 0, |keys|
  {
    hide PutTable, Shows;
    var last := |keys| - 1;
    var o1 := PutTables(o, docs, path, n, keys[..last], first, skipEmpty);
    var o2 := if last > 0 || !first then o1.Endline() else o1;
    TableGrows(o2, docs, path + [keys[last]], n.entries[keys[last]], skipEmpty);
    if p[0] == keys[last] {
      TableWritten(o2, docs, path + [p[0]], n.entries[p[0]], skipEmpty, p[1..]);
      assert (path + [p[0]]) + p[1..] == path + p;
    } else {
      TablesWritten(o, docs, path, n, keys[..last], first, skipEmpty, p);
      ShowsMore(o1.text, PutTables(o, docs, path, n, keys, first, skipEmpty).text, docs, path + p, NodeAt(n, p).value,
                skipEmpty);
    }
  }

  lemma {:induction false} TableWritten(o: Out, docs: Docs, path: seq<string>, n: Node, skipEmpty: bool, p: seq<string>)
    requires n.Table? && NodeAt(n, p).Some?
    ensures Shows(PutTable(o, docs, path, n, skipEmpty).text, docs, path + p, NodeAt(n, p).value, skipEmpty)
    decreases n, 1, 0
  {
    hide PutHeader, PutValues, PutTables, Shows, ValueKeys, TableKeys;
    var t, values, tables := n.entries, ValueKeys(n.entries), TableKeys(n.entries);
    var o1 := if WantsHeader(t, skipEmpty) then PutHeader(o, path) else o;
    var o2 := PutValues(o1, docs, path, t, values);
    var o3 := PutTables(o2, docs, path, n, tables, values == [], skipEmpty);
    ValuesGrow(o1, docs, path, t, values);
    TablesGrow(o2, docs, path, n, tables, values == [], skipEmpty);
    var end := PutTable(o, docs, path, n, skipEmpty).text;
    if p == [] {
      assert path + p == path;
      HeaderShown(o, docs, path, n, skipEmpty);
      ShowsMore(o1.text, end, docs, path, n, skipEmpty);
    } else if t[p[0]].Leaf? {
      LeafShown(o1, docs, path, n, skipEmpty, p);
      ShowsMore(o2.text, end, docs, path + p, NodeAt(n, p).value, skipEmpty);
    } else {
      TablesWritten(o2, docs, path, n, tables, values == [], skipEmpty, p);
      ShowsMore(o3.text, end, docs, path + p, NodeAt(n, p).value, skipEmpty);
    }
  }

  lemma HeaderShown(o: Out, docs: Docs, path: seq<string>, n: Node, skipEmpty: bool)
    requires n.Table?
    ensures var o1 := if WantsHeader(n.entries, skipEmpty) then PutHeader(o, path) else o;
      Shows(o1.text, docs, path, n, skipEmpty)
  {
    hide PutHeader, HeaderText, Contains;
    if path != [] {
      PutHeaderText(o, path);
      Ends(o.text, HeaderText(path));
    }
  }

  lemma LeafShown(o: Out, docs: Docs, path: seq<string>, n: Node, skipEmpty: bool, p: seq<string>)
    requires n.Table? && p != [] && p[0] in n.entries && n.entries[p[0]].Leaf? && NodeAt(n, p).Some?
    ensures Shows(PutValues(o, docs, path, n.entries, ValueKeys(n.entries)).text, docs, path + p, NodeAt(n, p).value,
                  skipEmpty)
  {
    hide ItemText, Contains, PutValues;
    assert p == [p[0]];
    ValueWritten(o, docs, path, n.entries, ValueKeys(n.entries), p[0]);
  }

  /** For every tree: each value stands in the text with its documentation before it and its table's depth in
      tabs, and so does the header of each table that gets one. */
  lemma EverythingShown(n: Node, docs: Docs, skipEmpty: bool, p: seq<string>)
    requires n.Table? && NodeAt(n, p).Some?
    ensures Shows(Write(n, docs, skipEmpty), docs, p, NodeAt(n, p).value, skipEmpty)
  {
    hide Shows, PutTable;
    TableWritten(Out("", false), docs, [], n, skipEmpty, p);
    assert [] + p == p;
  }

  // ---------- comments, keys and control characters ----------

  /** A comment of one line is the documentation itself; each further line starts with a number sign. */
  lemma {:induction false} CommentExactly(line: string, more: string)
    requires '\n' !in line
    ensures CommentText(line) == line
    ensures CommentText(line + "\n" + more) == line + "\n# " + CommentText(more)
  {
    if line == "" {
      assert line + "\n" + more == "\n" + more;
      FrontCut("\n", more);
    } else {
      var rest := line[1..];
      assert '\n' !in rest && line[0] in line;
      CommentExactly(rest, more);
      HeadAndRest(line);
      CommentStep(line[0], rest);
      CommentStep(line[0], rest + "\n" + more);
      Longer(line[0], rest, "\n", more);
      Longer(line[0], rest, "\n# ", CommentText(more));
    }
  }

  lemma CommentStep(c: char, rest: string)
    requires c != '\n'
    ensures CommentText([c] + rest) == [c] + CommentText(rest)
  {
    FrontCut([c], rest);
  }

  lemma Longer(c: char, a: string, b: string, d: string)
    ensures ([c] + a) + b + d == [c] + (a + b + d)
  {
  }

  /** A key stands without quotes if and only if it is made of letters, digits, underscores and hyphens. */
  lemma KeyExactly(k: string)
    ensures KeyText(k) ==
      if forall i :: 0 <= i < |k| ==> IsKeyCode(k[i] as int) then k else "\"" + Escape(k) + "\""
  {
    assert Bare(k) <==> forall i :: 0 <= i < |k| ==> IsKeyCode(k[i] as int);
  }

  predicate IsKeyCode(n: int) { 65 <= n <= 90 || 97 <= n <= 122 || 48 <= n <= 57 || n == 95 || n == 45 }

  /** Control characters without a letter of their own are escaped as their code in lower-case hexadecimal digits,
      without leading zeros, though the format asks for four digits. */
  lemma ControlExactly(c: char)
    requires c as int < 32 && c as int !in {8, 9, 10, 12, 13}
    ensures var e := EscapeChar(c);
      && e[..2] == "\\u" && Hex.AllHex(e[2..]) && Hex.Value(e[2..]) == c as int
      && |e| == (if c as int < 16 then 3 else 4)
      && forall i :: 2 <= i < |e| ==> !('A' <= e[i] <= 'F')
  {
    hide Hex.Value, Hex.AllHex;
    LowerText(c as int);
    FrontCut("\\u", HexText(c as int));
    assert EscapeChar(c) == "\\u" + HexText(c as int);
  }

  lemma LowerText(n: nat)
    requires n < 32
    ensures var t := HexText(n);
      && |t| == (if n < 16 then 1 else 2) && Hex.AllHex(t) && Hex.Value(t) == n
      && forall i :: 0 <= i < |t| ==> !('A' <= t[i] <= 'F')
  {
    hide LowerHexDigit, Hex.HexValue, Hex.IsHex;
    LowerExactly(n % 16);
    LowerExactly(1);
    var last := LowerHexDigit(n % 16);
    Hex.ValueSnoc("", last);
    assert "" + [last] == [last] && Hex.Value("") == 0;
    if n >= 16 {
      var first := LowerHexDigit(1);
      Hex.ValueSnoc("", first);
      assert "" + [first] == [first];
      Hex.ValueSnoc([first], last);
      assert HexText(n) == [first] + [last];
    }
  }

  lemma LowerExactly(n: nat)
    requires n < 16
    ensures Hex.IsHex(LowerHexDigit(n)) && Hex.HexValue(LowerHexDigit(n)) == n && !('A' <= LowerHexDigit(n) <= 'F')
  {
  }
}
