/** Writing a tree in the configuration format. */
module TomlWriter {
  import opened TomlText
  import opened TomlTree

  // ---------- tables are iterated in key order ----------

  predicate Before(a: string, b: string) {
    b != "" && (a == "" || a[0] < b[0] || (a[0] == b[0] && Before(a[1..], b[1..])))
  }

  lemma {:induction false} BeforeTotal(a: string, b: string)
    ensures a == b || Before(a, b) || Before(b, a)
    ensures !(Before(a, b) && Before(b, a)) && !Before(a, a)
  {
    if a != "" && b != "" && a[0] == b[0] {
      BeforeTotal(a[1..], b[1..]);
      assert a == [a[0]] + a[1..] && b == [b[0]] + b[1..];
    }
    if a != "" { BeforeTotal(a[1..], a[1..]); }
  }

  lemma {:induction false} BeforeTransitive(a: string, b: string, c: string)
    requires Before(a, b) && Before(b, c)
    ensures Before(a, c)
  {
    if a != "" && a[0] == b[0] && b[0] == c[0] {
      BeforeTransitive(a[1..], b[1..], c[1..]);
    }
  }

  predicate IsLeast(ks: set<string>, k: string) {
    k in ks && forall x :: x in ks ==> x == k || Before(k, x)
  }

  lemma {:induction false} LeastExists(ks: set<string>)
    requires ks != {}
    ensures exists k :: IsLeast(ks, k)
  {
    var k :| k in ks;
    if ks == {k} {
      assert IsLeast(ks, k);
    } else {
      LeastExists(ks - {k});
      var m :| IsLeast(ks - {k}, m);
      BeforeTotal(k, m);
      var least := if Before(k, m) then k else m;
      forall x | x in ks
        ensures x == least || Before(least, x)
      {
        if x != k && x != m && least == k { BeforeTransitive(k, m, x); }
      }
      assert IsLeast(ks, least);
    }
  }

  function Least(ks: set<string>): (k: string)
    requires ks != {}
    ensures IsLeast(ks, k)
  {
    LeastExists(ks);
    assert forall a, b :: IsLeast(ks, a) && IsLeast(ks, b) ==> a == b by {
      forall a, b | IsLeast(ks, a) && IsLeast(ks, b)
        ensures a == b
      {
        BeforeTotal(a, b);
      }
    }
    var k :| k in ks && IsLeast(ks, k);
    k
  }

  function Keys(ks: set<string>): (keys: seq<string>) {
    if ks == {} then [] else [Least(ks)] + Keys(ks - {Least(ks)})
  }

  /** The keys come out in strictly increasing order, each exactly once. */
  lemma {:induction false} KeysSorted(ks: set<string>)
    ensures forall k :: k in Keys(ks) <==> k in ks
    ensures forall i, j :: 0 <= i < j < |Keys(ks)| ==> Before(Keys(ks)[i], Keys(ks)[j])
  {
    if ks != {} {
      var k := Least(ks);
      KeysSorted(ks - {k});
      assert forall x :: x in ks - {k} ==> Before(k, x);
    }
  }

  /** The keys of the tables, or of the values, among `keys`, in the same order. */
  function Select(t: Entries, keys: seq<string>, tables: bool): (ks: seq<string>)
    requires forall k :: k in keys ==> k in t
    ensures forall k :: k in ks <==> k in keys && t[k].Table? == tables
  {
    if keys == [] then []
    else
      var last := keys[|keys| - 1];
      assert keys == keys[..|keys| - 1] + [last];
      Select(t, keys[..|keys| - 1], tables) + if t[last].Table? == tables then [last] else []
  }

  lemma SelectSnoc(t: Entries, keys: seq<string>, i: nat)
    requires i < |keys| && forall k :: k in keys ==> k in t
    ensures forall tables ::
      Select(t, keys[..i + 1], tables)
      == Select(t, keys[..i], tables) + if t[keys[i]].Table? == tables then [keys[i]] else []
  {
    assert keys[..i + 1][..i] == keys[..i];
  }

  lemma {:induction false} SelectDistinct(t: Entries, keys: seq<string>, tables: bool)
    requires forall k :: k in keys ==> k in t
    requires forall i, j :: 0 <= i < j < |keys| ==> keys[i] != keys[j]
    ensures forall i, j :: 0 <= i < j < |Select(t, keys, tables)| ==>
      Select(t, keys, tables)[i] != Select(t, keys, tables)[j]
  {
    if keys != [] {
      var init, last := keys[..|keys| - 1], keys[|keys| - 1];
      assert keys == init + [last];
      SelectDistinct(t, init, tables);
      assert last !in init;
      assert last !in Select(t, init, tables);
    }
  }

  function ValueKeys(t: Entries): (ks: seq<string>)
    ensures forall k :: k in ks <==> k in t && t[k].Leaf?
  {
    KeysSorted(t.Keys);
    Select(t, Keys(t.Keys), false)
  }

  function TableKeys(t: Entries): (ks: seq<string>)
    ensures forall k :: k in ks <==> k in t && t[k].Table?
  {
    KeysSorted(t.Keys);
    Select(t, Keys(t.Keys), true)
  }

  // ---------- the text ----------

  predicate BareChar(c: char) {
    'A' <= c <= 'Z' || 'a' <= c <= 'z' || '0' <= c <= '9' || c == '_' || c == '-'
  }

  predicate Bare(s: string) {
    forall i :: 0 <= i < |s| ==> BareChar(s[i])
  }

  function Quoted(s: string): string {
    [QUOTE] + Escape(s) + [QUOTE]
  }

  function KeyText(k: string): string {
    if Bare(k) then k else Quoted(k)
  }

  function PathText(path: seq<string>): string {
    if path == [] then ""
    else
      var last := |path| - 1;
      PathText(path[..last]) + (if last > 0 then "." else "") + KeyText(path[last])
  }

  function DigitChar(n: nat): char
    requires n < 10
  {
    "0123456789"[n]
  }

  function NatText(n: nat): string {
    if n < 10 then [DigitChar(n)] else NatText(n / 10) + [DigitChar(n % 10)]
  }

  function IntText(n: int): string {
    if n < 0 then "-" + NatText(-n) else NatText(n)
  }

  function ValueText(v: Value): string {
    match v
    case Str(s) => Quoted(s)
    case Bool(b) => if b then "true" else "false"
    case Int(n) => IntText(n)
  }

  function Tabs(n: nat): string {
    if n == 0 then "" else "\t" + Tabs(n - 1)
  }

  function Indent(path: seq<string>): string {
    Tabs(if path == [] then 0 else |path| - 1)
  }

  /** Documentation as comment lines: every line break starts a new comment. */
  function CommentText(doc: string): string {
    if doc == "" then ""
    else if doc[0] == '\n' then "\n# " + CommentText(doc[1..])
    else [doc[0]] + CommentText(doc[1..])
  }

  /** The stream so far, and whether it ends in a line end that `Endline` itself wrote. */
  datatype Out = Out(text: string, naked: bool) {
    function Put(s: string): Out { Out(text + s, false) }

    function Endline(): Out { if naked then this else Out(text + "\n", true) }
  }

  /** Documentation by the path of the key it is attached to. */
  type Docs = map<seq<string>, string>

  function PutHeader(o: Out, path: seq<string>): Out {
    if path == [] then o
    else o.Put(Indent(path)).Put("\n").Put("[").Put(PathText(path)).Put("]").Endline()
  }

  function PutDoc(o: Out, docs: Docs, path: seq<string>): Out {
    if path in docs then o.Put("\n# ").Put(CommentText(docs[path])).Put("\n") else o
  }

  function PutItemHeader(o: Out, path: seq<string>): Out
    requires path != []
  {
    o.Put(Indent(path)).Put(KeyText(path[|path| - 1])).Put(" = ")
  }

  function PutItem(o: Out, docs: Docs, path: seq<string>, v: Value): Out
    requires path != []
  {
    PutItemHeader(PutDoc(o, docs, path), path).Put(ValueText(v))
  }

  predicate AllTables(t: Entries) {
    forall k :: k in t ==> t[k].Table?
  }

  /** A table whose children are all tables needs no header of its own, unless asked for. */
  predicate WantsHeader(t: Entries, skipEmpty: bool) {
    !skipEmpty || !AllTables(t)
  }

  function PutValues(o: Out, docs: Docs, path: seq<string>, t: Entries, keys: seq<string>): Out
    requires forall k :: k in keys ==> k in t && t[k].Leaf?
    decreases |keys|
  {
    if keys == [] then o
    else
      var last := |keys| - 1;
      var o1 := PutValues(o, docs, path, t, keys[..last]);
      PutItem(if last > 0 then o1.Endline() else o1, docs, path + [keys[last]], t[keys[last]].value)
  }

  function PutTables(o: Out, docs: Docs, path: seq<string>, n: Node, keys: seq<string>, first: bool,
      skipEmpty: bool): Out
    requires n.Table? && forall k :: k in keys ==> k in n.entries && n.entries[k].Table?
    decreases n, 0, |keys|
  {
    if keys == [] then o
    else
      var last := |keys| - 1;
      var o1 := PutTables(o, docs, path, n, keys[..last], first, skipEmpty);
      PutTable(if last > 0 || !first then o1.Endline() else o1, docs, path + [keys[last]],
               n.entries[keys[last]], skipEmpty)
  }

  function PutTable(o: Out, docs: Docs, path: seq<string>, n: Node, skipEmpty: bool): Out
    requires n.Table?
    decreases n, 1, 0
  {
    var values, tables := ValueKeys(n.entries), TableKeys(n.entries);
    var o1 := if WantsHeader(n.entries, skipEmpty) then PutHeader(o, path) else o;
    var o2 := PutValues(o1, docs, path, n.entries, values);
    PutTables(o2, docs, path, n, tables, values == [], skipEmpty).Endline()
  }

  /** What the writer sends to a fresh stream. */
  function Write(n: Node, docs: Docs, skipEmpty: bool): string
    requires n.Table?
  {
    PutTable(Out("", false), docs, [], n, skipEmpty).text
  }

  // ---------- the writer ----------

  class Writer {
    var out: Out  // the stream and its line-end flag
    var path: seq<string>
    var skipEmptyTables: bool

    constructor ()
      ensures out == Out("", false) && path == [] && skipEmptyTables
    {
      out, path, skipEmptyTables := Out("", false), [], true;
    }

    method SetSkipEmptyTables(enable: bool)
      modifies this`skipEmptyTables
      ensures skipEmptyTables == enable
    {
      skipEmptyTables := enable;
    }

    method WriteText(s: string)
      modifies this`out
      ensures out == old(out).Put(s)
    {
      out := Out(out.text + s, false);
    }

    method Endline()
      modifies this`out
      ensures out == old(out).Endline()
    {
      if !out.naked {
        out := Out(out.text + "\n", true);
      }
    }

    method WriteIndent()
      modifies this`out
      ensures |path| > 1 ==> out == old(out).Put(Indent(path))
      ensures |path| <= 1 ==> out == old(out)
      ensures path == old(path)
    {
      var i := 1;
      ghost var before := out.text;
      while i < |path|
        invariant 1 <= i && (path == [] ==> i == 1) && (path != [] ==> i <= |path|)
        invariant i == 1 ==> out == old(out)
        invariant i > 1 ==> out.text == before + Tabs(i - 1) && !out.naked
      {
        TabsMore(i - 1);
        WriteText("\t");
        i := i + 1;
      }
    }

    /** Puts the comment sign after every line break, from left to right. */
    static method ReplaceLineBreaks(doc: string) returns (s: string)
      ensures s == CommentText(doc)
    {
      s := doc;
      var pos := 0;
      while pos < |s|
        invariant 0 <= pos <= |s|
        invariant s[..pos] + CommentText(s[pos..]) == CommentText(doc)
        decreases |s[pos..]|
      {
        ghost var rest := s[pos..];
        ghost var done := s[..pos];
        if s[pos] == '\n' {
          s := s[..pos] + "\n# " + s[pos + 1..];
          pos := pos + 3;
          assert s[..pos] == done + "\n# " && s[pos..] == rest[1..];
        } else {
          pos := pos + 1;
          assert s[..pos] == done + [rest[0]] && s[pos..] == rest[1..];
        }
      }
      assert s[..pos] == s;
    }

    method WriteQuoted(s: string)
      modifies this`out
      ensures out == old(out).Put(Quoted(s))
    {
      WriteText([QUOTE]);
      var escaped := EscapeString(s);
      WriteText(escaped);
      WriteText([QUOTE]);
      QuotedAppended(old(out.text), s);
    }

    method WritePathPart(k: string)
      modifies this`out
      ensures out == old(out).Put(KeyText(k))
    {
      if Bare(k) { WriteText(k); } else { WriteQuoted(k); }
    }

    /** The parts of the path, joined by dots. */
    method WritePath()
      requires path != []
      modifies this`out
      ensures out == old(out).Put(PathText(path))
    {
      ghost var before := out.text;
      var i := 0;
      while i < |path|
        invariant 0 <= i <= |path| && (i > 0 ==> !out.naked)
        invariant out.text == before + PathText(path[..i])
      {
        ghost var dot := if i > 0 then "." else "";
        ghost var done := out.text;
        if i > 0 { WriteText("."); }
        assert out.text == done + dot;
        WritePathPart(path[i]);
        PathTextSnoc(before, path, i, dot);
        i := i + 1;
      }
      assert path[..|path|] == path;
    }

    method WriteTableHeader()
      modifies this`out
      ensures out == PutHeader(old(out), path)
    {
      if path == [] { return; }
      WriteIndent();
      WriteText("\n");
      assert out == old(out).Put(Indent(path)).Put("\n");
      WriteText("[");
      WritePath();
      WriteText("]");
      Endline();
    }

    method WriteDoc(docs: Docs)
      modifies this`out
      ensures out == PutDoc(old(out), docs, path)
    {
      if path in docs {
        WriteText("\n# ");
        var doc := ReplaceLineBreaks(docs[path]);
        WriteText(doc);
        WriteText("\n");
      }
    }

    method WriteValue(v: Value)
      modifies this`out
      ensures out == old(out).Put(ValueText(v))
    {
      match v {
        case Str(s) => WriteQuoted(s);
        case Bool(b) => WriteText(if b then "true" else "false");
        case Int(n) => WriteText(IntText(n));
      }
    }

    method WriteTableItemHeader()
      requires path != []
      modifies this`out
      ensures out == PutItemHeader(old(out), path)
    {
      WriteIndent();
      WritePathPart(path[|path| - 1]);
      assert out == old(out).Put(Indent(path)).Put(KeyText(path[|path| - 1]));
      WriteText(" = ");
    }

    method VisitValue(docs: Docs, v: Value)
      requires path != []
      modifies this`out
      ensures out == PutItem(old(out), docs, path, v)
    {
      WriteDoc(docs);
      WriteTableItemHeader();
      WriteValue(v);
    }

    /** Sorts the keys of a table into values and tables. */
    static method SplitKeys(t: Entries) returns (values: seq<string>, tables: seq<string>)
      ensures values == ValueKeys(t) && tables == TableKeys(t)
    {
      var keys := Keys(t.Keys);
      KeysSorted(t.Keys);
      values, tables := [], [];
      for i := 0 to |keys|
        invariant values == Select(t, keys[..i], false) && tables == Select(t, keys[..i], true)
      {
        SelectSnoc(t, keys, i);
        if t[keys[i]].Table? {
          tables := tables + [keys[i]];
        } else {
          values := values + [keys[i]];
        }
      }
      assert keys[..|keys|] == keys;
    }

    method VisitTable(n: Node, docs: Docs)
      requires n.Table?
      modifies this`out, this`path
      ensures path == old(path)
      ensures out == PutTable(old(out), docs, path, n, skipEmptyTables)
      decreases n, 2
    {
      var allTables := AllTables(n.entries);
      if !skipEmptyTables || !allTables {
        WriteTableHeader();
      }
      var values, tables := SplitKeys(n.entries);
      VisitValues(n.entries, values, docs);
      VisitTables(n, tables, values == [], docs);
      Endline();
    }

    method EnterValue(t: Entries, k: string, separate: bool, docs: Docs)
      requires k in t && t[k].Leaf?
      modifies this`out, this`path
      ensures path == old(path)
      ensures out == PutItem(if separate then old(out).Endline() else old(out), docs, path + [k], t[k].value)
    {
      path := path + [k];
      if separate { Endline(); }
      VisitValue(docs, t[k].value);
      path := path[..|path| - 1];
    }

    method EnterTable(n: Node, k: string, separate: bool, docs: Docs)
      requires n.Table? && k in n.entries && n.entries[k].Table?
      modifies this`out, this`path
      ensures path == old(path)
      ensures out == PutTable(if separate then old(out).Endline() else old(out), docs, path + [k],
                              n.entries[k], skipEmptyTables)
      decreases n, 0
    {
      path := path + [k];
      if separate { Endline(); }
      VisitTable(n.entries[k], docs);
      path := path[..|path| - 1];
    }

    method VisitValues(t: Entries, values: seq<string>, docs: Docs)
      requires forall k :: k in values ==> k in t && t[k].Leaf?
      modifies this`out, this`path
      ensures path == old(path)
      ensures out == PutValues(old(out), docs, path, t, values)
    {
      ghost var home, o := path, out;
      for i := 0 to |values|
        invariant path == home
        invariant out == PutValues(o, docs, home, t, values[..i])
      {
        PutValuesSnoc(o, docs, home, t, values, i);
        EnterValue(t, values[i], i > 0, docs);
      }
      assert values[..|values|] == values;
    }

    method VisitTables(n: Node, tables: seq<string>, first: bool, docs: Docs)
      requires n.Table? && forall k :: k in tables ==> k in n.entries && n.entries[k].Table?
      modifies this`out, this`path
      ensures path == old(path)
      ensures out == PutTables(old(out), docs, path, n, tables, first, skipEmptyTables)
      decreases n, 1
    {
      ghost var home, o, skip := path, out, skipEmptyTables;
      for i := 0 to |tables|
        invariant path == home && skipEmptyTables == skip
        invariant out == PutTables(o, docs, home, n, tables[..i], first, skip)
      {
        PutTablesSnoc(o, docs, home, n, tables, first, skip, i);
        EnterTable(n, tables[i], i > 0 || !first, docs);
      }
      assert tables[..|tables|] == tables;
    }
  }

  lemma PathTextSnoc(before: string, path: seq<string>, i: nat, dot: string)
    requires i < |path| && dot == if i > 0 then "." else ""
    ensures before + PathText(path[..i + 1]) == ((before + PathText(path[..i])) + dot) + KeyText(path[i])
  {
    assert path[..i + 1][..i] == path[..i];
    Regroup(before, PathText(path[..i]), dot, KeyText(path[i]));
  }

  lemma QuotedAppended(text: string, s: string)
    ensures ((text + [QUOTE]) + Escape(s)) + [QUOTE] == text + Quoted(s)
  {
  }

  lemma Regroup(a: string, b: string, c: string, d: string)
    ensures a + (b + c + d) == ((a + b) + c) + d
  {
  }

  lemma PutValuesSnoc(o: Out, docs: Docs, path: seq<string>, t: Entries, keys: seq<string>, i: nat)
    requires i < |keys| && forall k :: k in keys ==> k in t && t[k].Leaf?
    ensures forall k :: k in keys[..i] ==> k in t && t[k].Leaf?
    ensures forall k :: k in keys[..i + 1] ==> k in t && t[k].Leaf?
    ensures var o1 := PutValues(o, docs, path, t, keys[..i]);
      PutValues(o, docs, path, t, keys[..i + 1])
      == PutItem(if i > 0 then o1.Endline() else o1, docs, path + [keys[i]], t[keys[i]].value)
  {
    assert keys[..i + 1][..i] == keys[..i];
  }

  lemma PutTablesSnoc(o: Out, docs: Docs, path: seq<string>, n: Node, keys: seq<string>, first: bool, skipEmpty: bool,
      i: nat)
    requires i < |keys| && n.Table? && forall k :: k in keys ==> k in n.entries && n.entries[k].Table?
    ensures forall k :: k in keys[..i] ==> k in n.entries && n.entries[k].Table?
    ensures forall k :: k in keys[..i + 1] ==> k in n.entries && n.entries[k].Table?
    ensures var o1 := PutTables(o, docs, path, n, keys[..i], first, skipEmpty);
      PutTables(o, docs, path, n, keys[..i + 1], first, skipEmpty)
      == PutTable(if i > 0 || !first then o1.Endline() else o1, docs, path + [keys[i]], n.entries[keys[i]], skipEmpty)
  {
    assert keys[..i + 1][..i] == keys[..i];
  }

  lemma {:induction false} TabsMore(n: nat)
    ensures Tabs(n) + "\t" == Tabs(n + 1)
  {
    if n > 0 { TabsMore(n - 1); }
  }

  /** Prints a tree with a fresh writer. */
  method Print(n: Node, docs: Docs, skipEmpty: bool) returns (text: string)
    requires n.Table?
    ensures text == Write(n, docs, skipEmpty)
  {
    var writer := new Writer();
    writer.SetSkipEmptyTables(skipEmpty);
    writer.VisitTable(n, docs);
    text := writer.out.text;
  }
}
