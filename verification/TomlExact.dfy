/** Which trees survive being written and parsed: exactly those that the format can express. */
module TomlExact {
  import opened Wrappers
  import opened TomlText
  import opened TomlTree
  import opened TomlParser
  import opened TomlWriter
  import opened TomlReading
  import opened TomlRebuild
  import opened TomlLines
  import opened TomlMerge
  import opened TomlRoundTrip

  // ---------- what lines put into a tree ----------

  function After(current: seq<string>, line: Line): seq<string> {
    if line.Header? then line.path else current
  }

  ghost predicate LineMakes(current: seq<string>, line: Line, q: seq<string>, k: Kind) {
    match line
    case Blank => false
    case Header(path) => q <= path && k == IsTable
    case Assign(path, v) => (q == current + path && k == Holds(v)) || (Above(q, current + path) && k == IsTable)
  }

  /** One of the lines puts `k` at path `q`. */
  ghost predicate Makes(current: seq<string>, lines: seq<Line>, q: seq<string>, k: Kind)
    decreases |lines|
  {
    lines != [] && (LineMakes(current, lines[0], q, k) || Makes(After(current, lines[0]), lines[1..], q, k))
  }

  function AfterAll(current: seq<string>, lines: seq<Line>): seq<string>
    decreases |lines|
  {
    if lines == [] then current else AfterAll(After(current, lines[0]), lines[1..])
  }

  lemma {:induction false} MakesConcat(current: seq<string>, a: seq<Line>, b: seq<Line>, q: seq<string>, k: Kind)
    ensures Makes(current, a + b, q, k) <==> Makes(current, a, q, k) || Makes(AfterAll(current, a), b, q, k)
    decreases |a|
  {
    if a == [] {
      assert a + b == b;
    } else {
      assert (a + b)[1..] == a[1..] + b;
      MakesConcat(After(current, a[0]), a[1..], b, q, k);
    }
  }

  /** What a run adds to a tree was put there by one of its lines. */
  lemma {:induction false} RunMakes(st: State, lines: seq<Line>, merge: Merge, q: seq<string>)
    requires WellFormed(lines) && !merge.Replace? && Exec(st, lines, merge).Some? && KindAt(st.root, q) == Absent
    ensures var k := KindAt(Exec(st, lines, merge).value.root, q);
      k == Absent || Makes(st.current, lines, q, k)
    decreases |lines|
  {
    if lines != [] {
      var next := ExecLine(st, lines[0], merge).value;
      match lines[0] {
        case Blank =>
        case Header(path) => OpenKinds(st.root, path, false, merge, q);
        case Assign(path, v) => AssignKinds(st.root, st.current + path, v, merge, q);
      }
      if KindAt(next.root, q) == Absent {
        RunMakes(next, lines[1..], merge, q);
      } else {
        RunKeeps(next, lines[1..], merge, q);
      }
    }
  }

  // ---------- back from the lines read to the lines written ----------

  function RereadKind(k: Kind): Option<Kind> {
    match k
    case Absent => None
    case IsTable => Some(IsTable)
    case Holds(v) => if RereadValue(v).Some? then Some(Holds(RereadValue(v).value)) else None
  }

  lemma {:induction false} RereadPrefix(path: seq<string>, n: nat)
    requires RereadPath(path).Some? && n <= |path|
    ensures RereadPath(path[..n]) == Some(RereadPath(path).value[..n])
  {
    if n > 0 {
      RereadPrefix(path[1..], n - 1);
      assert path[..n][1..] == path[1..][..n - 1];
      var first, rest := RereadKey(path[0]).value, RereadPath(path[1..]).value;
      assert ([first] + rest)[..n] == [first] + rest[..n - 1];
    }
  }

  lemma Regrouped(a: seq<string>, b: seq<string>, c: seq<string>)
    ensures (a + b) + c == a + (b + c)
  {
  }

  lemma RereadPathStep(path: seq<string>)
    requires path != [] && RereadPath(path[1..]).Some? && RereadKey(path[0]).Some?
    ensures RereadPath(path) == Some([RereadKey(path[0]).value] + RereadPath(path[1..]).value)
  {
  }

  lemma {:induction false} RereadPathConcat(a: seq<string>, b: seq<string>)
    requires RereadPath(a).Some? && RereadPath(b).Some?
    ensures RereadPath(a + b) == Some(RereadPath(a).value + RereadPath(b).value)
  {
    hide RereadKey;
    if a == [] {
      assert a + b == b && [] + RereadPath(b).value == RereadPath(b).value;
    } else {
      var first, rest, more := RereadKey(a[0]).value, RereadPath(a[1..]).value, RereadPath(b).value;
      RereadPathStep(a);
      hide RereadPath;
      assert (a + b)[1..] == a[1..] + b && (a + b)[0] == a[0];
      RereadPathConcat(a[1..], b);
      RereadPathStep(a + b);
      Regrouped([first], rest, more);
    }
  }

  lemma LineMapsBack(current: seq<string>, line: Line, q: seq<string>, k: Kind) returns (p: seq<string>, was: Kind)
    requires RereadPath(current).Some? && RereadLine(line).Some?
    requires LineMakes(RereadPath(current).value, RereadLine(line).value, q, k)
    ensures LineMakes(current, line, p, was) && RereadPath(p) == Some(q) && RereadKind(was) == Some(k)
  {
    match line {
      case Blank =>
      case Header(path) =>
        RereadPrefix(path, |q|);
        p, was := path[..|q|], IsTable;
        assert q == RereadPath(path).value[..|q|];
      case Assign(path, v) =>
        RereadPathConcat(current, path);
        RereadPrefix(current + path, |q|);
        p := (current + path)[..|q|];
        was := if |q| == |current + path| then Holds(v) else IsTable;
        assert q == RereadPath(current + path).value[..|q|];
    }
  }

  /** What a line that was read puts somewhere, the line that was written puts where that is read from. */
  lemma {:induction false} MapsBack(current: seq<string>, lines: seq<Line>, q: seq<string>, k: Kind)
      returns (p: seq<string>, was: Kind)
    requires RereadPath(current).Some? && Mapped(lines).Some?
    requires Makes(RereadPath(current).value, Mapped(lines).value, q, k)
    ensures Makes(current, lines, p, was) && RereadPath(p) == Some(q) && RereadKind(was) == Some(k)
    decreases |lines|
  {
    hide RereadPath, LineMakes;
    var read := RereadLine(lines[0]).value;
    assert Mapped(lines).value[1..] == Mapped(lines[1..]).value;
    if LineMakes(RereadPath(current).value, read, q, k) {
      p, was := LineMapsBack(current, lines[0], q, k);
    } else {
      p, was := MapsBack(After(current, lines[0]), lines[1..], q, k);
    }
  }

  // ---------- the lines of a tree ----------

  /** The tree has `k` at `p` when it is put at `path`. */
  ghost predicate InTree(n: Node, path: seq<string>, p: seq<string>, k: Kind)
    requires n.Table?
  {
    (p <= path && k == IsTable) || (path <= p && KindAt(n.entries, p[|path|..]) == k)
  }

  lemma InChild(n: Node, path: seq<string>, key: string, p: seq<string>, k: Kind)
    requires n.Table? && key in n.entries && n.entries[key].Table? && InTree(n.entries[key], path + [key], p, k)
    ensures InTree(n, path, p, k)
  {
    if path + [key] <= p {
      assert p[|path|..][1..] == p[|path| + 1..] && p[|path|..][0] == key;
    }
  }

  lemma {:induction false} ValuesInTree(n: Node, path: seq<string>, keys: seq<string>, p: seq<string>, k: Kind)
    requires n.Table? && forall x :: x in keys ==> x in n.entries && n.entries[x].Leaf?
    requires Makes(path, ValueLines(n.entries, keys), p, k)
    ensures InTree(n, path, p, k)
    decreases |keys|
  {
    var last := keys[|keys| - 1];
    var init, line := ValueLines(n.entries, keys[..|keys| - 1]), Assign([last], n.entries[last].value);
    MakesConcat(path, init, [line], p, k);
    ValuesStay(n.entries, path, keys[..|keys| - 1]);
    if Makes(path, init, p, k) {
      ValuesInTree(n, path, keys[..|keys| - 1], p, k);
    } else {
      assert [line][1..] == [] && LineMakes(path, line, p, k);
      if p == path + [last] { assert p[|path|..] == [last]; }
    }
  }

  lemma {:induction false} ValuesStay(t: Entries, current: seq<string>, keys: seq<string>)
    requires forall x :: x in keys ==> x in t && t[x].Leaf?
    ensures AfterAll(current, ValueLines(t, keys)) == current
    decreases |keys|
  {
    if keys != [] {
      var last := keys[|keys| - 1];
      ValuesStay(t, current, keys[..|keys| - 1]);
      AfterConcat(current, ValueLines(t, keys[..|keys| - 1]), [Assign([last], t[last].value)]);
    }
  }

  lemma {:induction false} AfterConcat(current: seq<string>, a: seq<Line>, b: seq<Line>)
    ensures AfterAll(current, a + b) == AfterAll(AfterAll(current, a), b)
    decreases |a|
  {
    if a == [] {
      assert a + b == b;
    } else {
      assert (a + b)[1..] == a[1..] + b;
      AfterConcat(After(current, a[0]), a[1..], b);
    }
  }

  lemma {:induction false} TablesInTree(current: seq<string>, path: seq<string>, n: Node, keys: seq<string>,
      skipEmpty: bool, p: seq<string>, k: Kind)
    requires n.Table? && forall x :: x in keys ==> x in n.entries && n.entries[x].Table?
    requires Makes(current, TablesLines(path, n, keys, skipEmpty), p, k)
    ensures InTree(n, path, p, k)
    decreases n, 0, |keys|
  {
    hide InTree;
    var last := keys[|keys| - 1];
    var init := TablesLines(path, n, keys[..|keys| - 1], skipEmpty);
    var more := TableLines(path + [last], n.entries[last], skipEmpty);
    MakesConcat(current, init, more, p, k);
    if Makes(current, init, p, k) {
      TablesInTree(current, path, n, keys[..|keys| - 1], skipEmpty, p, k);
    } else {
      LinesInTree(AfterAll(current, init), path + [last], n.entries[last], skipEmpty, p, k);
      InChild(n, path, last, p, k);
    }
  }

  /** The lines written for a tree put nothing anywhere that the tree does not have there. */
  lemma {:induction false} LinesInTree(current: seq<string>, path: seq<string>, n: Node, skipEmpty: bool,
      p: seq<string>, k: Kind)
    requires n.Table? && (path == [] ==> current == []) && Makes(current, TableLines(path, n, skipEmpty), p, k)
    ensures InTree(n, path, p, k)
    decreases n, 1, 0
  {
    var values, tables := ValueKeys(n.entries), TableKeys(n.entries);
    var header, items := HeaderLines(path, n.entries, skipEmpty), ValueLines(n.entries, values);
    var rest := TablesLines(path, n, tables, skipEmpty);
    MakesConcat(current, header + items, rest, p, k);
    MakesConcat(current, header, items, p, k);
    if Makes(AfterAll(current, header + items), rest, p, k) {
      TablesInTree(AfterAll(current, header + items), path, n, tables, skipEmpty, p, k);
    } else if Makes(current, header, p, k) {
      assert header == [Header(path)] && header[1..] == [];
    } else {
      HeaderFirst(current, path, n, skipEmpty);
      ValuesInTree(n, path, values, p, k);
    }
  }

  lemma HeaderFirst(current: seq<string>, path: seq<string>, n: Node, skipEmpty: bool)
    requires n.Table? && (path == [] ==> current == []) && ValueLines(n.entries, ValueKeys(n.entries)) != []
    ensures AfterAll(current, HeaderLines(path, n.entries, skipEmpty)) == path
  {
    var header := HeaderLines(path, n.entries, skipEmpty);
    if path != [] {
      assert ValueKeys(n.entries) != [];
      assert ValueKeys(n.entries)[0] in ValueKeys(n.entries);
      assert header == [Header(path)] && header[1..] == [];
    }
  }

  // ---------- a tree that comes back covers itself ----------

  lemma EmptyHasNothing(q: seq<string>)
    requires q != []
    ensures KindAt(map[], q) == Absent
  {
  }

  /** Whatever parsing a written tree gives, each part of it comes from a part of the tree. */
  lemma Origin(n: Node, docs: Docs, skipEmpty: bool, q: seq<string>) returns (p: seq<string>)
    requires n.Table? && Parse(Write(n, docs, skipEmpty), Strict).Parsed?
    requires KindAt(Parse(Write(n, docs, skipEmpty), Strict).state.root, q) != Absent
    ensures RereadPath(p) == Some(q)
    ensures RereadKind(KindAt(n.entries, p)) == Some(KindAt(Parse(Write(n, docs, skipEmpty), Strict).state.root, q))
  {
    if q == [] { return []; }
    var text, lines, start := Write(n, docs, skipEmpty), TableLines([], n, skipEmpty), State(map[], []);
    WrittenSays(n, docs, skipEmpty);
    ParsedReads(start, text, Strict);
    ReadThenExec(start, text, Strict);
    ExecNonBlank(start, ReadAll(text).value, Strict);
    EmptyHasNothing(q);
    RunMakes(start, Mapped(lines).value, Strict, q);
    var k;
    p, k := MapsBack([], lines, q, KindAt(Parse(text, Strict).state.root, q));
    LinesInTree([], [], n, skipEmpty, p, k);
    assert p[0..] == p;
  }

  /** All paths at which the tree has something. */
  ghost function Nodes(n: Node): set<seq<string>> {
    match n
    case Leaf(_) => {[]}
    case Table(t) => {[]} + set k, p | k in t && p in Nodes(t[k]) :: [k] + p
  }

  lemma {:induction false} NodesExactly(n: Node, p: seq<string>)
    requires n.Table?
    ensures p in Nodes(n) <==> KindAt(n.entries, p) != Absent
    decreases |p|
  {
    if p != [] {
      assert p == [p[0]] + p[1..];
      assert p in Nodes(n) <==> p[0] in n.entries && p[1..] in Nodes(n.entries[p[0]]) by {
        if p in Nodes(n) {
          var k, q :| k in n.entries && q in Nodes(n.entries[k]) && [k] + q == p;
          assert k == p[0] && q == p[1..];
        }
      }
      if p[0] in n.entries && n.entries[p[0]].Table? { NodesExactly(n.entries[p[0]], p[1..]); }
    }
  }

  // ---------- nothing can be read as something else if everything is there again ----------

  function PathWeight(path: seq<string>): nat {
    if path == [] then 0 else Weight(path[0]) + PathWeight(path[1..])
  }

  lemma {:induction false} RereadPathLighter(path: seq<string>)
    requires RereadPath(path).Some?
    ensures PathWeight(RereadPath(path).value) <= PathWeight(path)
    ensures !CleanPath(path) ==> PathWeight(RereadPath(path).value) < PathWeight(path)
  {
    if path != [] {
      RereadLighter(path[0]);
      RereadPathLighter(path[1..]);
      assert RereadPath(path).value[1..] == RereadPath(path[1..]).value;
      if !CleanPath(path) && Clean(path[0]) {
        assert !CleanPath(path[1..]) by {
          var i :| 0 <= i < |path| && !(path[i] != "" && Clean(path[i]));
          assert path[1..][i - 1] == path[i];
        }
      }
    }
  }

  ghost function Images(s: set<seq<string>>): set<seq<string>> {
    set p | p in s && RereadPath(p).Some? :: RereadPath(p).value
  }

  lemma {:induction false} ImagesSize(s: set<seq<string>>)
    ensures |Images(s)| <= |s|
  {
    if s != {} {
      var p :| p in s;
      ImagesSize(s - {p});
      assert Images(s) == Images(s - {p}) + if RereadPath(p).Some? then {RereadPath(p).value} else {};
    }
  }

  lemma SameSize(a: set<seq<string>>, b: set<seq<string>>)
    requires a <= b && |b| <= |a|
    ensures a == b
  {
    assert |b - a| == |b| - |a|;
  }

  ghost function NoLighter(s: set<seq<string>>, weight: nat): set<seq<string>> {
    set p | p in s && PathWeight(p) >= weight
  }

  /** The paths of `s` that are read as paths of `s`. */
  ghost function Staying(s: set<seq<string>>): set<seq<string>> {
    set p | p in s && RereadPath(p).Some? && RereadPath(p).value in s
  }

  lemma HeavyReached(s: set<seq<string>>, weight: nat)
    requires s <= Images(s)
    ensures NoLighter(s, weight) <= Images(Staying(NoLighter(s, weight)))
  {
    var heavy := NoLighter(s, weight);
    forall q | q in heavy
      ensures q in Images(Staying(heavy))
    {
      var p :| p in s && RereadPath(p).Some? && RereadPath(p).value == q;
      RereadPathLighter(p);
      assert p in Staying(heavy);
    }
  }

  lemma AllStay(s: set<seq<string>>)
    requires s <= Images(Staying(s))
    ensures Staying(s) == s
  {
    ImagesSize(Staying(s));
    assert |Images(Staying(s)) - s| == |Images(Staying(s))| - |s|;
    SameSize(Staying(s), s);
  }

  /** A finite set of paths that reading maps onto itself has clean paths only: reading makes others lighter,
      so the heaviest of them could not be reached. */
  lemma OntoItselfIsClean(s: set<seq<string>>, path: seq<string>)
    requires path in s && s <= Images(s)
    ensures CleanPath(path)
  {
    var heavy := NoLighter(s, PathWeight(path));
    HeavyReached(s, PathWeight(path));
    AllStay(heavy);
    assert path in heavy && path in Staying(heavy);
    RereadPathLighter(path);
  }

  lemma {:induction false} CleanNodesGood(n: Node)
    requires n.Table?
    requires forall p :: KindAt(n.entries, p) != Absent ==> CleanPath(p)
    requires forall p :: KindAt(n.entries, p).Holds? ==> GoodValue(KindAt(n.entries, p).value)
    ensures Good(n)
  {
    forall k | k in n.entries
      ensures k != "" && Clean(k) && Good(n.entries[k])
    {
      assert [k][1..] == [] && KindAt(n.entries, [k]) != Absent;
      assert CleanPath([k]) && [k][0] == k;
      if n.entries[k].Table? {
        forall p
          ensures KindAt(n.entries[k].entries, p) != Absent ==> CleanPath(p)
          ensures var kind := KindAt(n.entries[k].entries, p); kind.Holds? ==> GoodValue(kind.value)
        {
          assert ([k] + p)[1..] == p && KindAt(n.entries, [k] + p) == KindAt(n.entries[k].entries, p);
          assert forall i :: 0 <= i < |p| ==> ([k] + p)[i + 1] == p[i];
        }
        CleanNodesGood(n.entries[k]);
      } else {
        assert KindAt(n.entries, [k]) == Holds(n.entries[k].value);
      }
    }
  }

  /** Only good trees come back. */
  lemma ComesBackIsGood(n: Node, docs: Docs, skipEmpty: bool)
    requires n.Table? && Parse(Write(n, docs, skipEmpty), Strict).Parsed?
    requires Parse(Write(n, docs, skipEmpty), Strict).state.root == n.entries
    ensures Good(n)
  {
    forall q | q in Nodes(n)
      ensures q in Images(Nodes(n))
    {
      NodesExactly(n, q);
      var p := Origin(n, docs, skipEmpty, q);
      NodesExactly(n, p);
    }
    forall q | KindAt(n.entries, q) != Absent
      ensures CleanPath(q) && RereadKind(KindAt(n.entries, q)) == Some(KindAt(n.entries, q))
    {
      NodesExactly(n, q);
      OntoItselfIsClean(Nodes(n), q);
      var p := Origin(n, docs, skipEmpty, q);
      NodesExactly(n, p);
      OntoItselfIsClean(Nodes(n), p);
      CleanPathRead(p);
    }
    forall q | KindAt(n.entries, q).Holds?
      ensures GoodValue(KindAt(n.entries, q).value)
    {
      GoodValueRead(KindAt(n.entries, q).value);
    }
    CleanNodesGood(n);
  }

  /** For every tree and documentation: parsing the written tree succeeds and gives the same tree if and only
      if its keys are not empty, its keys and strings have no control characters other than \b \t \n \f \r,
      its integers fit 64 bits, and empty tables are written or there are none. */
  lemma RoundTripExactly(n: Node, docs: Docs, skipEmpty: bool)
    requires n.Table?
    ensures
      var r := Parse(Write(n, docs, skipEmpty), Strict);
      r.Parsed? && r.state.root == n.entries <==> Good(n) && (!skipEmpty || NoEmptyTable(n))
  {
    var r := Parse(Write(n, docs, skipEmpty), Strict);
    if r.Parsed? && r.state.root == n.entries { ComesBackIsGood(n, docs, skipEmpty); }
    if Good(n) {
      RoundTrip(n, docs, skipEmpty);
      KeptExactly(n, skipEmpty);
      assert n == Table(n.entries) && Kept(n, skipEmpty) == Table(Kept(n, skipEmpty).entries);
    }
  }
}
