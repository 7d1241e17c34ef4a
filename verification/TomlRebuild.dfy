/** Carrying out the lines of a written tree builds that tree again. */
module TomlRebuild {
  import opened Wrappers
  import opened TomlTree
  import opened TomlWriter

  // ---------- what a written tree says ----------

  function ValueLines(t: Entries, keys: seq<string>): (lines: seq<Line>)
    requires forall k :: k in keys ==> k in t && t[k].Leaf?
    ensures WellFormed(lines)
  {
    if keys == [] then []
    else
      var last := |keys| - 1;
      ValueLines(t, keys[..last]) + [Assign([keys[last]], t[keys[last]].value)]
  }

  function TablesLines(path: seq<string>, n: Node, keys: seq<string>, skipEmpty: bool): (lines: seq<Line>)
    requires n.Table? && forall k :: k in keys ==> k in n.entries && n.entries[k].Table?
    ensures WellFormed(lines)
    decreases n, 0, |keys|
  {
    if keys == [] then []
    else
      var last := |keys| - 1;
      TablesLines(path, n, keys[..last], skipEmpty) + TableLines(path + [keys[last]], n.entries[keys[last]], skipEmpty)
  }

  function HeaderLines(path: seq<string>, t: Entries, skipEmpty: bool): (lines: seq<Line>)
    ensures WellFormed(lines)
  {
    if path != [] && WantsHeader(t, skipEmpty) then [Header(path)] else []
  }

  /** Header first if wanted, then the values, then the tables. */
  function TableLines(path: seq<string>, n: Node, skipEmpty: bool): (lines: seq<Line>)
    requires n.Table?
    ensures WellFormed(lines)
    decreases n, 1, 0
  {
    HeaderLines(path, n.entries, skipEmpty) + ValueLines(n.entries, ValueKeys(n.entries))
    + TablesLines(path, n, TableKeys(n.entries), skipEmpty)
  }

  // ---------- trees at a path ----------

  /** No table or value at `path` yet, and no value on the way to it. */
  ghost predicate Vacant(t: Entries, path: seq<string>)
    decreases |path|
  {
    if path == [] then t == map[]
    else path[0] !in t || (|path| > 1 && t[path[0]].Table? && Vacant(t[path[0]].entries, path[1..]))
  }

  function SubTable(t: Entries, k: string): Entries {
    if k in t && t[k].Table? then t[k].entries else map[]
  }

  /** `t` with the table `e` at `path`. */
  function SetAt(t: Entries, path: seq<string>, e: Entries): Entries
    decreases |path|
  {
    if path == [] then e else t[path[0] := Table(SetAt(SubTable(t, path[0]), path[1..], e))]
  }

  /** A table that was neither given a header nor any content is not there at all. */
  function Grown(t: Entries, path: seq<string>, e: Entries, headed: bool): Entries {
    if headed || e != map[] then SetAt(t, path, e) else t
  }

  lemma {:induction false} OpenFresh(t: Entries, path: seq<string>, inserted: bool)
    requires path != [] && Vacant(t, path)
    ensures OpenAt(t, path, inserted, Strict) == Some(SetAt(t, path, map[]))
    decreases |path|
  {
    if |path| == 1 {
      assert OpenAt(map[], path[1..], true, Strict) == Some(map[]);
    } else if path[0] in t {
      OpenFresh(t[path[0]].entries, path[1..], inserted);
    } else {
      OpenFresh(map[], path[1..], true);
    }
  }

  lemma {:induction false} AssignFresh(t: Entries, path: seq<string>, e: Entries, k: string, v: Value)
    requires k !in e
    ensures AssignAt(SetAt(t, path, e), path + [k], v, Strict) == Some(SetAt(t, path, e[k := Leaf(v)]))
    decreases |path|
  {
    if path == [] {
      assert path + [k] == [k];
    } else {
      AssignFresh(SubTable(t, path[0]), path[1..], e, k, v);
      assert (path + [k])[1..] == path[1..] + [k];
      var before, after := SetAt(t, path, e), SetAt(t, path, e[k := Leaf(v)]);
      assert before[path[0] := after[path[0]]] == after;
    }
  }

  lemma {:induction false} VacantChild(t: Entries, path: seq<string>, k: string)
    requires Vacant(t, path)
    ensures Vacant(t, path + [k])
    decreases |path|
  {
    if path != [] {
      assert (path + [k])[1..] == path[1..] + [k];
      if path[0] in t { VacantChild(t[path[0]].entries, path[1..], k); }
    }
  }

  lemma {:induction false} VacantInSet(t: Entries, path: seq<string>, e: Entries, k: string)
    requires k !in e
    ensures Vacant(SetAt(t, path, e), path + [k])
    decreases |path|
  {
    if path != [] {
      assert (path + [k])[1..] == path[1..] + [k];
      VacantInSet(SubTable(t, path[0]), path[1..], e, k);
    }
  }

  lemma {:induction false} SetChild(t: Entries, path: seq<string>, e: Entries, k: string, sub: Entries)
    requires k !in e
    ensures SetAt(SetAt(t, path, e), path + [k], sub) == SetAt(t, path, e[k := Table(sub)])
    decreases |path|
  {
    if path == [] {
      assert [k][1..] == [];
    } else {
      assert (path + [k])[1..] == path[1..] + [k];
      SetChild(SubTable(t, path[0]), path[1..], e, k, sub);
    }
  }

  lemma {:induction false} SetVacantChild(t: Entries, path: seq<string>, k: string, sub: Entries)
    requires Vacant(t, path)
    ensures SetAt(t, path + [k], sub) == SetAt(t, path, map[k := Table(sub)])
    decreases |path|
  {
    if path == [] {
      assert [k][1..] == [];
    } else {
      assert (path + [k])[1..] == path[1..] + [k];
      SetVacantChild(SubTable(t, path[0]), path[1..], k, sub);
    }
  }

  lemma GrownVacant(t: Entries, path: seq<string>, e: Entries, headed: bool, k: string)
    requires Vacant(t, path) && k !in e
    ensures Vacant(Grown(t, path, e, headed), path + [k])
  {
    VacantChild(t, path, k);
    VacantInSet(t, path, e, k);
  }

  lemma GrowChild(t: Entries, path: seq<string>, e: Entries, headed: bool, k: string, sub: Entries, subHeaded: bool)
    requires Vacant(t, path) && k !in e
    ensures Grown(Grown(t, path, e, headed), path + [k], sub, subHeaded)
      == Grown(t, path, if subHeaded || sub != map[] then e[k := Table(sub)] else e, headed)
  {
    if subHeaded || sub != map[] {
      assert k in e[k := Table(sub)];
      SetChild(t, path, e, k, sub);
      SetVacantChild(t, path, k, sub);
      if e == map[] { assert e[k := Table(sub)] == map[k := Table(sub)]; }
    }
  }

  // ---------- tables without any value ----------

  /** A table with no value anywhere beneath it. */
  predicate Leafless(n: Node) {
    n.Table? && forall k :: k in n.entries ==> Leafless(n.entries[k])
  }

  predicate Dropped(n: Node, skipEmpty: bool) {
    skipEmpty && Leafless(n)
  }

  /** The tree without the tables that the writer leaves out. */
  function Kept(n: Node, skipEmpty: bool): (kept: Node)
    ensures kept.Table? <==> n.Table?
  {
    match n
    case Leaf(_) => n
    case Table(t) => Table(map k | k in t && !Dropped(t[k], skipEmpty) :: Kept(t[k], skipEmpty))
  }

  /** A table that is dropped asks for no header and keeps nothing. */
  lemma DroppedIsEmpty(n: Node)
    requires Leafless(n)
    ensures !WantsHeader(n.entries, true) && Kept(n, true).entries == map[]
  {
    var t, kept := n.entries, Kept(n, true).entries;
    forall k | k in t
      ensures Leafless(t[k]) && t[k].Table? && k !in kept
    {
      assert Leafless(t[k]);
    }
    forall k
      ensures k !in kept
    {
      if k in t { assert Leafless(t[k]); }
    }
    assert kept == map[];
  }

  /** A table that is not dropped has a child that is kept. */
  lemma UndroppedKeeps(n: Node, k: string)
    requires n.Table? && k in n.entries && !Leafless(n.entries[k])
    ensures k in Kept(n, true).entries
  {
    assert !Dropped(n.entries[k], true);
  }

  lemma DroppedExactly(n: Node, skipEmpty: bool)
    requires n.Table?
    ensures Dropped(n, skipEmpty) <==> !WantsHeader(n.entries, skipEmpty) && Kept(n, skipEmpty).entries == map[]
  {
    hide Kept;
    if !skipEmpty {
      assert WantsHeader(n.entries, skipEmpty);
    } else if Leafless(n) {
      DroppedIsEmpty(n);
    } else {
      var k :| k in n.entries && !Leafless(n.entries[k]);
      UndroppedKeeps(n, k);
    }
  }

  // ---------- carrying the lines out ----------

  function Leaves(t: Entries, keys: seq<string>): Entries
    requires forall k :: k in keys ==> k in t
  {
    map k | k in keys :: t[k]
  }

  function KeptTables(n: Node, keys: seq<string>, skipEmpty: bool): Entries
    requires n.Table? && forall k :: k in keys ==> k in n.entries
  {
    map k | k in keys && !Dropped(n.entries[k], skipEmpty) :: Kept(n.entries[k], skipEmpty)
  }

  ghost predicate Distinct(keys: seq<string>) {
    forall i, j :: 0 <= i < j < |keys| ==> keys[i] != keys[j]
  }

  lemma DistinctInit(keys: seq<string>)
    requires Distinct(keys) && keys != []
    ensures Distinct(keys[..|keys| - 1]) && keys[|keys| - 1] !in keys[..|keys| - 1]
    ensures keys == keys[..|keys| - 1] + [keys[|keys| - 1]]
  {
  }

  lemma TableKeysDistinct(t: Entries, tables: bool)
    ensures Distinct(ValueKeys(t)) && Distinct(TableKeys(t))
  {
    KeysSorted(t.Keys);
    forall i, j | 0 <= i < j < |Keys(t.Keys)|
      ensures Keys(t.Keys)[i] != Keys(t.Keys)[j]
    {
      BeforeTotal(Keys(t.Keys)[i], Keys(t.Keys)[j]);
    }
    SelectDistinct(t, Keys(t.Keys), false);
    SelectDistinct(t, Keys(t.Keys), true);
  }

  lemma ExecOne(st: State, line: Line)
    requires line.Assign? ==> line.path != []
    ensures Exec(st, [line], Strict) == ExecLine(st, line, Strict)
  {
    assert [line][1..] == [];
  }

  lemma ExecAssign(t: Entries, path: seq<string>, values: Entries, init: seq<string>, k: string)
    requires k !in init && k in values && values[k].Leaf? && forall x :: x in init ==> x in values
    ensures Exec(State(SetAt(t, path, Leaves(values, init)), path), [Assign([k], values[k].value)], Strict)
      == Some(State(SetAt(t, path, Leaves(values, init + [k])), path))
  {
    var line := Assign([k], values[k].value);
    ExecOne(State(SetAt(t, path, Leaves(values, init)), path), line);
    AssignFresh(t, path, Leaves(values, init), k, values[k].value);
    assert Leaves(values, init + [k]) == Leaves(values, init)[k := Leaf(values[k].value)];
  }

  lemma {:induction false} ExecValues(t: Entries, path: seq<string>, values: Entries, keys: seq<string>)
    requires Distinct(keys) && forall k :: k in keys ==> k in values && values[k].Leaf?
    ensures Exec(State(SetAt(t, path, map[]), path), ValueLines(values, keys), Strict)
      == Some(State(SetAt(t, path, Leaves(values, keys)), path))
    decreases |keys|
  {
    var start := State(SetAt(t, path, map[]), path);
    if keys == [] {
      assert Leaves(values, keys) == map[];
    } else {
      var last := |keys| - 1;
      var k, init := keys[last], keys[..last];
      var v := values[k].value;
      DistinctInit(keys);
      ExecValues(t, path, values, init);
      ExecConcat(start, ValueLines(values, init), [Assign([k], v)], Strict);
      ExecAssign(t, path, values, init, k);
    }
  }

  lemma KeptTablesSnoc(n: Node, init: seq<string>, k: string, skipEmpty: bool, e: Entries)
    requires n.Table? && (forall x :: x in init + [k] ==> x in n.entries && n.entries[x].Table?) && k !in init
    ensures var sub := n.entries[k];
      var before := e + KeptTables(n, init, skipEmpty);
      e + KeptTables(n, init + [k], skipEmpty)
      == if WantsHeader(sub.entries, skipEmpty) || Kept(sub, skipEmpty).entries != map[]
         then before[k := Table(Kept(sub, skipEmpty).entries)] else before
  {
    hide Kept, WantsHeader, Leafless;
    var sub := n.entries[k];
    DroppedExactly(sub, skipEmpty);
    if Dropped(sub, skipEmpty) {
      assert KeptTables(n, init + [k], skipEmpty) == KeptTables(n, init, skipEmpty);
    } else {
      assert Kept(sub, skipEmpty) == Table(Kept(sub, skipEmpty).entries);
      assert KeptTables(n, init + [k], skipEmpty) == KeptTables(n, init, skipEmpty)[k := Kept(sub, skipEmpty)];
    }
  }

  /** The tables beneath `path`, after its header and values, whatever table was current before. */
  lemma {:induction false} ExecTables(t: Entries, current: seq<string>, path: seq<string>, n: Node, keys: seq<string>,
      e: Entries, headed: bool, skipEmpty: bool)
    requires n.Table? && Vacant(t, path) && Distinct(keys)
    requires forall k :: k in keys ==> k in n.entries && n.entries[k].Table? && k !in e
    ensures var end := Exec(State(Grown(t, path, e, headed), current), TablesLines(path, n, keys, skipEmpty), Strict);
      end.Some? && end.value.root == Grown(t, path, e + KeptTables(n, keys, skipEmpty), headed)
    decreases n, 0, |keys|
  {
    var start := State(Grown(t, path, e, headed), current);
    if keys == [] {
      assert e + KeptTables(n, keys, skipEmpty) == e;
    } else {
      var last := |keys| - 1;
      var k, init := keys[last], keys[..last];
      DistinctInit(keys);
      ExecTables(t, current, path, n, init, e, headed, skipEmpty);
      ExecConcat(start, TablesLines(path, n, init, skipEmpty), TableLines(path + [k], n.entries[k], skipEmpty), Strict);
      var mid := Exec(start, TablesLines(path, n, init, skipEmpty), Strict).value;
      var so := e + KeptTables(n, init, skipEmpty);
      assert k !in so;
      GrownVacant(t, path, so, headed, k);
      ExecTable(mid.root, mid.current, path + [k], n.entries[k], skipEmpty);
      GrowChild(t, path, so, headed, k, Kept(n.entries[k], skipEmpty).entries,
                WantsHeader(n.entries[k].entries, skipEmpty));
      KeptTablesSnoc(n, init, k, skipEmpty, e);
    }
  }

  lemma ExecHead(t: Entries, current: seq<string>, path: seq<string>, n: Node, skipEmpty: bool)
    requires n.Table? && Vacant(t, path) && (path == [] ==> current == [])
    ensures var values := ValueKeys(n.entries);
      var lines := HeaderLines(path, n.entries, skipEmpty) + ValueLines(n.entries, values);
      var end := Exec(State(t, current), lines, Strict);
      end.Some? && end.value.root == Grown(t, path, Leaves(n.entries, values), WantsHeader(n.entries, skipEmpty))
  {
    var header, values := HeaderLines(path, n.entries, skipEmpty), ValueKeys(n.entries);
    var lines := ValueLines(n.entries, values);
    ExecConcat(State(t, current), header, lines, Strict);
    if WantsHeader(n.entries, skipEmpty) {
      if path != [] {
        ExecOne(State(t, current), Header(path));
        OpenFresh(t, path, false);
      }
      TableKeysDistinct(n.entries, false);
      ExecValues(t, path, n.entries, values);
    } else {
      assert forall k :: k !in values;
      assert values == [] && Leaves(n.entries, values) == map[];
    }
  }

  lemma KeptSplit(n: Node, skipEmpty: bool)
    requires n.Table?
    ensures Leaves(n.entries, ValueKeys(n.entries)) + KeptTables(n, TableKeys(n.entries), skipEmpty)
      == Kept(n, skipEmpty).entries
  {
  }

  /** Where nothing was before, the lines of a table leave exactly the kept part of the table. */
  lemma {:induction false} ExecTable(t: Entries, current: seq<string>, path: seq<string>, n: Node, skipEmpty: bool)
    requires n.Table? && Vacant(t, path) && (path == [] ==> current == [])
    ensures var end := Exec(State(t, current), TableLines(path, n, skipEmpty), Strict);
      end.Some? && end.value.root == Grown(t, path, Kept(n, skipEmpty).entries, WantsHeader(n.entries, skipEmpty))
    decreases n, 1, 0
  {
    var values, tables := ValueKeys(n.entries), TableKeys(n.entries);
    var head := HeaderLines(path, n.entries, skipEmpty) + ValueLines(n.entries, values);
    ExecHead(t, current, path, n, skipEmpty);
    var mid := Exec(State(t, current), head, Strict).value;
    ExecConcat(State(t, current), head, TablesLines(path, n, tables, skipEmpty), Strict);
    TableKeysDistinct(n.entries, true);
    ExecTables(t, mid.current, path, n, tables, Leaves(n.entries, values),
               WantsHeader(n.entries, skipEmpty), skipEmpty);
    KeptSplit(n, skipEmpty);
  }

  // ---------- when nothing is dropped ----------

  /** Every table beneath this one holds something. */
  predicate NoEmptyTable(n: Node) {
    n.Table? ==> forall k :: k in n.entries ==> n.entries[k] != Table(map[]) && NoEmptyTable(n.entries[k])
  }

  lemma EmptyOrNot(t: Entries)
    ensures t == map[] || exists k :: k in t
  {
    if forall k :: k !in t { assert t == map[]; }
  }

  lemma {:induction false} LeaflessHasEmpty(n: Node)
    requires Leafless(n) && n != Table(map[])
    ensures !NoEmptyTable(n)
  {
    EmptyOrNot(n.entries);
    var k :| k in n.entries;
    if n.entries[k] != Table(map[]) { LeaflessHasEmpty(n.entries[k]); }
  }

  lemma {:induction false} KeptAll(n: Node, skipEmpty: bool)
    requires !skipEmpty || NoEmptyTable(n)
    ensures Kept(n, skipEmpty) == n
  {
    if n.Table? {
      forall k | k in n.entries
        ensures !Dropped(n.entries[k], skipEmpty) && Kept(n.entries[k], skipEmpty) == n.entries[k]
      {
        KeptAll(n.entries[k], skipEmpty);
        if Dropped(n.entries[k], skipEmpty) { LeaflessHasEmpty(n.entries[k]); }
      }
      assert Kept(n, skipEmpty).entries == n.entries;
    }
  }

  /** Nothing is dropped if and only if empty tables are written, or there are none. */
  lemma {:induction false} KeptExactly(n: Node, skipEmpty: bool)
    ensures Kept(n, skipEmpty) == n <==> !skipEmpty || NoEmptyTable(n)
  {
    if !skipEmpty || NoEmptyTable(n) {
      KeptAll(n, skipEmpty);
    } else {
      var k :| k in n.entries && (n.entries[k] == Table(map[]) || !NoEmptyTable(n.entries[k]));
      KeptExactly(n.entries[k], skipEmpty);
      if n.entries[k] == Table(map[]) {
        assert Leafless(n.entries[k]);
        assert k !in Kept(n, skipEmpty).entries;
      } else if k in Kept(n, skipEmpty).entries {
        assert Kept(n, skipEmpty).entries[k] == Kept(n.entries[k], skipEmpty);
      }
    }
  }
}
