/** Command-line overrides on top of a configuration file. */
module TomlMerge {
  import opened Wrappers
  import opened Sequences
  import opened TomlTree
  import opened TomlText
  import opened TomlParser

  /** What a tree has at a path. */
  datatype Kind = Absent | IsTable | Holds(value: Value)

  function KindAt(t: Entries, p: seq<string>): Kind
    decreases |p|
  {
    if p == [] then IsTable
    else if p[0] !in t then Absent
    else match t[p[0]]
      case Leaf(v) => if |p| == 1 then Holds(v) else Absent
      case Table(sub) => KindAt(sub, p[1..])
  }

  /** `q` is a proper prefix of `p`. */
  predicate Above(q: seq<string>, p: seq<string>) { q < p }

  // ---------- one operation, path by path ----------

  /** Some table the walk to `path` needs is a leaf. */
  ghost predicate Blocked(t: Entries, path: seq<string>) {
    exists q :: Above(q, path) && KindAt(t, q).Holds?
  }

  lemma BlockedStep(t: Entries, path: seq<string>, e: Entries)
    requires path != [] && ((path[0] in t && t[path[0]] == Table(e)) || (path[0] !in t && e == map[]))
    ensures Blocked(t, path) <==> Blocked(e, path[1..])
  {
    if Blocked(t, path) {
      var q :| Above(q, path) && KindAt(t, q).Holds?;
      assert q != [] && Above(q[1..], path[1..]) && KindAt(e, q[1..]).Holds?;
    }
    if q :| Above(q, path[1..]) && KindAt(e, q).Holds? {
      assert e != map[];
      assert ([path[0]] + q)[1..] == q;
      assert Above([path[0]] + q, path) && KindAt(t, [path[0]] + q).Holds?;
    }
  }

  lemma BlockedByLeaf(t: Entries, path: seq<string>)
    requires |path| > 1 && path[0] in t && t[path[0]].Leaf?
    ensures Blocked(t, path)
  {
    assert Above(path[..1], path) && KindAt(t, path[..1]).Holds?;
  }

  lemma NotBlockedShort(t: Entries, path: seq<string>)
    requires |path| <= 1
    ensures !Blocked(t, path)
  {
    forall q | Above(q, path)
      ensures !KindAt(t, q).Holds?
    {
      assert q == [];
    }
  }

  /** Setting a key succeeds unless a leaf is in the way or, in strict mode, it is there already. */
  lemma {:induction false} AssignSucceeds(t: Entries, path: seq<string>, v: Value, merge: Merge)
    requires path != [] && !merge.Replace?
    ensures AssignAt(t, path, v, merge).Some? <==> !Blocked(t, path) && (merge.Strict? ==> KindAt(t, path) == Absent)
    decreases |path|
  {
    var k := path[0];
    if |path| == 1 {
      NotBlockedShort(t, path);
    } else if k in t && t[k].Leaf? {
      BlockedByLeaf(t, path);
    } else {
      var e := if k in t then t[k].entries else map[];
      BlockedStep(t, path, e);
      AssignSucceeds(e, path[1..], v, merge);
    }
  }

  lemma {:induction false} AssignKinds(t: Entries, path: seq<string>, v: Value, merge: Merge, q: seq<string>)
    requires path != [] && !merge.Replace? && AssignAt(t, path, v, merge).Some?
    ensures KindAt(AssignAt(t, path, v, merge).value, q) ==
      if q == path && KindAt(t, q) == Absent then Holds(v) else if Above(q, path) then IsTable else KindAt(t, q)
    ensures Above(q, path) ==> !KindAt(t, q).Holds?
    decreases |path|
  {
    AssignSucceeds(t, path, v, merge);
    if q != [] && q[0] == path[0] {
      if |path| > 1 {
        var e := if path[0] in t then t[path[0]].entries else map[];
        AssignKinds(e, path[1..], v, merge, q[1..]);
        assert q == path <==> q[1..] == path[1..];
      } else if |q| > 1 {
        assert path[0] !in t ==> KindAt(t, q) == Absent;
      }
    }
  }

  /** An assignment that replaces: the path holds the new value whatever was there, with nothing below it any more. */
  lemma {:induction false} ReplaceKinds(t: Entries, path: seq<string>, v: Value, q: seq<string>)
    requires path != [] && AssignAt(t, path, v, Replace).Some?
    ensures KindAt(AssignAt(t, path, v, Replace).value, q) ==
      if q == path then Holds(v) else if Above(q, path) then IsTable
      else if Above(path, q) then Absent else KindAt(t, q)
    decreases |path|
  {
    if q != [] && q[0] == path[0] {
      if |path| > 1 {
        var e := if path[0] in t then t[path[0]].entries else map[];
        ReplaceKinds(e, path[1..], v, q[1..]);
        assert q == path <==> q[1..] == path[1..];
        assert Above(q, path) <==> Above(q[1..], path[1..]);
        assert Above(path, q) <==> Above(path[1..], q[1..]);
      } else if |q| > 1 {
        assert path <= q;
      }
    }
  }

  /** Opening a table succeeds unless a leaf is in the way or, in strict mode, it may not be reopened. */
  lemma {:induction false} OpenKinds(t: Entries, path: seq<string>, inserted: bool, merge: Merge, q: seq<string>)
    requires OpenAt(t, path, inserted, merge).Some?
    ensures KindAt(OpenAt(t, path, inserted, merge).value, q) == if q <= path then IsTable else KindAt(t, q)
    ensures q <= path ==> !KindAt(t, q).Holds?
    decreases |path|
  {
    if path != [] && q != [] && q[0] == path[0] {
      var e := if path[0] in t then t[path[0]].entries else map[];
      OpenKinds(e, path[1..], inserted || path[0] !in t, merge, q[1..]);
    }
  }

  lemma {:induction false} OpenSucceeds(t: Entries, path: seq<string>, inserted: bool)
    requires !Blocked(t, path) && !KindAt(t, path).Holds?
    ensures OpenAt(t, path, inserted, Ignore).Some?
    decreases |path|
  {
    if path != [] {
      var k := path[0];
      if k in t && t[k].Leaf? {
        if |path| > 1 { BlockedByLeaf(t, path); }
      } else {
        var e := if k in t then t[k].entries else map[];
        BlockedStep(t, path, e);
        OpenSucceeds(e, path[1..], inserted || k !in t);
      }
    }
  }

  // ---------- merging a whole file into the overrides ----------

  /** The override's value where it has one, else the file's; tables where either has one. */
  function OverlayKind(o: Kind, f: Kind): Kind {
    if o.Holds? then o else if f.Holds? then f else if o.IsTable? || f.IsTable? then IsTable else Absent
  }

  ghost predicate IsOverlay(o: Entries, f: Entries, m: Entries) {
    forall p :: KindAt(m, p) == OverlayKind(KindAt(o, p), KindAt(f, p))
  }

  predicate Clash(a: Kind, b: Kind) { (a.Holds? && b.IsTable?) || (a.IsTable? && b.Holds?) }

  /** No path is a table in one tree and a value in the other. */
  ghost predicate Compatible(o: Entries, f: Entries) {
    forall p :: !Clash(KindAt(o, p), KindAt(f, p))
  }

  /** One line keeps what is there: tables always, and in strict mode everything. */
  lemma StepKeeps(st: State, line: Line, merge: Merge, q: seq<string>)
    requires (line.Assign? ==> line.path != []) && !merge.Replace? && ExecLine(st, line, merge).Some?
    ensures KindAt(st.root, q) != Absent ==> KindAt(ExecLine(st, line, merge).value.root, q) == KindAt(st.root, q)
  {
    match line
    case Blank =>
    case Header(path) => OpenKinds(st.root, path, false, merge, q);
    case Assign(path, v) => AssignKinds(st.root, st.current + path, v, merge, q);
  }

  lemma {:induction false} RunKeeps(st: State, lines: seq<Line>, merge: Merge, q: seq<string>)
    requires WellFormed(lines) && !merge.Replace? && Exec(st, lines, merge).Some?
    ensures KindAt(st.root, q) != Absent ==> KindAt(Exec(st, lines, merge).value.root, q) == KindAt(st.root, q)
    decreases |lines|
  {
    if lines != [] {
      StepKeeps(st, lines[0], merge, q);
      RunKeeps(ExecLine(st, lines[0], merge).value, lines[1..], merge, q);
    }
  }

  // ---------- what merging does, and when it is refused ----------

  /** What the overrides have stays as it is; the file adds what it has elsewhere. */
  ghost predicate IsLayered(o: Entries, f: Entries, m: Entries) {
    forall p :: KindAt(m, p) == if KindAt(o, p) != Absent then KindAt(o, p) else KindAt(f, p)
  }

  /** Some path is a value in the overrides and a table in the file. */
  ghost predicate InTheWay(o: Entries, f: Entries) {
    exists p :: KindAt(o, p).Holds? && KindAt(f, p).IsTable?
  }

  lemma AssignLayers(o: Entries, f: Entries, m: Entries, path: seq<string>, v: Value, merge: Merge)
    requires IsLayered(o, f, m) && path != [] && !merge.Replace? && AssignAt(f, path, v, merge).Some?
    requires !InTheWay(o, AssignAt(f, path, v, merge).value)
    ensures AssignAt(m, path, v, Ignore).Some?
    ensures IsLayered(o, AssignAt(f, path, v, merge).value, AssignAt(m, path, v, Ignore).value)
  {
    var f' := AssignAt(f, path, v, merge).value;
    forall q | Above(q, path)
      ensures !KindAt(m, q).Holds?
    {
      AssignKinds(f, path, v, merge, q);
    }
    AssignSucceeds(m, path, v, Ignore);
    AssignSucceeds(f, path, v, merge);
    var m' := AssignAt(m, path, v, Ignore).value;
    forall p
      ensures KindAt(m', p) == if KindAt(o, p) != Absent then KindAt(o, p) else KindAt(f', p)
    {
      AssignKinds(f, path, v, merge, p);
      AssignKinds(m, path, v, Ignore, p);
      assert !(KindAt(o, p).Holds? && KindAt(f', p).IsTable?);
    }
  }

  lemma OpenLayers(o: Entries, f: Entries, m: Entries, path: seq<string>, merge: Merge)
    requires IsLayered(o, f, m) && OpenAt(f, path, false, merge).Some?
    requires !InTheWay(o, OpenAt(f, path, false, merge).value)
    ensures OpenAt(m, path, false, Ignore).Some?
    ensures IsLayered(o, OpenAt(f, path, false, merge).value, OpenAt(m, path, false, Ignore).value)
  {
    var f' := OpenAt(f, path, false, merge).value;
    forall q | q <= path
      ensures !KindAt(m, q).Holds?
    {
      OpenKinds(f, path, false, merge, q);
    }
    OpenSucceeds(m, path, false);
    var m' := OpenAt(m, path, false, Ignore).value;
    forall p
      ensures KindAt(m', p) == if KindAt(o, p) != Absent then KindAt(o, p) else KindAt(f', p)
    {
      OpenKinds(f, path, false, merge, p);
      OpenKinds(m, path, false, Ignore, p);
      assert !(KindAt(o, p).Holds? && KindAt(f', p).IsTable?);
    }
  }

  lemma NotYetInTheWay(o: Entries, f: State, lines: seq<Line>, merge: Merge)
    requires WellFormed(lines) && !merge.Replace?
    requires Exec(f, lines, merge).Some? && !InTheWay(o, Exec(f, lines, merge).value.root)
    ensures !InTheWay(o, f.root)
  {
    forall p
      ensures !(KindAt(o, p).Holds? && KindAt(f.root, p).IsTable?)
    {
      RunKeeps(f, lines, merge, p);
      assert !(KindAt(o, p).Holds? && KindAt(Exec(f, lines, merge).value.root, p).IsTable?);
    }
  }

  /** With no value in the way the file is layered under the overrides line by line. */
  lemma {:induction false} RunLayers(o: Entries, f: State, m: Entries, lines: seq<Line>, merge: Merge)
    requires WellFormed(lines) && IsLayered(o, f.root, m) && !merge.Replace?
    requires Exec(f, lines, merge).Some? && !InTheWay(o, Exec(f, lines, merge).value.root)
    ensures Exec(State(m, f.current), lines, Ignore).Some?
    ensures IsLayered(o, Exec(f, lines, merge).value.root, Exec(State(m, f.current), lines, Ignore).value.root)
    decreases |lines|
  {
    hide IsLayered, InTheWay;
    if lines != [] {
      var f' := ExecLine(f, lines[0], merge).value;
      NotYetInTheWay(o, f', lines[1..], merge);
      match lines[0] {
        case Blank =>
        case Header(path) => OpenLayers(o, f.root, m, path, merge);
        case Assign(path, v) => AssignLayers(o, f.root, m, f.current + path, v, merge);
      }
      var m' := ExecLine(State(m, f.current), lines[0], Ignore).value;
      RunLayers(o, f', m'.root, lines[1..], merge);
    }
  }

  /** Every table of the file ends up a table of the result. */
  lemma {:induction false} FileTablesAppear(f: State, m: State, lines: seq<Line>, merge: Merge, q: seq<string>)
    requires WellFormed(lines) && f.current == m.current && !merge.Replace?
    requires Exec(f, lines, merge).Some? && Exec(m, lines, Ignore).Some?
    requires KindAt(f.root, q).IsTable? ==> KindAt(m.root, q).IsTable?
    ensures KindAt(Exec(f, lines, merge).value.root, q).IsTable? ==>
      KindAt(Exec(m, lines, Ignore).value.root, q).IsTable?
    decreases |lines|
  {
    if lines != [] {
      match lines[0] {
        case Blank =>
        case Header(path) =>
          OpenKinds(f.root, path, false, merge, q);
          OpenKinds(m.root, path, false, Ignore, q);
        case Assign(path, v) =>
          AssignKinds(f.root, f.current + path, v, merge, q);
          AssignKinds(m.root, f.current + path, v, Ignore, q);
      }
      FileTablesAppear(ExecLine(f, lines[0], merge).value, ExecLine(m, lines[0], Ignore).value, lines[1..], merge, q);
    }
  }

  /** When the overrides end in any table `c`: merging is accepted if and only if no path is a value in the
      overrides and a table in the file read into `c`; then the overrides are all there, and the file's
      values but for those where the overrides have tables. */
  lemma AcceptedExactly(o: Entries, c: seq<string>, file: seq<Line>, merge: Merge)
    requires WellFormed(file) && !merge.Replace? && Exec(State(map[], c), file, merge).Some?
    ensures
      var f := Exec(State(map[], c), file, merge).value.root;
      var m := Exec(State(o, c), file, Ignore);
      (m.Some? <==> !InTheWay(o, f)) && (m.Some? ==> IsLayered(o, f, m.value.root))
  {
    var f := Exec(State(map[], c), file, merge).value.root;
    if !InTheWay(o, f) {
      RunLayers(o, State(map[], c), o, file, merge);
    } else if Exec(State(o, c), file, Ignore).Some? {
      var p :| KindAt(o, p).Holds? && KindAt(f, p).IsTable?;
      RunKeeps(State(o, c), file, Ignore, p);
      FileTablesAppear(State(map[], c), State(o, c), file, merge, p);
    }
  }

  /** The exact condition, when the overrides end in any table `c`: merging the file into the overrides
      succeeds and gives the override's value wherever there is one and elsewhere what the file alone says
      when read into `c`, losing none, if and only if no path is a table in one and a value in the other. */
  lemma MergeExactly(o: Entries, c: seq<string>, file: seq<Line>, merge: Merge)
    requires WellFormed(file) && !merge.Replace? && Exec(State(map[], c), file, merge).Some?
    ensures
      var f := Exec(State(map[], c), file, merge).value.root;
      var m := Exec(State(o, c), file, Ignore);
      m.Some? && IsOverlay(o, f, m.value.root) <==> Compatible(o, f)
  {
    var f := Exec(State(map[], c), file, merge).value.root;
    AcceptedExactly(o, c, file, merge);
    var m := Exec(State(o, c), file, Ignore);
    if m.Some? {
      LayeredOverlay(o, f, m.value.root);
    } else {
      var p :| KindAt(o, p).Holds? && KindAt(f, p).IsTable?;
      assert Clash(KindAt(o, p), KindAt(f, p));
    }
  }

  /** Layers lose nothing if and only if the trees are compatible. */
  lemma LayeredOverlay(o: Entries, f: Entries, m: Entries)
    requires IsLayered(o, f, m) && !InTheWay(o, f)
    ensures IsOverlay(o, f, m) <==> Compatible(o, f)
  {
    if Compatible(o, f) {
      forall p
        ensures KindAt(m, p) == OverlayKind(KindAt(o, p), KindAt(f, p))
      {
        assert !Clash(KindAt(o, p), KindAt(f, p));
      }
    } else {
      var p :| Clash(KindAt(o, p), KindAt(f, p));
      assert KindAt(m, p) != OverlayKind(KindAt(o, p), KindAt(f, p));
    }
  }

  // ---------- the keys before the file's first table go to the table the overrides end in ----------

  /** The lines before the first table header. */
  function Lead(lines: seq<Line>): (lead: seq<Line>)
    ensures lead <= lines
    ensures lines[|lead|..] == [] || lines[|lead|..][0].Header?
  {
    if lines == [] || lines[0].Header? then []
    else
      assert lines[1..][|Lead(lines[1..])|..] == lines[1 + |Lead(lines[1..])|..];
      [lines[0]] + Lead(lines[1..])
  }

  ghost predicate NoHeaders(lines: seq<Line>) {
    forall i :: 0 <= i < |lines| ==> !lines[i].Header?
  }

  /** Read into table `c`, these lines set key `q` to `v`. */
  ghost predicate Sets(lines: seq<Line>, c: seq<string>, q: seq<string>, v: Value) {
    exists k :: 0 <= k < |lines| && lines[k].Assign? && c + lines[k].path == q && lines[k].value == v
  }

  /** A leading key `p` of the file may go to table `c` instead of the root. */
  ghost predicate KeyFits(o: Entries, f: Entries, c: seq<string>, lead: seq<Line>, p: seq<string>, v: Value) {
    && (KindAt(o, p).Holds? || Sets(lead, c, p, v))
    && (KindAt(o, c + p) != Absent || KindAt(f, c + p) == Holds(v))
  }

  /** Nothing of the file's leading keys is missed at the root, and nothing is found in `c` that the
      overrides or the file do not have there. */
  ghost predicate LeadFits(o: Entries, f: Entries, c: seq<string>, lead: seq<Line>) {
    forall i :: 0 <= i < |lead| && lead[i].Assign? ==> KeyFits(o, f, c, lead, lead[i].path, lead[i].value)
  }

  /** The file has every leading key at the root. */
  ghost predicate LeadHeld(f: Entries, lead: seq<Line>) {
    forall p, v :: Sets(lead, [], p, v) ==> KindAt(f, p) == Holds(v)
  }

  /** Every path above one that is there is a table. */
  lemma {:induction false} TableAbove(t: Entries, q: seq<string>, p: seq<string>)
    requires Above(q, p) && KindAt(t, p) != Absent
    ensures KindAt(t, q) == IsTable
    decreases |q|
  {
    if q != [] { TableAbove(t[p[0]].entries, q[1..], p[1..]); }
  }

  lemma SetsLater(lines: seq<Line>, c: seq<string>, q: seq<string>, v: Value)
    requires lines != []
    ensures Sets(lines, c, q, v) <==>
      (lines[0].Assign? && c + lines[0].path == q && lines[0].value == v) || Sets(lines[1..], c, q, v)
  {
    if k :| 0 <= k < |lines[1..]| && lines[1..][k].Assign? && c + lines[1..][k].path == q && lines[1..][k].value == v {
      assert lines[k + 1].Assign?;
    }
    if k :| 0 <= k < |lines| && lines[k].Assign? && c + lines[k].path == q && lines[k].value == v {
      if k > 0 { assert lines[1..][k - 1].Assign?; }
    }
  }

  /** What reading leading keys into `c` adds is one of these keys, or a table around one. */
  lemma {:induction false} LeadAdds(o: Entries, c: seq<string>, lead: seq<Line>, merge: Merge, q: seq<string>)
    requires WellFormed(lead) && NoHeaders(lead) && !merge.Replace? && Exec(State(o, c), lead, merge).Some?
    requires KindAt(o, q) == Absent
    ensures
      var k := KindAt(Exec(State(o, c), lead, merge).value.root, q);
      k == Absent || (k.Holds? && Sets(lead, c, q, k.value))
      || (k.IsTable? && exists p, v :: Sets(lead, c, p, v) && Above(q, p))
    decreases |lead|
  {
    if lead != [] {
      var st := ExecLine(State(o, c), lead[0], merge).value;
      if lead[0].Assign? {
        var path, v := c + lead[0].path, lead[0].value;
        SetsLater(lead, c, path, v);
        AssignKinds(o, path, v, merge, q);
      }
      if KindAt(st.root, q) != Absent {
        SetsLater(lead, c, q, lead[0].value);
        RunKeeps(st, lead[1..], merge, q);
      } else {
        LeadAdds(st.root, c, lead[1..], merge, q);
        var k := KindAt(Exec(st, lead[1..], merge).value.root, q);
        if k.Holds? {
          SetsLater(lead, c, q, k.value);
        } else if k.IsTable? {
          var p, v :| Sets(lead[1..], c, p, v) && Above(q, p);
          SetsLater(lead, c, p, v);
        }
      }
    }
  }

  /** Leading keys are there once read. */
  lemma {:induction false} LeadArrives(o: Entries, c: seq<string>, lead: seq<Line>, merge: Merge, p: seq<string>,
      v: Value)
    requires WellFormed(lead) && NoHeaders(lead) && !merge.Replace? && Exec(State(o, c), lead, merge).Some?
    requires Sets(lead, c, p, v)
    ensures KindAt(Exec(State(o, c), lead, merge).value.root, p) != Absent
    ensures merge.Strict? ==> KindAt(Exec(State(o, c), lead, merge).value.root, p) == Holds(v)
    decreases |lead|
  {
    var st := ExecLine(State(o, c), lead[0], merge).value;
    SetsLater(lead, c, p, v);
    if lead[0].Assign? && c + lead[0].path == p && lead[0].value == v {
      AssignSucceeds(o, p, v, merge);
      AssignKinds(o, p, v, merge, p);
      RunKeeps(st, lead[1..], merge, p);
    } else {
      LeadArrives(st.root, c, lead[1..], merge, p, v);
    }
  }

  lemma {:induction false} LeadHasNoHeaders(file: seq<Line>)
    ensures NoHeaders(Lead(file))
  {
    if file != [] && !file[0].Header? {
      LeadHasNoHeaders(file[1..]);
      assert Lead(file) == [file[0]] + Lead(file[1..]);
    }
  }

  lemma WellFormedParts(a: seq<Line>, b: seq<Line>)
    requires WellFormed(a + b)
    ensures WellFormed(a) && WellFormed(b)
  {
    assert forall i :: 0 <= i < |a| ==> (a + b)[i] == a[i];
    assert forall i :: 0 <= i < |b| ==> (a + b)[|a| + i] == b[i];
  }

  lemma LeadParts(file: seq<Line>)
    requires WellFormed(file)
    ensures var lead, rest := Lead(file), file[|Lead(file)|..];
      file == lead + rest && WellFormed(lead) && WellFormed(rest) && NoHeaders(lead)
  {
    LeadHasNoHeaders(file);
    hide NoHeaders, Lead, WellFormed;
    assert file == Lead(file) + file[|Lead(file)|..];
    WellFormedParts(Lead(file), file[|Lead(file)|..]);
  }

  lemma {:induction false} StaysInTable(st: State, lines: seq<Line>, merge: Merge)
    requires WellFormed(lines) && NoHeaders(lines) && Exec(st, lines, merge).Some?
    ensures Exec(st, lines, merge).value.current == st.current
    decreases |lines|
  {
    if lines != [] {
      StaysInTable(ExecLine(st, lines[0], merge).value, lines[1..], merge);
    }
  }

  /** From a header on, the table that was current does not matter. */
  lemma HeaderForgets(t: Entries, c: seq<string>, d: seq<string>, rest: seq<Line>, merge: Merge)
    requires WellFormed(rest) && (rest == [] || rest[0].Header?)
    ensures Exec(State(t, c), rest, merge).Some? <==> Exec(State(t, d), rest, merge).Some?
    ensures Exec(State(t, c), rest, merge).Some? ==>
      Exec(State(t, c), rest, merge).value.root == Exec(State(t, d), rest, merge).value.root
  {
    if rest != [] { assert ExecLine(State(t, c), rest[0], merge) == ExecLine(State(t, d), rest[0], merge); }
  }

  /** A run split at the first header: the leading keys go to `c`, the rest where the headers say. */
  lemma SplitRun(t: Entries, c: seq<string>, file: seq<Line>, merge: Merge)
    requires WellFormed(file)
    ensures
      var lead, rest := Lead(file), file[|Lead(file)|..];
      var r := Exec(State(t, c), file, merge);
      && WellFormed(lead) && WellFormed(rest) && NoHeaders(lead)
      && (r.Some? <==> (Exec(State(t, c), lead, merge).Some?
            && Exec(State(Exec(State(t, c), lead, merge).value.root, []), rest, merge).Some?))
      && (r.Some? ==>
            r.value.root == Exec(State(Exec(State(t, c), lead, merge).value.root, []), rest, merge).value.root)
  {
    var lead, rest := Lead(file), file[|Lead(file)|..];
    LeadParts(file);
    ExecConcat(State(t, c), lead, rest, merge);
    var x := Exec(State(t, c), lead, merge);
    if x.Some? {
      StaysInTable(State(t, c), lead, merge);
      HeaderForgets(x.value.root, c, [], rest, merge);
    }
  }

  /** A key that is held already changes nothing. */
  lemma {:induction false} HeldAssign(t: Entries, path: seq<string>, v: Value)
    requires path != [] && KindAt(t, path).Holds?
    ensures AssignAt(t, path, v, Ignore) == Some(t)
    decreases |path|
  {
    if |path| > 1 {
      var k := path[0];
      HeldAssign(t[k].entries, path[1..], v);
      assert t[k := Table(t[k].entries)] == t;
    }
  }

  lemma {:induction false} HeldLead(t: Entries, lead: seq<Line>)
    requires WellFormed(lead) && NoHeaders(lead)
    requires forall i :: 0 <= i < |lead| && lead[i].Assign? ==> KindAt(t, lead[i].path).Holds?
    ensures Exec(State(t, []), lead, Ignore) == Some(State(t, []))
    decreases |lead|
  {
    if lead != [] {
      if lead[0].Assign? {
        assert [] + lead[0].path == lead[0].path;
        HeldAssign(t, lead[0].path, lead[0].value);
      }
      HeldLead(t, lead[1..]);
    }
  }

  /** `x` is `o` and some of what `f` has where `o` has nothing. */
  ghost predicate Within(o: Entries, f: Entries, x: Entries) {
    forall q :: KindAt(x, q) == KindAt(o, q) || (KindAt(o, q) == Absent && KindAt(x, q) == KindAt(f, q))
  }

  lemma AssignWithin(o: Entries, f: Entries, x: Entries, path: seq<string>, v: Value)
    requires Compatible(o, f) && Within(o, f, x) && path != []
    requires KindAt(o, path) != Absent || KindAt(f, path) == Holds(v)
    ensures AssignAt(x, path, v, Ignore).Some? && Within(o, f, AssignAt(x, path, v, Ignore).value)
  {
    forall q | Above(q, path)
      ensures KindAt(o, q).IsTable? || (KindAt(o, q) == Absent && KindAt(f, q).IsTable?)
    {
      if KindAt(o, path) != Absent { TableAbove(o, q, path); } else { TableAbove(f, q, path); }
      assert !Clash(KindAt(o, q), KindAt(f, q));
    }
    AssignSucceeds(x, path, v, Ignore);
    forall q
      ensures var k := KindAt(AssignAt(x, path, v, Ignore).value, q);
        k == KindAt(o, q) || (KindAt(o, q) == Absent && k == KindAt(f, q))
    {
      AssignKinds(x, path, v, Ignore, q);
    }
  }

  /** Leading keys that fit add nothing that the overlay does not have. */
  lemma {:induction false} LeadWithin(o: Entries, f: Entries, x: Entries, c: seq<string>, lead: seq<Line>)
    requires WellFormed(lead) && NoHeaders(lead) && Compatible(o, f) && Within(o, f, x)
    requires forall i :: 0 <= i < |lead| && lead[i].Assign? ==>
      KindAt(o, c + lead[i].path) != Absent || KindAt(f, c + lead[i].path) == Holds(lead[i].value)
    ensures Exec(State(x, c), lead, Ignore).Some? && Within(o, f, Exec(State(x, c), lead, Ignore).value.root)
    decreases |lead|
  {
    if lead != [] {
      if lead[0].Assign? { AssignWithin(o, f, x, c + lead[0].path, lead[0].value); }
      LeadWithin(o, f, ExecLine(State(x, c), lead[0], Ignore).value.root, c, lead[1..]);
    }
  }

  /** The overlay under `x` is the overlay under `o`. */
  lemma WithinOverlays(o: Entries, f: Entries, x: Entries, m: Entries)
    requires Within(o, f, x) && Compatible(o, f)
    ensures Compatible(x, f) && (IsOverlay(x, f, m) ==> IsOverlay(o, f, m))
  {
    forall q
      ensures !Clash(KindAt(x, q), KindAt(f, q))
    {
      assert !Clash(KindAt(o, q), KindAt(f, q));
    }
  }

  /** Leading keys that fit leave the overlay of the whole file. */
  lemma FittingMerges(o: Entries, c: seq<string>, file: seq<Line>)
    requires WellFormed(file) && Exec(State(map[], []), file, Strict).Some?
    requires var f := Exec(State(map[], []), file, Strict).value.root;
      Compatible(o, f) && LeadHeld(f, Lead(file)) && LeadFits(o, f, c, Lead(file))
    ensures var f, m := Exec(State(map[], []), file, Strict).value.root, Exec(State(o, c), file, Ignore);
      m.Some? && IsOverlay(o, f, m.value.root)
  {
    var f, lead := Exec(State(map[], []), file, Strict).value.root, Lead(file);
    SplitRun(o, c, file, Ignore);
    LeadWithin(o, f, o, c, lead);
    var x := Exec(State(o, c), lead, Ignore).value.root;
    forall i | 0 <= i < |lead| && lead[i].Assign?
      ensures KindAt(x, lead[i].path).Holds?
    {
      LeadHolds(o, f, c, lead, i);
    }
    HeldLead(x, lead);
    SplitRun(x, [], file, Ignore);
    WithinOverlays(o, f, x, x);
    MergeExactly(x, [], file, Strict);
    WithinOverlays(o, f, x, Exec(State(x, []), file, Ignore).value.root);
  }

  lemma LeadHolds(o: Entries, f: Entries, c: seq<string>, lead: seq<Line>, i: nat)
    requires WellFormed(lead) && NoHeaders(lead) && Exec(State(o, c), lead, Ignore).Some?
    requires Within(o, f, Exec(State(o, c), lead, Ignore).value.root)
    requires Compatible(o, f) && LeadHeld(f, lead) && LeadFits(o, f, c, lead) && i < |lead| && lead[i].Assign?
    ensures KindAt(Exec(State(o, c), lead, Ignore).value.root, lead[i].path).Holds?
  {
    var x, p, v := Exec(State(o, c), lead, Ignore).value.root, lead[i].path, lead[i].value;
    assert KeyFits(o, f, c, lead, p, v);
    assert [] + p == p && Sets(lead, [], p, v);
    if KindAt(o, p).Holds? {
      RunKeeps(State(o, c), lead, Ignore, p);
    } else {
      LeadArrives(o, c, lead, Ignore, p, v);
      assert !Clash(KindAt(o, p), KindAt(f, p));
    }
  }

  lemma FileHoldsLead(file: seq<Line>)
    requires WellFormed(file) && Exec(State(map[], []), file, Strict).Some?
    ensures LeadHeld(Exec(State(map[], []), file, Strict).value.root, Lead(file))
  {
    var f, lead, rest := Exec(State(map[], []), file, Strict).value.root, Lead(file), file[|Lead(file)|..];
    SplitRun(map[], [], file, Strict);
    var f1 := Exec(State(map[], []), lead, Strict).value.root;
    forall p, v | Sets(lead, [], p, v)
      ensures KindAt(f, p) == Holds(v)
    {
      LeadArrives(map[], [], lead, Strict, p, v);
      RunKeeps(State(f1, []), rest, Strict, p);
    }
  }

  /** What a strict run had already, a run over the same lines does not set. */
  lemma {:induction false} SetBefore(f: State, m: State, lines: seq<Line>, p: seq<string>)
    requires WellFormed(lines) && f.current == m.current && KindAt(f.root, p).Holds?
    requires Exec(f, lines, Strict).Some? && Exec(m, lines, Ignore).Some?
    ensures KindAt(Exec(m, lines, Ignore).value.root, p).Holds? ==> KindAt(m.root, p).Holds?
    decreases |lines|
  {
    if lines != [] {
      StepKeeps(f, lines[0], Strict, p);
      match lines[0] {
        case Blank =>
        case Header(path) => OpenKinds(m.root, path, false, Ignore, p);
        case Assign(path, v) =>
          AssignSucceeds(f.root, f.current + path, v, Strict);
          AssignKinds(m.root, m.current + path, v, Ignore, p);
      }
      SetBefore(ExecLine(f, lines[0], Strict).value, ExecLine(m, lines[0], Ignore).value, lines[1..], p);
    }
  }

  /** The two runs up to the first header: `f1` of the file, `x` of the file into table `c` of the overrides. */
  ghost predicate Halves(o: Entries, c: seq<string>, file: seq<Line>, f1: Entries, x: Entries) {
    && WellFormed(file) && WellFormed(Lead(file)) && WellFormed(file[|Lead(file)|..]) && NoHeaders(Lead(file))
    && Exec(State(map[], []), Lead(file), Strict) == Some(State(f1, []))
    && Exec(State(o, c), Lead(file), Ignore) == Some(State(x, c))
    && Exec(State(f1, []), file[|Lead(file)|..], Strict).Some?
    && Exec(State(x, []), file[|Lead(file)|..], Ignore).Some?
  }

  lemma Halved(o: Entries, c: seq<string>, file: seq<Line>) returns (f1: Entries, x: Entries)
    requires WellFormed(file) && Exec(State(map[], []), file, Strict).Some? && Exec(State(o, c), file, Ignore).Some?
    ensures Halves(o, c, file, f1, x)
    ensures var rest := file[|Lead(file)|..];
      && Exec(State(map[], []), file, Strict).value.root == Exec(State(f1, []), rest, Strict).value.root
      && Exec(State(o, c), file, Ignore).value.root == Exec(State(x, []), rest, Ignore).value.root
  {
    SplitRun(map[], [], file, Strict);
    SplitRun(o, c, file, Ignore);
    StaysInTable(State(map[], []), Lead(file), Strict);
    StaysInTable(State(o, c), Lead(file), Ignore);
    f1 := Exec(State(map[], []), Lead(file), Strict).value.root;
    x := Exec(State(o, c), Lead(file), Ignore).value.root;
  }

  /** Where the overlay comes out, the file's tables are tables of the result. */
  lemma OverlaidTables(o: Entries, c: seq<string>, file: seq<Line>, f1: Entries, x: Entries, q: seq<string>)
    requires Halves(o, c, file, f1, x)
    requires var rest := file[|Lead(file)|..];
      var f, m := Exec(State(f1, []), rest, Strict).value.root, Exec(State(x, []), rest, Ignore).value.root;
      LeadHeld(f, Lead(file)) && IsOverlay(o, f, m) && KindAt(f, q).IsTable?
    ensures KindAt(Exec(State(x, []), file[|Lead(file)|..], Ignore).value.root, q).IsTable?
  {
    var lead, rest := Lead(file), file[|Lead(file)|..];
    var f, m := Exec(State(f1, []), rest, Strict).value.root, Exec(State(x, []), rest, Ignore).value.root;
    if q != [] && KindAt(f1, q).IsTable? {
      assert KindAt(map[], q) == Absent;
      LeadAdds(map[], [], lead, Strict, q);
      var p, v :| Sets(lead, [], p, v) && Above(q, p);
      assert KindAt(m, p) == OverlayKind(KindAt(o, p), KindAt(f, p));
      TableAbove(m, q, p);
    } else {
      FileTablesAppear(State(f1, []), State(x, []), rest, Strict, q);
    }
  }

  lemma OverlaidCompatible(o: Entries, c: seq<string>, file: seq<Line>, f1: Entries, x: Entries)
    requires Halves(o, c, file, f1, x)
    requires var rest := file[|Lead(file)|..];
      var f, m := Exec(State(f1, []), rest, Strict).value.root, Exec(State(x, []), rest, Ignore).value.root;
      LeadHeld(f, Lead(file)) && IsOverlay(o, f, m)
    ensures Compatible(o, Exec(State(f1, []), file[|Lead(file)|..], Strict).value.root)
  {
    var lead, rest := Lead(file), file[|Lead(file)|..];
    var f, m := Exec(State(f1, []), rest, Strict).value.root, Exec(State(x, []), rest, Ignore).value.root;
    forall q
      ensures !Clash(KindAt(o, q), KindAt(f, q))
    {
      if KindAt(o, q) != Absent {
        RunKeeps(State(o, c), lead, Ignore, q);
        RunKeeps(State(x, []), rest, Ignore, q);
        if KindAt(f, q).IsTable? { OverlaidTables(o, c, file, f1, x, q); }
        assert KindAt(m, q) == OverlayKind(KindAt(o, q), KindAt(f, q));
      }
    }
  }

  /** Where the overlay comes out, each leading key fits. */
  lemma OverlaidFits(o: Entries, c: seq<string>, file: seq<Line>, f1: Entries, x: Entries, i: nat)
    requires Halves(o, c, file, f1, x) && i < |Lead(file)| && Lead(file)[i].Assign?
    requires var rest := file[|Lead(file)|..];
      var f, m := Exec(State(f1, []), rest, Strict).value.root, Exec(State(x, []), rest, Ignore).value.root;
      LeadHeld(f, Lead(file)) && IsOverlay(o, f, m) && Compatible(o, f)
    ensures KeyFits(o, Exec(State(f1, []), file[|Lead(file)|..], Strict).value.root, c, Lead(file),
      Lead(file)[i].path, Lead(file)[i].value)
  {
    var lead, rest := Lead(file), file[|Lead(file)|..];
    var f, m := Exec(State(f1, []), rest, Strict).value.root, Exec(State(x, []), rest, Ignore).value.root;
    var p, v := lead[i].path, lead[i].value;
    assert [] + p == p && Sets(lead, [], p, v) && Sets(lead, c, c + p, v);
    if !KindAt(o, p).Holds? {
      assert !Clash(KindAt(o, p), KindAt(f, p)) && KindAt(m, p) == OverlayKind(KindAt(o, p), KindAt(f, p));
      LeadArrives(map[], [], lead, Strict, p, v);
      SetBefore(State(f1, []), State(x, []), rest, p);
      RunKeeps(State(x, []), rest, Ignore, p);
      LeadAdds(o, c, lead, Ignore, p);
    }
    if KindAt(o, c + p) == Absent { AddedToTable(o, f, c, lead, m, x, rest, p, v); }
  }

  lemma AddedToTable(o: Entries, f: Entries, c: seq<string>, lead: seq<Line>, m: Entries, x: Entries,
      rest: seq<Line>, p: seq<string>, v: Value)
    requires WellFormed(lead) && NoHeaders(lead) && WellFormed(rest)
    requires Exec(State(o, c), lead, Ignore) == Some(State(x, c))
    requires Exec(State(x, []), rest, Ignore).Some? && Exec(State(x, []), rest, Ignore).value.root == m
    requires LeadHeld(f, lead) && IsOverlay(o, f, m) && Sets(lead, [], p, v) && Sets(lead, c, c + p, v)
    requires KindAt(o, c + p) == Absent
    ensures KindAt(f, c + p) == Holds(v)
  {
    LeadArrives(o, c, lead, Ignore, c + p, v);
    LeadAdds(o, c, lead, Ignore, c + p);
    RunKeeps(State(x, []), rest, Ignore, c + p);
    var k := KindAt(x, c + p);
    if k.Holds? {
      SameKey(f, c, lead, p, v, k.value);
    } else {
      var q, w :| Sets(lead, c, q, w) && Above(c + p, q);
      NothingUnder(f, c, lead, p, v, q, w);
    }
    assert KindAt(m, c + p) == OverlayKind(KindAt(o, c + p), KindAt(f, c + p));
  }

  lemma SetsAtRoot(c: seq<string>, lead: seq<Line>, q: seq<string>, w: Value)
    requires Sets(lead, c, q, w)
    ensures c <= q && Sets(lead, [], q[|c|..], w)
  {
    var k :| 0 <= k < |lead| && lead[k].Assign? && c + lead[k].path == q && lead[k].value == w;
    assert [] + lead[k].path == q[|c|..];
  }

  lemma SameKey(f: Entries, c: seq<string>, lead: seq<Line>, p: seq<string>, v: Value, w: Value)
    requires LeadHeld(f, lead) && Sets(lead, [], p, v) && Sets(lead, c, c + p, w)
    ensures v == w
  {
    SetsAtRoot(c, lead, c + p, w);
    assert (c + p)[|c|..] == p;
    assert KindAt(f, p) == Holds(v) && KindAt(f, p) == Holds(w);
  }

  lemma NothingUnder(f: Entries, c: seq<string>, lead: seq<Line>, p: seq<string>, v: Value, q: seq<string>, w: Value)
    requires LeadHeld(f, lead) && Sets(lead, [], p, v) && Sets(lead, c, q, w)
    ensures !Above(c + p, q)
  {
    SetsAtRoot(c, lead, q, w);
    if Above(c + p, q) {
      assert Above(p, q[|c|..]);
      assert KindAt(f, p) == Holds(v) && KindAt(f, q[|c|..]) == Holds(w);
      TableAbove(f, p, q[|c|..]);
    }
  }

  /** The exact condition for the file itself, when the overrides end in any table `c`: merging succeeds and
      gives the override's value wherever there is one and the file's value everywhere else, losing none, if
      and only if no path is a table in one and a value in the other and the keys before the file's first
      header fit, as they always do at the root and when there are none. */
  lemma MergeFileExactly(o: Entries, c: seq<string>, file: seq<Line>)
    requires WellFormed(file) && Exec(State(map[], []), file, Strict).Some?
    ensures
      var f := Exec(State(map[], []), file, Strict).value.root;
      var m := Exec(State(o, c), file, Ignore);
      && (m.Some? && IsOverlay(o, f, m.value.root) <==> Compatible(o, f) && LeadFits(o, f, c, Lead(file)))
      && (c == [] || (forall l :: l in Lead(file) ==> l == Blank) ==> LeadFits(o, f, c, Lead(file)))
  {
    var f := Exec(State(map[], []), file, Strict).value.root;
    var m := Exec(State(o, c), file, Ignore);
    FileHoldsLead(file);
    if c == [] { AtRootFits(o, f, Lead(file)); }
    if forall l :: l in Lead(file) ==> l == Blank {
      assert forall i :: 0 <= i < |Lead(file)| ==> Lead(file)[i] in Lead(file);
    }
    if Compatible(o, f) && LeadFits(o, f, c, Lead(file)) { FittingMerges(o, c, file); }
    if m.Some? && IsOverlay(o, f, m.value.root) {
      var f1, x := Halved(o, c, file);
      OverlaidCompatible(o, c, file, f1, x);
      forall i | 0 <= i < |Lead(file)| && Lead(file)[i].Assign?
        ensures KeyFits(o, f, c, Lead(file), Lead(file)[i].path, Lead(file)[i].value)
      {
        OverlaidFits(o, c, file, f1, x, i);
      }
    }
  }

  lemma AtRootFits(o: Entries, f: Entries, lead: seq<Line>)
    requires LeadHeld(f, lead)
    ensures LeadFits(o, f, [], lead)
  {
    forall i | 0 <= i < |lead| && lead[i].Assign?
      ensures KeyFits(o, f, [], lead, lead[i].path, lead[i].value)
    {
      assert [] + lead[i].path == lead[i].path;
      assert Sets(lead, [], lead[i].path, lead[i].value);
    }
  }

  // ---------- what merging accepts beyond a strict reading ----------

  /** The table is there already, and is empty or has a key of its own. */
  ghost predicate Closed(t: Entries, path: seq<string>) {
    && KindAt(t, path) == IsTable
    && ((forall k :: KindAt(t, path + [k]) == Absent) || (exists k :: KindAt(t, path + [k]).Holds?))
  }

  lemma ClosedHere(t: Entries)
    ensures Closed(t, []) <==> t == map[] || HasLeaf(t)
  {
    forall k
      ensures KindAt(t, [] + [k]) == Absent <==> k !in t
      ensures KindAt(t, [] + [k]).Holds? <==> k in t && t[k].Leaf?
    {
      assert [] + [k] == [k];
    }
    if HasLeaf(t) {
      var k :| k in t && t[k].Leaf?;
      assert KindAt(t, [] + [k]).Holds?;
    }
  }

  lemma ClosedBelow(t: Entries, path: seq<string>, e: Entries)
    requires path != [] && path[0] in t && t[path[0]] == Table(e)
    ensures Closed(t, path) <==> Closed(e, path[1..])
  {
    forall k
      ensures KindAt(t, path + [k]) == KindAt(e, path[1..] + [k])
    {
      assert (path + [k])[1..] == path[1..] + [k];
    }
  }

  /** A strict reading opens what merging opens, but for closed tables, and to the same effect. */
  lemma {:induction false} StrictOpen(t: Entries, path: seq<string>, inserted: bool)
    requires OpenAt(t, path, inserted, Ignore).Some?
    ensures OpenAt(t, path, inserted, Strict) ==
      if !inserted && Closed(t, path) then None else OpenAt(t, path, inserted, Ignore)
    decreases |path|
  {
    if path == [] {
      ClosedHere(t);
    } else {
      var k := path[0];
      if k in t { ClosedBelow(t, path, t[k].entries); }
      StrictOpen(if k in t then t[k].entries else map[], path[1..], inserted || k !in t);
    }
  }

  lemma {:induction false} StrictAssign(t: Entries, path: seq<string>, v: Value)
    requires path != [] && AssignAt(t, path, v, Ignore).Some?
    ensures AssignAt(t, path, v, Strict) == if KindAt(t, path) != Absent then None else AssignAt(t, path, v, Ignore)
    decreases |path|
  {
    if |path| > 1 {
      var k := path[0];
      StrictAssign(if k in t then t[k].entries else map[], path[1..], v);
    }
  }

  /** The line sets a key that is there, or opens a closed table. */
  ghost predicate Repeats(st: State, line: Line) {
    match line
    case Blank => false
    case Header(path) => Closed(st.root, path)
    case Assign(path, _) => KindAt(st.root, st.current + path) != Absent
  }

  ghost predicate RepeatsAny(st: State, lines: seq<Line>)
    requires WellFormed(lines) && Exec(st, lines, Ignore).Some?
    decreases |lines|
  {
    lines != [] && (Repeats(st, lines[0]) || RepeatsAny(ExecLine(st, lines[0], Ignore).value, lines[1..]))
  }

  /** What merging accepts, a strict reading accepts too, to the same effect, unless a line repeats. */
  lemma {:induction false} StrictExactly(st: State, lines: seq<Line>)
    requires WellFormed(lines) && Exec(st, lines, Ignore).Some?
    ensures Exec(st, lines, Strict) == if RepeatsAny(st, lines) then None else Exec(st, lines, Ignore)
    decreases |lines|
  {
    if lines != [] {
      match lines[0] {
        case Blank =>
        case Header(path) => StrictOpen(st.root, path, false);
        case Assign(path, v) => StrictAssign(st.root, st.current + path, v);
      }
      StrictExactly(ExecLine(st, lines[0], Ignore).value, lines[1..]);
    }
  }

  // ---------- the same for texts ----------

  function OverridesText(entries: seq<string>): string {
    if entries == [] then "\n" else entries[0] + "\n" + OverridesText(entries[1..])
  }

  /** What each override adds to the input, its own text and the end of a line, and an empty line at the end. */
  function OverrideTexts(entries: seq<string>): (texts: seq<string>) {
    seq(|entries| + 1, i requires 0 <= i <= |entries| => if i < |entries| then entries[i] + "\n" else "\n")
  }

  lemma EntryComplete(entry: string)
    ensures Complete(entry + "\n")
  {
  }

  /** The text of the overrides is that of all of them, in the order given. */
  lemma {:induction false} OverridesInOrder(entries: seq<string>) returns (starts: seq<nat>)
    ensures LiesInOrder(OverridesText(entries), OverrideTexts(entries), starts)
  {
    if entries == [] {
      starts := [0, 1];
    } else {
      starts := OverridesInOrder(entries[1..]);
      starts := LiesFirst(entries[0] + "\n", OverridesText(entries[1..]), OverrideTexts(entries[1..]), starts);
      assert [entries[0] + "\n"] + OverrideTexts(entries[1..]) == OverrideTexts(entries);
    }
  }

  ghost predicate Readable(entries: seq<string>) {
    forall i :: 0 <= i < |entries| ==> ReadAll(entries[i] + "\n").Some?
  }

  /** The lines of each override, and the empty line at the end. */
  ghost function OverrideLines(entries: seq<string>): seq<seq<Line>>
    requires Readable(entries)
  {
    seq(|entries| + 1, i requires 0 <= i <= |entries| =>
      if i < |entries| then ReadAll(entries[i] + "\n").value else [Blank])
  }

  /** For every list of overrides: they can be read if and only if each can, and then the lines read are those of
      the first, of the second and so on. */
  lemma {:induction false} OverridesRead(entries: seq<string>) returns (starts: seq<nat>)
    ensures ReadAll(OverridesText(entries)).Some? <==> Readable(entries)
    ensures Readable(entries) ==>
      LiesInOrder(ReadAll(OverridesText(entries)).value, OverrideLines(entries), starts)
  {
    hide ReadAll;
    if entries == [] {
      NewlineReads();
      starts := [0, 1];
    } else {
      var rest := entries[1..];
      starts := OverridesRead(rest);
      EntryComplete(entries[0]);
      ReadConcat(entries[0] + "\n", OverridesText(rest));
      assert (entries[0] + "\n") + OverridesText(rest) == OverridesText(entries);
      assert Readable(entries) <==> ReadAll(entries[0] + "\n").Some? && Readable(rest);
      if Readable(entries) {
        var first, whole := ReadAll(entries[0] + "\n").value, ReadAll(OverridesText(rest)).value;
        starts := LiesFirst(first, whole, OverrideLines(rest), starts);
        assert [first] + OverrideLines(rest) == OverrideLines(entries);
      }
    }
  }

  lemma NewlineReads()
    ensures ReadAll("\n") == Some([Blank])
  {
    assert FirstLine("\n") == "" && AfterLine("\n") == "";
    assert ParseLine("") == Ok(Blank, "");
    assert ReadAll("\n") == Joined(ParseLine(""), ReadAll(""));
    assert ReadAll("") == Some([]);
    assert [Blank] + [] == [Blank];
  }

  /** The configuration reader: the file must be valid on its own, then overrides and file are
      parsed as one input, the first value of a key winning. */
  function ReadConfig(entries: seq<string>, file: string): Outcome {
    var user := Parse(file, Strict);
    if user.Parsed? then Parse(OverridesText(entries) + file, Ignore) else user
  }

  lemma {:induction false} OverridesComplete(entries: seq<string>)
    ensures Complete(OverridesText(entries)) && OverridesText(entries) != ""
  {
    if entries != [] { OverridesComplete(entries[1..]); }
  }

  lemma {:induction false} RunConcat(st: State, a: string, b: string, merge: Merge)
    requires Complete(a)
    ensures RunText(st, a + b, merge) ==
      match RunText(st, a, merge) case Parsed(next) => RunText(next, b, merge) case stop => stop
    decreases |a|
  {
    if a == "" {
      assert a + b == b;
    } else {
      FirstLineConcat(a, b);
      var next := RunLine(st, FirstLine(a), merge);
      if next.Parsed? { RunConcat(next.state, AfterLine(a), b, merge); }
    }
  }

  /** For all overrides and files: what one of them is refused for, the configuration is refused for;
      otherwise reading gives the overlay of the file under the overrides if and only if no path is a table
      in one and a value in the other and, when the overrides end in a table, the keys before the file's
      first header fit. */
  lemma ReadConfigExactly(entries: seq<string>, file: string)
    ensures
      var over, user, r := Parse(OverridesText(entries), Ignore), Parse(file, Strict), ReadConfig(entries, file);
      && (!user.Parsed? ==> r == user)
      && (user.Parsed? && !over.Parsed? ==> r == over)
      && (user.Parsed? && over.Parsed? ==>
            var o, f, c := over.state.root, user.state.root, over.state.current;
            && ReadAll(file).Some?
            && (r.Parsed? && IsOverlay(o, f, r.state.root) <==>
                 Compatible(o, f) && LeadFits(o, f, c, Lead(ReadAll(file).value))))
  {
    var text, start := OverridesText(entries), State(map[], []);
    var over := Parse(text, Ignore);
    OverridesComplete(entries);
    RunConcat(start, text, file, Ignore);
    if Parse(file, Strict).Parsed? && over.Parsed? {
      ParsedReads(start, file, Strict);
      ReadThenExec(start, file, Strict);
      ReadThenExec(over.state, file, Ignore);
      MergeFileExactly(over.state.root, over.state.current, ReadAll(file).value);
    }
  }

  /** The overrides are not read strictly on their own: in a configuration that is accepted, they would be
      refused if and only if one of their lines sets a key or opens a closed table again. */
  lemma UnvalidatedExactly(entries: seq<string>, file: string)
    requires ReadConfig(entries, file).Parsed?
    ensures
      var text, start := OverridesText(entries), State(map[], []);
      && ReadAll(text).Some? && Exec(start, ReadAll(text).value, Ignore).Some?
      && (Parse(text, Strict).Parsed? <==> !RepeatsAny(start, ReadAll(text).value))
      && (Parse(text, Strict).Parsed? ==> Parse(text, Strict) == Parse(text, Ignore))
  {
    var text, start := OverridesText(entries), State(map[], []);
    OverridesComplete(entries);
    RunConcat(start, text, file, Ignore);
    ParsedReads(start, text, Ignore);
    ReadThenExec(start, text, Ignore);
    ReadThenExec(start, text, Strict);
    StrictExactly(start, ReadAll(text).value);
  }

  /** When the overrides end at the root, what becomes of a clash: the configuration is refused if and only
      if some path is a value in the overrides and a table in the file; otherwise the file silently loses
      its values where the overrides have tables, and only those. */
  lemma ClashExactly(entries: seq<string>, file: string)
    requires Parse(OverridesText(entries), Ignore).Parsed? && Parse(file, Strict).Parsed?
    requires Parse(OverridesText(entries), Ignore).state.current == []
    ensures
      var o, f := Parse(OverridesText(entries), Ignore).state.root, Parse(file, Strict).state.root;
      var r := ReadConfig(entries, file);
      && (r.Parsed? <==> !InTheWay(o, f))
      && (r.Parsed? ==> IsLayered(o, f, r.state.root))
  {
    var text, start := OverridesText(entries), State(map[], []);
    var over := Parse(text, Ignore);
    OverridesComplete(entries);
    RunConcat(start, text, file, Ignore);
    ParsedReads(start, file, Strict);
    ReadThenExec(start, file, Strict);
    ReadThenExec(over.state, file, Ignore);
    AcceptedExactly(over.state.root, [], ReadAll(file).value, Strict);
  }
}
