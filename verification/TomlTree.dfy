/** The tree the configuration parser builds, and what one line of input does to it. */
module TomlTree {
  import opened Wrappers

  datatype Value = Str(text: string) | Bool(flag: bool) | Int(number: int)

  type Entries = map<string, Node>

  datatype Node = Leaf(value: Value) | Table(entries: map<string, Node>)

  /** What to do with a key or table that is there already. */
  datatype Merge = Strict | Replace | Ignore

  /** One line of input, after reading. */
  datatype Line = Blank | Header(path: seq<string>) | Assign(path: seq<string>, value: Value)

  predicate HasLeaf(t: Entries) {
    exists k :: k in t && t[k].Leaf?
  }

  /** Walks to the table at `path`, creating the tables that are missing. A table that is there
      already may be opened again only while it holds tables alone, unless merging. */
  function OpenAt(t: Entries, path: seq<string>, inserted: bool, merge: Merge): Option<Entries>
    decreases |path|
  {
    if path == [] then
      if !inserted && (t == map[] || HasLeaf(t)) && merge == Strict then None else Some(t)
    else
      var k := path[0];
      if k in t then
        if t[k].Leaf? then None
        else
          var sub := OpenAt(t[k].entries, path[1..], inserted, merge);
          if sub.None? then None else Some(t[k := Table(sub.value)])
      else
        var sub := OpenAt(map[], path[1..], true, merge);
        if sub.None? then None else Some(t[k := Table(sub.value)])
  }

  /** Walks to the last part of `path`, creating the tables that are missing, and sets it. */
  function AssignAt(t: Entries, path: seq<string>, v: Value, merge: Merge): Option<Entries>
    requires path != []
    decreases |path|
  {
    var k := path[0];
    if |path| == 1 then
      if k !in t then Some(t[k := Leaf(v)])
      else match merge
        case Strict => None
        case Ignore => Some(t)
        case Replace => Some(t[k := Leaf(v)])
    else if k in t then
      if t[k].Leaf? then None
      else
        var sub := AssignAt(t[k].entries, path[1..], v, merge);
        if sub.None? then None else Some(t[k := Table(sub.value)])
    else
      var sub := AssignAt(map[], path[1..], v, merge);
      if sub.None? then None else Some(t[k := Table(sub.value)])
  }

  /** The tree so far and the table the next keys go to. */
  datatype State = State(root: Entries, current: seq<string>)

  function ExecLine(st: State, line: Line, merge: Merge): Option<State>
    requires line.Assign? ==> line.path != []
  {
    match line
    case Blank => Some(st)
    case Header(path) =>
      var t := OpenAt(st.root, path, false, merge);
      if t.None? then None else Some(State(t.value, path))
    case Assign(path, v) =>
      var t := AssignAt(st.root, st.current + path, v, merge);
      if t.None? then None else Some(st.(root := t.value))
  }

  ghost predicate WellFormed(lines: seq<Line>) {
    forall i :: 0 <= i < |lines| && lines[i].Assign? ==> lines[i].path != []
  }

  function Exec(st: State, lines: seq<Line>, merge: Merge): Option<State>
    requires WellFormed(lines)
    decreases |lines|
  {
    if lines == [] then Some(st)
    else
      var next := ExecLine(st, lines[0], merge);
      if next.None? then None else Exec(next.value, lines[1..], merge)
  }

  lemma {:induction false} ExecConcat(st: State, a: seq<Line>, b: seq<Line>, merge: Merge)
    requires WellFormed(a) && WellFormed(b)
    ensures Exec(st, a + b, merge) ==
      if Exec(st, a, merge).None? then None else Exec(Exec(st, a, merge).value, b, merge)
    decreases |a|
  {
    if a == [] {
      assert a + b == b;
    } else {
      assert (a + b)[1..] == a[1..] + b;
      var next := ExecLine(st, a[0], merge);
      if next.Some? { ExecConcat(next.value, a[1..], b, merge); }
    }
  }
}
