/** Acyclic prerequisite graphs: what lies behind a node, and how long a worklist lives. */
module PrerequisiteGraph {

  /** Every prerequisite is a node of lower rank: the graph has no cycle. */
  ghost predicate Acyclic<T>(g: map<T, seq<T>>, rank: map<T, nat>) {
    rank.Keys == g.Keys && forall e, p :: e in g && p in g[e] ==> p in g && rank[p] < rank[e]
  }

  /** `x` is a direct or indirect prerequisite of `e`. */
  ghost predicate Behind<T>(g: map<T, seq<T>>, rank: map<T, nat>, e: T, x: T)
    requires Acyclic(g, rank) && e in g
    decreases rank[e]
  {
    exists p :: p in g[e] && (x == p || Behind(g, rank, p, x))
  }

  lemma {:induction false} BehindLower<T>(g: map<T, seq<T>>, rank: map<T, nat>, e: T, x: T)
    requires Acyclic(g, rank) && e in g && Behind(g, rank, e, x)
    ensures x in g && rank[x] < rank[e]
    decreases rank[e]
  {
    var p :| p in g[e] && (x == p || Behind(g, rank, p, x));
    if x != p { BehindLower(g, rank, p, x); }
  }

  lemma {:induction false} BehindTransitive<T>(g: map<T, seq<T>>, rank: map<T, nat>, e: T, x: T, y: T)
    requires Acyclic(g, rank) && e in g && x in g && Behind(g, rank, e, x) && Behind(g, rank, x, y)
    ensures Behind(g, rank, e, y)
    decreases rank[e]
  {
    var p :| p in g[e] && (x == p || Behind(g, rank, p, x));
    if x != p { BehindTransitive(g, rank, p, x, y); }
  }

  ghost predicate ClosedUnder<T>(g: map<T, seq<T>>, s: set<T>) {
    forall e, p :: e in s && e in g && p in g[e] ==> p in s
  }

  ghost predicate AllBehind<T>(g: map<T, seq<T>>, rank: map<T, nat>, e: T, s: set<T>)
    requires Acyclic(g, rank) && e in g
  {
    forall x :: x in g && Behind(g, rank, e, x) ==> x in s
  }

  /** What lies behind a node is in every set that holds its prerequisites and theirs. */
  lemma {:induction false} BehindLeast<T>(g: map<T, seq<T>>, rank: map<T, nat>, e: T, s: set<T>)
    requires Acyclic(g, rank) && e in g
    requires ClosedUnder(g, s) && forall p :: p in g[e] ==> p in s
    ensures AllBehind(g, rank, e, s)
    decreases rank[e]
  {
    forall x | x in g && Behind(g, rank, e, x)
      ensures x in s
    {
      var p :| p in g[e] && (x == p || Behind(g, rank, p, x));
      BehindLeast(g, rank, p, s);
    }
  }

  // ---------- a worklist that pushes prerequisites without remembering what it has seen ----------

  ghost predicate Below<T>(g: map<T, seq<T>>, rank: map<T, nat>, s: seq<T>, bound: nat)
    requires Acyclic(g, rank)
  {
    forall x :: x in s ==> x in g && rank[x] < bound
  }

  /** Nodes still to be taken off a worklist: one for every path that starts in it. */
  ghost function Pops<T>(g: map<T, seq<T>>, rank: map<T, nat>, s: seq<T>, bound: nat): nat
    requires Acyclic(g, rank) && Below(g, rank, s, bound)
    decreases bound, |s|
  {
    if s == [] then 0
    else
      var last := s[|s| - 1];
      Pops(g, rank, s[..|s| - 1], bound) + 1 + Pops(g, rank, g[last], rank[last])
  }

  lemma {:induction false} PopsAnyBound<T>(g: map<T, seq<T>>, rank: map<T, nat>, s: seq<T>, a: nat, b: nat)
    requires Acyclic(g, rank) && Below(g, rank, s, a) && Below(g, rank, s, b)
    ensures Pops(g, rank, s, a) == Pops(g, rank, s, b)
    decreases |s|
  {
    if s != [] { PopsAnyBound(g, rank, s[..|s| - 1], a, b); }
  }

  lemma {:induction false} PopsConcat<T>(g: map<T, seq<T>>, rank: map<T, nat>, s: seq<T>, t: seq<T>, bound: nat)
    requires Acyclic(g, rank) && Below(g, rank, s, bound) && Below(g, rank, t, bound)
    ensures Below(g, rank, s + t, bound)
    ensures Pops(g, rank, s + t, bound) == Pops(g, rank, s, bound) + Pops(g, rank, t, bound)
    decreases |t|
  {
    if t == [] {
      assert s + t == s;
    } else {
      var init, last := t[..|t| - 1], t[|t| - 1];
      hide Pops;
      PopsConcat(g, rank, s, init, bound);
      assert s + t == (s + init) + [last] && t == init + [last];
      PopsSnoc(g, rank, s + init, last, bound);
      PopsSnoc(g, rank, init, last, bound);
    }
  }

  /** Replacing the top of the worklist by some of its prerequisites shortens its life. */
  lemma PopsShrink<T>(g: map<T, seq<T>>, rank: map<T, nat>, s: seq<T>, bound: nat, pushed: seq<T>)
    requires Acyclic(g, rank) && s != [] && Below(g, rank, s, bound)
    requires Below(g, rank, pushed, rank[s[|s| - 1]])
    requires Pops(g, rank, pushed, rank[s[|s| - 1]]) <= Pops(g, rank, g[s[|s| - 1]], rank[s[|s| - 1]])
    ensures Below(g, rank, s[..|s| - 1] + pushed, bound)
    ensures Pops(g, rank, s[..|s| - 1] + pushed, bound) < Pops(g, rank, s, bound)
  {
    var top := s[|s| - 1];
    PopsAnyBound(g, rank, pushed, rank[top], bound);
    PopsConcat(g, rank, s[..|s| - 1], pushed, bound);
  }

  lemma PopsSnoc<T>(g: map<T, seq<T>>, rank: map<T, nat>, s: seq<T>, x: T, bound: nat)
    requires Acyclic(g, rank) && Below(g, rank, s, bound) && x in g && rank[x] < bound
    ensures Below(g, rank, s + [x], bound)
    ensures Pops(g, rank, s + [x], bound) == Pops(g, rank, s, bound) + 1 + Pops(g, rank, g[x], rank[x])
  {
    assert (s + [x])[..|s|] == s;
  }

  // ---------- the prerequisites to blame ----------

  /** `x` is an unsatisfied prerequisite, found by looking behind satisfied ones only while they
      are idle. */
  ghost predicate Blamed<T>(g: map<T, seq<T>>, rank: map<T, nat>, satisfied: set<T>, idle: set<T>, e: T, x: T)
    requires Acyclic(g, rank) && e in g
    decreases rank[e]
  {
    exists p :: p in g[e] && if p in satisfied then p in idle && Blamed(g, rank, satisfied, idle, p, x) else x == p
  }

  /** Nothing unsatisfied hides behind a satisfied node that is not idle. */
  ghost predicate ActiveClear<T>(g: map<T, seq<T>>, rank: map<T, nat>, satisfied: set<T>, idle: set<T>)
    requires Acyclic(g, rank)
  {
    forall x :: x in g && x in satisfied && x !in idle ==> AllBehind(g, rank, x, satisfied)
  }

  lemma {:induction false} BlamedIsBehind<T>(g: map<T, seq<T>>, rank: map<T, nat>, satisfied: set<T>, idle: set<T>,
      e: T, x: T)
    requires Acyclic(g, rank) && e in g && Blamed(g, rank, satisfied, idle, e, x)
    ensures x in g && Behind(g, rank, e, x) && x !in satisfied
    decreases rank[e]
  {
    var p :| p in g[e] && if p in satisfied then p in idle && Blamed(g, rank, satisfied, idle, p, x) else x == p;
    if p in satisfied { BlamedIsBehind(g, rank, satisfied, idle, p, x); }
  }

  /** Every unsatisfied node behind `e` is blamed itself, or lies behind one that is. */
  lemma {:induction false} BlameCovers<T>(g: map<T, seq<T>>, rank: map<T, nat>, satisfied: set<T>, idle: set<T>, e: T,
      x: T)
      returns (b: T)
    requires Acyclic(g, rank) && ActiveClear(g, rank, satisfied, idle)
    requires e in g && x in g && Behind(g, rank, e, x) && x !in satisfied
    ensures b in g && Blamed(g, rank, satisfied, idle, e, b) && (x == b || Behind(g, rank, b, x))
    decreases rank[e]
  {
    var p :| p in g[e] && (x == p || Behind(g, rank, p, x));
    if p !in satisfied {
      b := p;
    } else {
      b := BlameCovers(g, rank, satisfied, idle, p, x);
    }
  }

  /** Someone is to blame if and only if something behind the node is unsatisfied. */
  lemma BlameExactly<T>(g: map<T, seq<T>>, rank: map<T, nat>, satisfied: set<T>, idle: set<T>, e: T)
    requires Acyclic(g, rank) && ActiveClear(g, rank, satisfied, idle) && e in g
    ensures (exists x :: x in g && Blamed(g, rank, satisfied, idle, e, x)) <==> !AllBehind(g, rank, e, satisfied)
  {
    if x :| x in g && Blamed(g, rank, satisfied, idle, e, x) {
      BlamedIsBehind(g, rank, satisfied, idle, e, x);
    }
    if !AllBehind(g, rank, e, satisfied) {
      var x :| x in g && Behind(g, rank, e, x) && x !in satisfied;
      var b := BlameCovers(g, rank, satisfied, idle, e, x);
    }
  }

  // ---------- searches ----------

  /** A search from `start` has expanded `done`, has `work` left, and met only `good` nodes. */
  ghost predicate Searching<T>(g: map<T, seq<T>>, rank: map<T, nat>, start: T, good: set<T>, done: set<T>, work: seq<T>)
    requires Acyclic(g, rank) && start in g
  {
    && Below(g, rank, work, rank[start] + 1)
    && (start in done || start in work)
    && (forall x :: x in work ==> Met(g, rank, start, good, x))
    && (forall x :: x in done ==> Met(g, rank, start, good, x))
    && (forall e, p :: e in done && e in g && p in g[e] ==> p in done || p in work)
  }

  ghost predicate Met<T>(g: map<T, seq<T>>, rank: map<T, nat>, start: T, good: set<T>, x: T)
    requires Acyclic(g, rank) && start in g
  {
    x in g && (x == start || (x in good && Behind(g, rank, start, x)))
  }

  lemma BehindNext<T>(g: map<T, seq<T>>, rank: map<T, nat>, start: T, good: set<T>, e: T, p: T)
    requires Acyclic(g, rank) && start in g && Met(g, rank, start, good, e) && p in g[e]
    ensures p in g && Behind(g, rank, start, p) && rank[p] < rank[start] + 1
  {
    if e != start { BehindTransitive(g, rank, start, e, p); }
    BehindLower(g, rank, start, p);
  }

  /** What `top` waits for may be looked at next. */
  lemma MetNext<T>(g: map<T, seq<T>>, rank: map<T, nat>, start: T, good: set<T>, top: T)
    requires Acyclic(g, rank) && start in g && Met(g, rank, start, good, top) && forall p :: p in g[top] ==> p in good
    ensures forall p :: p in g[top] ==> p in g && Met(g, rank, start, good, p) && rank[p] < rank[start] + 1
  {
    forall p | p in g[top]
      ensures p in g && Met(g, rank, start, good, p) && rank[p] < rank[start] + 1
    {
      BehindNext(g, rank, start, good, top, p);
    }
  }

  lemma SearchStep<T>(g: map<T, seq<T>>, rank: map<T, nat>, start: T, good: set<T>, done: set<T>, work: seq<T>)
    requires Acyclic(g, rank) && start in g && Searching(g, rank, start, good, done, work)
    requires work != [] && forall p :: p in g[work[|work| - 1]] ==> p in good
    ensures var top := work[|work| - 1];
      Searching(g, rank, start, good, done + {top}, work[..|work| - 1] + g[top])
  {
    var top := work[|work| - 1];
    assert Met(g, rank, start, good, top);
    MetNext(g, rank, start, good, top);
    hide Behind, Met, Acyclic;
    assert work == work[..|work| - 1] + [top];
  }

  lemma SearchedAll<T>(g: map<T, seq<T>>, rank: map<T, nat>, start: T, good: set<T>, done: set<T>)
    requires Acyclic(g, rank) && start in g && Searching(g, rank, start, good, done, [])
    ensures AllBehind(g, rank, start, good)
  {
    BehindLeast(g, rank, start, done);
    forall x | x in g && Behind(g, rank, start, x)
      ensures x in good
    {
      BehindLower(g, rank, start, x);
      assert Met(g, rank, start, good, x);
    }
  }

  /** The satisfied idle ones of a list. */
  ghost function IdleOf<T>(list: seq<T>, satisfied: set<T>, idle: set<T>): seq<T> {
    if list == [] then []
    else
      var last := list[|list| - 1];
      IdleOf(list[..|list| - 1], satisfied, idle) + if last in satisfied && last in idle then [last] else []
  }

  lemma {:induction false} IdleOfElements<T>(list: seq<T>, satisfied: set<T>, idle: set<T>)
    ensures forall p :: p in IdleOf(list, satisfied, idle) <==> p in list && p in satisfied && p in idle
  {
    if list != [] {
      assert list == list[..|list| - 1] + [list[|list| - 1]];
      IdleOfElements(list[..|list| - 1], satisfied, idle);
    }
  }

  lemma IdleOfSnoc<T>(list: seq<T>, i: nat, satisfied: set<T>, idle: set<T>)
    requires i < |list|
    ensures IdleOf(list[..i + 1], satisfied, idle)
      == IdleOf(list[..i], satisfied, idle) + if list[i] in satisfied && list[i] in idle then [list[i]] else []
    ensures UnsatisfiedOf(list[..i + 1], satisfied)
      == UnsatisfiedOf(list[..i], satisfied) + if list[i] in satisfied then {} else {list[i]}
  {
    assert list[..i + 1] == list[..i] + [list[i]];
    assert list[..i + 1][..i] == list[..i];
  }

  ghost function UnsatisfiedOf<T>(list: seq<T>, satisfied: set<T>): set<T> {
    set p | p in list && p !in satisfied
  }

  lemma {:induction false} IdlePops<T>(g: map<T, seq<T>>, rank: map<T, nat>, list: seq<T>, satisfied: set<T>,
      idle: set<T>, bound: nat)
    requires Acyclic(g, rank) && Below(g, rank, list, bound)
    ensures Below(g, rank, IdleOf(list, satisfied, idle), bound)
    ensures Pops(g, rank, IdleOf(list, satisfied, idle), bound) <= Pops(g, rank, list, bound)
    decreases |list|
  {
    if list != [] {
      var init, last := list[..|list| - 1], list[|list| - 1];
      assert list == init + [last];
      IdlePops(g, rank, init, satisfied, idle, bound);
      PopsSnoc(g, rank, init, last, bound);
      var kept := IdleOf(init, satisfied, idle);
      PopsSnoc(g, rank, kept, last, bound);
      assert kept + [] == kept;
    }
  }

  // What every node has to be blamed on, as sets.

  ghost function Union<T>(blame: map<T, set<T>>, list: seq<T>): set<T> {
    set p, x | p in list && p in blame && x in blame[p] :: x
  }

  ghost function BlameOf<T>(g: map<T, seq<T>>, rank: map<T, nat>, satisfied: set<T>, idle: set<T>, e: T): set<T>
    requires Acyclic(g, rank) && e in g
  {
    set x | x in g && Blamed(g, rank, satisfied, idle, e, x)
  }

  ghost function BlameMap<T>(g: map<T, seq<T>>, rank: map<T, nat>, satisfied: set<T>,
      idle: set<T>): (blame: map<T, set<T>>)
    requires Acyclic(g, rank)
    ensures blame.Keys == g.Keys
  {
    map e | e in g :: BlameOf(g, rank, satisfied, idle, e)
  }

  lemma BlameMapUnfold<T>(g: map<T, seq<T>>, rank: map<T, nat>, satisfied: set<T>, idle: set<T>, e: T, x: T)
    requires Acyclic(g, rank) && e in g && x in g
    ensures var blame, idlers := BlameMap(g, rank, satisfied, idle), IdleOf(g[e], satisfied, idle);
      x in blame[e] <==> x in UnsatisfiedOf(g[e], satisfied) || x in Union(blame, idlers)
  {
    var blame, idlers := BlameMap(g, rank, satisfied, idle), IdleOf(g[e], satisfied, idle);
    IdleOfElements(g[e], satisfied, idle);
    hide IdleOf;
    if x in blame[e] {
      var p :| p in g[e] && if p in satisfied then p in idle && Blamed(g, rank, satisfied, idle, p, x) else x == p;
      if p in satisfied { assert p in idlers && x in blame[p]; }
    }
    if x in UnsatisfiedOf(g[e], satisfied) {
      assert x in g[e];
    } else if x in Union(blame, idlers) {
      var p :| p in idlers && x in blame[p];
      assert p in g[e];
    }
  }

  lemma BlameMapEntry<T>(g: map<T, seq<T>>, rank: map<T, nat>, satisfied: set<T>, idle: set<T>, e: T)
    requires Acyclic(g, rank) && e in g
    ensures var blame := BlameMap(g, rank, satisfied, idle);
      blame[e] == UnsatisfiedOf(g[e], satisfied) + Union(blame, IdleOf(g[e], satisfied, idle))
  {
    var blame := BlameMap(g, rank, satisfied, idle);
    var a, b := blame[e], UnsatisfiedOf(g[e], satisfied) + Union(blame, IdleOf(g[e], satisfied, idle));
    assert a <= g.Keys && b <= g.Keys;
    forall x | x in g
      ensures x in a <==> x in b
    {
      BlameMapUnfold(g, rank, satisfied, idle, e, x);
    }
  }

  lemma UnionConcat<T>(blame: map<T, set<T>>, s: seq<T>, t: seq<T>)
    ensures Union(blame, s + t) == Union(blame, s) + Union(blame, t)
  {
    assert forall q :: q in s + t <==> q in s || q in t;
  }

  lemma UnionOne<T>(blame: map<T, set<T>>, e: T)
    requires e in blame
    ensures Union(blame, [e]) == blame[e]
  {
    assert e in [e];
  }

  /** All blame has been found, or will be from the worklist. */
  ghost predicate Blaming<T>(blame: map<T, set<T>>, start: T, found: set<T>, work: seq<T>) {
    start in blame && blame[start] == found + Union(blame, work)
  }

  lemma BlameSwap<T>(blame: map<T, set<T>>, start: T, found: set<T>, work: seq<T>, direct: set<T>, pushed: seq<T>)
    requires work != [] && Blaming(blame, start, found, work)
    requires work[|work| - 1] in blame && blame[work[|work| - 1]] == direct + Union(blame, pushed)
    ensures Blaming(blame, start, found + direct, work[..|work| - 1] + pushed)
  {
    var top, rest := work[|work| - 1], work[..|work| - 1];
    assert work == rest + [top];
    UnionConcat(blame, rest, [top]);
    UnionOne(blame, top);
    UnionConcat(blame, rest, pushed);
  }

  lemma IdlePopsStep<T>(g: map<T, seq<T>>, rank: map<T, nat>, satisfied: set<T>, idle: set<T>, bound: nat, work: seq<T>)
    requires Acyclic(g, rank) && work != [] && Below(g, rank, work, bound)
    ensures var top, rest := work[|work| - 1], work[..|work| - 1];
      Below(g, rank, rest + IdleOf(g[top], satisfied, idle), bound)
      && Pops(g, rank, rest + IdleOf(g[top], satisfied, idle), bound) < Pops(g, rank, work, bound)
  {
    var top := work[|work| - 1];
    IdlePops(g, rank, g[top], satisfied, idle, rank[top]);
    PopsShrink(g, rank, work, bound, IdleOf(g[top], satisfied, idle));
  }

  ghost predicate BlameLoop<T>(g: map<T, seq<T>>, rank: map<T, nat>, satisfied: set<T>, idle: set<T>, start: T,
      found: set<T>, work: seq<T>)
    requires Acyclic(g, rank) && start in g
  {
    && Below(g, rank, work, rank[start] + 1)
    && BlameOf(g, rank, satisfied, idle, start) == found + WorkBlame(g, rank, satisfied, idle, work)
  }

  ghost function WorkBlame<T>(g: map<T, seq<T>>, rank: map<T, nat>, satisfied: set<T>, idle: set<T>,
      work: seq<T>): set<T>
    requires Acyclic(g, rank)
  {
    Union(BlameMap(g, rank, satisfied, idle), work)
  }

  lemma BlameStart<T>(g: map<T, seq<T>>, rank: map<T, nat>, satisfied: set<T>, idle: set<T>, start: T)
    requires Acyclic(g, rank) && start in g
    ensures BlameLoop(g, rank, satisfied, idle, start, {}, [start])
  {
    UnionOne(BlameMap(g, rank, satisfied, idle), start);
  }

  lemma BlameDone<T>(g: map<T, seq<T>>, rank: map<T, nat>, satisfied: set<T>, idle: set<T>, start: T, found: set<T>)
    requires Acyclic(g, rank) && start in g && BlameLoop(g, rank, satisfied, idle, start, found, [])
    ensures BlameOf(g, rank, satisfied, idle, start) == found
  {
    hide BlameMap, BlameOf, Acyclic;
    assert Union(BlameMap(g, rank, satisfied, idle), []) == {};
  }

  /** The measure of the worklist is defined while the loop runs. */
  lemma BlameBelow<T>(g: map<T, seq<T>>, rank: map<T, nat>, satisfied: set<T>, idle: set<T>, start: T, found: set<T>,
      work: seq<T>)
    requires Acyclic(g, rank) && start in g && BlameLoop(g, rank, satisfied, idle, start, found, work)
    ensures start in rank && Below(g, rank, work, rank[start] + 1)
  {
  }

  lemma BlameLoopParts<T>(g: map<T, seq<T>>, rank: map<T, nat>, satisfied: set<T>, idle: set<T>, start: T,
      found: set<T>, work: seq<T>)
    requires Acyclic(g, rank) && start in g
    ensures BlameLoop(g, rank, satisfied, idle, start, found, work) <==>
      Below(g, rank, work, rank[start] + 1) && Blaming(BlameMap(g, rank, satisfied, idle), start, found, work)
  {
  }

  lemma BelowTop<T>(g: map<T, seq<T>>, rank: map<T, nat>, work: seq<T>, bound: nat)
    requires Acyclic(g, rank) && work != [] && Below(g, rank, work, bound)
    ensures work[|work| - 1] in g
  {
    assert work[|work| - 1] in work;
  }

  lemma BlameTurn<T>(g: map<T, seq<T>>, rank: map<T, nat>, satisfied: set<T>, idle: set<T>, start: T, found: set<T>,
      work: seq<T>)
    requires Acyclic(g, rank) && start in g && work != [] && BlameLoop(g, rank, satisfied, idle, start, found, work)
    ensures work[|work| - 1] in g
    ensures var top, rest := work[|work| - 1], work[..|work| - 1];
      var found2, work2 := found + UnsatisfiedOf(g[top], satisfied), rest + IdleOf(g[top], satisfied, idle);
      BlameLoop(g, rank, satisfied, idle, start, found2, work2)
      && Pops(g, rank, work2, rank[start] + 1) < Pops(g, rank, work, rank[start] + 1)
  {
    assert start in rank;
    hide *;
    BlameLoopParts(g, rank, satisfied, idle, start, found, work);
    BelowTop(g, rank, work, rank[start] + 1);
    var top, rest := work[|work| - 1], work[..|work| - 1];
    var direct, pushed := UnsatisfiedOf(g[top], satisfied), IdleOf(g[top], satisfied, idle);
    BlameMapEntry(g, rank, satisfied, idle, top);
    BlameSwap(BlameMap(g, rank, satisfied, idle), start, found, work, direct, pushed);
    IdlePopsStep(g, rank, satisfied, idle, rank[start] + 1, work);
    BlameLoopParts(g, rank, satisfied, idle, start, found + direct, rest + pushed);
  }

  // ---------- retiring ----------

  /** `region` holds the prerequisites of `start`, and of each of its own nodes. */
  ghost predicate Region<T>(g: map<T, seq<T>>, start: T, region: set<T>) {
    && start in g && region <= g.Keys
    && (forall p :: p in g[start] ==> p in region)
    && (forall e, p :: e in region && p in g[e] ==> p in region)
  }

  /** Retiring the region of `start` has reached `retired`, with `work` left to look behind. */
  ghost predicate Retiring<T>(g: map<T, seq<T>>, start: T, region: set<T>, before: set<T>, retired: set<T>,
      work: seq<T>)
    requires Region(g, start, region)
  {
    && before <= retired <= before + region
    && retired <= g.Keys
    && (forall x :: x in work ==> x == start || x in region)
    && (forall x, p :: x in retired && x !in work && p in g[x] ==> p in retired)
    && (start in work || forall p :: p in g[start] ==> p in retired)
  }

  ghost function RegionBehind<T>(g: map<T, seq<T>>, rank: map<T, nat>, start: T): (region: set<T>)
    requires Acyclic(g, rank) && start in g
  {
    set x | x in g && Behind(g, rank, start, x)
  }

  lemma BehindRegion<T>(g: map<T, seq<T>>, rank: map<T, nat>, start: T)
    requires Acyclic(g, rank) && start in g
    ensures Region(g, start, RegionBehind(g, rank, start))
  {
    var region := RegionBehind(g, rank, start);
    forall p | p in g[start]
      ensures p in region
    {
      BehindNext(g, rank, start, g.Keys, start, p);
    }
    forall e, p | e in region && p in g[e]
      ensures p in region
    {
      BehindNext(g, rank, start, g.Keys, e, p);
    }
  }

  /** The first occurrences in a list of nodes not retired before. */
  ghost function NewOnes<T>(list: seq<T>, retired: set<T>): seq<T> {
    if list == [] then []
    else
      var init, last := list[..|list| - 1], list[|list| - 1];
      NewOnes(init, retired) + if last in retired || last in init then [] else [last]
  }

  lemma {:induction false} NewOnesElements<T>(list: seq<T>, retired: set<T>)
    ensures forall p :: p in NewOnes(list, retired) ==> p in list && p !in retired
    ensures forall p :: p in list && p !in retired ==> p in NewOnes(list, retired)
  {
    if list != [] {
      assert list == list[..|list| - 1] + [list[|list| - 1]];
      NewOnesElements(list[..|list| - 1], retired);
    }
  }

  lemma NewOnesSnoc<T>(list: seq<T>, i: nat, retired: set<T>)
    requires i < |list|
    ensures NewOnes(list[..i + 1], retired)
      == NewOnes(list[..i], retired) + if list[i] in retired || list[i] in list[..i] then [] else [list[i]]
    ensures Elements(list[..i + 1]) == Elements(list[..i]) + {list[i]}
  {
    assert list[..i + 1] == list[..i] + [list[i]];
    assert list[..i + 1][..i] == list[..i];
  }

  ghost function Elements<T>(list: seq<T>): set<T> {
    set p | p in list
  }

  lemma RetireKeeps<T>(g: map<T, seq<T>>, start: T, region: set<T>, before: set<T>, retired: set<T>, rest: seq<T>,
      top: T)
    requires Region(g, start, region) && top in g && Retiring(g, start, region, before, retired, rest + [top])
    ensures Retiring(g, start, region, before, retired + Elements(g[top]), rest + NewOnes(g[top], retired))
  {
    var more, work, after := NewOnes(g[top], retired), rest + NewOnes(g[top], retired), retired + Elements(g[top]);
    NewOnesElements(g[top], retired);
    assert top in rest + [top];
    assert forall p :: p in g[top] ==> p in region;
    assert forall x :: x in work <==> x in rest || x in more;
    assert forall x :: x in rest + [top] <==> x in rest || x == top;
    forall x, p | x in after && x !in work && p in g[x]
      ensures p in after
    {
      if x != top { assert x in retired && x !in rest + [top]; }
    }
  }

  lemma RetireStep<T>(g: map<T, seq<T>>, start: T, region: set<T>, before: set<T>, retired: set<T>, work: seq<T>)
    requires Region(g, start, region) && work != [] && Retiring(g, start, region, before, retired, work)
    ensures work[|work| - 1] in g
    ensures var top := work[|work| - 1];
      Retiring(g, start, region, before, retired + Elements(g[top]), work[..|work| - 1] + NewOnes(g[top], retired))
    ensures var top := work[|work| - 1];
      if NewOnes(g[top], retired) == [] then retired + Elements(g[top]) == retired
      else |g.Keys - (retired + Elements(g[top]))| < |g.Keys - retired|
  {
    var top, rest := work[|work| - 1], work[..|work| - 1];
    assert work == rest + [top] && top in g;
    RetireKeeps(g, start, region, before, retired, rest, top);
    if NewOnes(g[top], retired) != [] {
      RetireShrinks(g, retired, top, retired + Elements(g[top]));
    } else {
      NewOnesElements(g[top], retired);
    }
  }

  lemma RetireShrinks<T>(g: map<T, seq<T>>, retired: set<T>, top: T, after: set<T>)
    requires top in g && NewOnes(g[top], retired) != [] && after == retired + Elements(g[top]) && after <= g.Keys
    ensures |g.Keys - after| < |g.Keys - retired|
  {
    var more := NewOnes(g[top], retired);
    NewOnesElements(g[top], retired);
    assert more[0] in more && more[0] in after;
    FewerLeft(g.Keys, retired, after);
  }

  lemma FewerLeft<T>(world: set<T>, fewer: set<T>, more: set<T>)
    requires fewer < more <= world
    ensures |world - more| < |world - fewer|
  {
    var x :| x in more && x !in fewer;
    assert world - more <= world - fewer - {x};
    SubsetSize(world - more, world - fewer - {x});
  }

  lemma {:induction false} SubsetSize<T>(a: set<T>, b: set<T>)
    requires a <= b
    ensures |a| <= |b|
  {
    if x :| x in a { SubsetSize(a - {x}, b - {x}); }
  }

  lemma RetiredAll<T>(g: map<T, seq<T>>, rank: map<T, nat>, start: T, before: set<T>, retired: set<T>)
    requires Acyclic(g, rank) && start in g && Region(g, start, RegionBehind(g, rank, start))
    requires Retiring(g, start, RegionBehind(g, rank, start), before, retired, [])
    ensures retired == before + RegionBehind(g, rank, start)
    ensures ClosedUnder(g, retired)
  {
    BehindLeast(g, rank, start, retired);
    assert RegionBehind(g, rank, start) <= retired;
  }

  lemma AlreadyRetired<T>(g: map<T, seq<T>>, rank: map<T, nat>, e: T, retired: set<T>)
    requires Acyclic(g, rank) && e in g && e in retired && ClosedUnder(g, retired)
    ensures retired == retired + RegionBehind(g, rank, e)
  {
    BehindLeast(g, rank, e, retired);
    assert RegionBehind(g, rank, e) <= retired;
  }

  // ---------- adding a prerequisite ----------

  ghost function Bonus<T>(g: map<T, seq<T>>, rank: map<T, nat>, e: T, bonus: nat, x: T): nat
    requires Acyclic(g, rank) && x in g
  {
    rank[x] + if x == e || Behind(g, rank, x, e) then bonus else 0
  }

  ghost function Added<T>(g: map<T, seq<T>>, e: T, last: T): map<T, seq<T>>
    requires e in g
  {
    g[e := g[e] + [last]]
  }

  /** A ranking for the graph in which `last` has become a prerequisite of `e`. */
  ghost function Reranked<T>(g: map<T, seq<T>>, rank: map<T, nat>, e: T, last: T): map<T, nat>
    requires Acyclic(g, rank) && last in g
  {
    map x | x in g :: Bonus(g, rank, e, rank[last] + 1, x)
  }

  /** Whatever waits for a node with a bonus has one too. */
  lemma BonusGrows<T>(g: map<T, seq<T>>, rank: map<T, nat>, e: T, bonus: nat, x: T, p: T)
    requires Acyclic(g, rank) && x in g && p in g[x]
    ensures p in g && Bonus(g, rank, e, bonus, p) < Bonus(g, rank, e, bonus, x)
  {
    assert p == e || Behind(g, rank, p, e) ==> Behind(g, rank, x, e);
  }

  lemma AddKeepsAcyclic<T>(g: map<T, seq<T>>, rank: map<T, nat>, e: T, last: T)
    requires Acyclic(g, rank) && e in g && last in g && last != e && !Behind(g, rank, last, e)
    ensures Acyclic(Added(g, e, last), Reranked(g, rank, e, last))
  {
    hide Behind, Bonus;
    var g2, r2 := Added(g, e, last), Reranked(g, rank, e, last);
    forall x, p | x in g2 && p in g2[x]
      ensures p in g2 && r2[p] < r2[x]
    {
      if p in g[x] {
        BonusGrows(g, rank, e, rank[last] + 1, x, p);
      } else {
        assert x == e && p == last;
        BonusOfLast(g, rank, e, last);
      }
    }
  }

  lemma BonusOfLast<T>(g: map<T, seq<T>>, rank: map<T, nat>, e: T, last: T)
    requires Acyclic(g, rank) && e in g && last in g && last != e && !Behind(g, rank, last, e)
    ensures Bonus(g, rank, e, rank[last] + 1, last) < Bonus(g, rank, e, rank[last] + 1, e)
  {
  }

  lemma RankAdded<T>(g: map<T, seq<T>>, rank: map<T, nat>, e: T, last: T) returns (other: map<T, nat>)
    requires Acyclic(g, rank) && e in g && last in g && last != e && !Behind(g, rank, last, e)
    ensures Acyclic(Added(g, e, last), other)
  {
    other := Reranked(g, rank, e, last);
    AddKeepsAcyclic(g, rank, e, last);
  }

  /** Any ranking puts what lies behind a node below it. */
  lemma {:induction false} BehindIsLower<T>(g: map<T, seq<T>>, rank: map<T, nat>, wider: map<T, seq<T>>,
      other: map<T, nat>, e: T, x: T)
    requires Acyclic(g, rank) && Acyclic(wider, other) && e in g && Behind(g, rank, e, x)
    requires forall y, p :: y in g && p in g[y] ==> y in wider && p in wider[y]
    ensures x in wider && e in wider && other[x] < other[e]
    decreases rank[e]
  {
    var p :| p in g[e] && (x == p || Behind(g, rank, p, x));
    if x != p { BehindIsLower(g, rank, wider, other, p, x); }
  }

  /** Adding a prerequisite leaves the graph acyclic if and only if the successor was not already
      before it. */
  lemma AddKeepsAcyclicExactly<T>(g: map<T, seq<T>>, rank: map<T, nat>, e: T, last: T)
    requires Acyclic(g, rank) && e in g && last in g
    ensures (exists other: map<T, nat> :: Acyclic(Added(g, e, last), other)) <==> last != e && !Behind(g, rank, last, e)
  {
    var g2 := Added(g, e, last);
    if last != e && !Behind(g, rank, last, e) {
      AddKeepsAcyclic(g, rank, e, last);
    } else {
      forall other: map<T, nat>
        ensures !Acyclic(g2, other)
      {
        assert last in g2[e];
        if Acyclic(g2, other) && last != e { BehindIsLower(g, rank, g2, other, last, e); }
      }
    }
  }

  /** A node that nobody waits for lies behind nobody. */
  lemma {:induction false} FreshBehindNone<T>(g: map<T, seq<T>>, rank: map<T, nat>, e: T, x: T)
    requires Acyclic(g, rank) && x in g && forall y :: y in g ==> e !in g[y]
    ensures !Behind(g, rank, x, e)
    decreases rank[x]
  {
    forall p | p in g[x]
      ensures p != e && !Behind(g, rank, p, e)
    {
      FreshBehindNone(g, rank, e, p);
    }
  }
}

/** Expectations on mock functions, their prerequisites, and how calls retire them. */
module Expectations {
  import opened PrerequisiteGraph

  /** Prerequisites of all expectations in `world`. */
  ghost function Prerequisites(world: set<Expectation>): map<Expectation, seq<Expectation>>
    reads world`immediatePrerequisites
  {
    map e | e in world :: e.immediatePrerequisites
  }

  lemma PrerequisitesAt(world: set<Expectation>, e: Expectation)
    ensures e in Prerequisites(world) <==> e in world
    ensures e in world ==> Prerequisites(world)[e] == e.immediatePrerequisites
  {
  }

  ghost function SatisfiedIn(world: set<Expectation>): set<Expectation>
    reads world`callCount
  {
    set e | e in world && e.IsSatisfied()
  }

  ghost function IdleIn(world: set<Expectation>): set<Expectation>
    reads world`callCount
  {
    set e | e in world && e.callCount == 0
  }

  ghost function RetiredIn(world: set<Expectation>): set<Expectation>
    reads world`retired
  {
    set e | e in world && e.retired
  }

  class Expectation {
    const min: nat
    const max: nat
    const retiresOnSaturation: bool
    var immediatePrerequisites: seq<Expectation>
    var callCount: nat
    var retired: bool

    constructor (min: int, max: int, retiresOnSaturation: bool)
      ensures this.min == (if min >= 0 then min else 0) && this.max == (if max >= this.min then max else this.min)
      ensures this.retiresOnSaturation == retiresOnSaturation
      ensures immediatePrerequisites == [] && callCount == 0 && !retired
    {
      var low := if min >= 0 then min else 0;
      this.min, this.max := low, if max >= low then max else low;
      this.retiresOnSaturation := retiresOnSaturation;
      immediatePrerequisites, callCount, retired := [], 0, false;
    }

    predicate IsSatisfied()
      reads this`callCount
    {
      min <= callCount <= max
    }

    predicate IsSaturated()
      reads this`callCount
    {
      callCount >= max
    }

    method AllPrerequisitesAreSatisfied(ghost world: set<Expectation>,
        ghost rank: map<Expectation, nat>) returns (ok: bool)
      requires this in world && Acyclic(Prerequisites(world), rank)
      ensures ok <==> AllBehind(Prerequisites(world), rank, this, SatisfiedIn(world))
      ensures ok <==> forall x :: x in Prerequisites(world) && Behind(Prerequisites(world), rank, this, x) ==>
        x.min <= x.callCount <= x.max
    {
      ghost var g, good := Prerequisites(world), SatisfiedIn(world);
      ghost var bound, done: set<Expectation> := rank[this] + 1, {};
      var expectations := [this];
      while expectations != []
        invariant Searching(g, rank, this, good, done, expectations)
        decreases Pops(g, rank, expectations, bound)
      {
        ghost var before := expectations;
        var exp := expectations[|expectations| - 1];
        expectations := expectations[..|expectations| - 1];
        ghost var below := expectations;
        assert exp in before && Met(g, rank, this, good, exp);
        for i := 0 to |exp.immediatePrerequisites|
          invariant expectations == below + g[exp][..i]
          invariant forall p :: p in g[exp][..i] ==> p in good
        {
          var next := exp.immediatePrerequisites[i];
          BehindNext(g, rank, this, good, exp, next);
          if !next.IsSatisfied() { return false; }
          assert g[exp][..i + 1] == g[exp][..i] + [next];
          expectations := expectations + [next];
        }
        assert g[exp][..|g[exp]|] == g[exp];
        SearchStep(g, rank, this, good, done, before);
        PopsShrink(g, rank, before, bound, g[exp]);
        done := done + {exp};
      }
      SearchedAll(g, rank, this, good, done);
      return true;
    }

    /** Adds to `found` the prerequisites that the explanation of a mismatch lists. */
    method FindUnsatisfiedPrerequisites(found: set<Expectation>, ghost world: set<Expectation>,
        ghost rank: map<Expectation, nat>)
        returns (result: set<Expectation>)
      requires this in world && Acyclic(Prerequisites(world), rank)
      ensures result == found + BlameOf(Prerequisites(world), rank, SatisfiedIn(world), IdleIn(world), this)
    {
      ghost var g, good, idle := Prerequisites(world), SatisfiedIn(world), IdleIn(world);
      ghost var blamed: set<Expectation> := {};
      hide *;
      PrerequisitesAt(world, this);
      BlameStart(g, rank, good, idle, this);
      BlameBelow(g, rank, good, idle, this, blamed, [this]);
      var expectations := [this];
      result := found;
      while expectations != []
        invariant BlameLoop(g, rank, good, idle, this, blamed, expectations) && result == found + blamed
        invariant Below(g, rank, expectations, rank[this] + 1)
        decreases Pops(g, rank, expectations, rank[this] + 1)
      {
        BlameTurn(g, rank, good, idle, this, blamed, expectations);
        var exp := expectations[|expectations| - 1];
        expectations := expectations[..|expectations| - 1];
        PrerequisitesAt(world, exp);
        expectations, result := exp.PushUnsatisfied(expectations, result, world, rank, g[exp], good, idle);
        blamed := blamed + UnsatisfiedOf(g[exp], good);
        BlameBelow(g, rank, good, idle, this, blamed, expectations);
      }
      BlameDone(g, rank, good, idle, this, blamed);
    }

    /** The inner loop of the search. */
    method PushUnsatisfied(work: seq<Expectation>, found: set<Expectation>, ghost world: set<Expectation>,
        ghost rank: map<Expectation, nat>, ghost list: seq<Expectation>, ghost good: set<Expectation>,
        ghost idle: set<Expectation>)
        returns (expectations: seq<Expectation>, result: set<Expectation>)
      requires this in world && Acyclic(Prerequisites(world), rank)
      requires list == immediatePrerequisites && good == SatisfiedIn(world) && idle == IdleIn(world)
      ensures expectations == work + IdleOf(list, good, idle)
      ensures result == found + UnsatisfiedOf(list, good)
    {
      ghost var g := Prerequisites(world);
      assert list == g[this];
      expectations, result := work, found;
      for i := 0 to |immediatePrerequisites|
        invariant expectations == work + IdleOf(list[..i], good, idle)
        invariant result == found + UnsatisfiedOf(list[..i], good)
      {
        var next := immediatePrerequisites[i];
        assert next in g[this] && next in g;
        IdleOfSnoc(list, i, good, idle);
        if next.IsSatisfied() {
          if next.callCount == 0 {
            expectations := expectations + [next];
          }
        } else {
          result := result + {next};
        }
      }
      assert list[..|list|] == list;
    }

    /** Retires exactly what lies behind this expectation, given that what lies behind a retired one
        is retired already. */
    method RetireAllPreRequisites(ghost world: set<Expectation>, ghost rank: map<Expectation, nat>)
      requires this in world && Acyclic(Prerequisites(world), rank)
      requires ClosedUnder(Prerequisites(world), RetiredIn(world))
      modifies world`retired
      ensures Prerequisites(world) == old(Prerequisites(world))
      ensures ClosedUnder(Prerequisites(world), RetiredIn(world))
      ensures RetiredIn(world) == old(RetiredIn(world)) + RegionBehind(Prerequisites(world), rank, this)
    {
      ghost var g, start := Prerequisites(world), RetiredIn(world);
      if retired {
        AlreadyRetired(g, rank, this, start);
        return;
      }
      ghost var region := RegionBehind(g, rank, this);
      BehindRegion(g, rank, this);
      assert this in [this] && Retiring(g, this, region, start, start, [this]);
      var expectations := [this];
      while expectations != []
        invariant Prerequisites(world) == g
        invariant Retiring(g, this, region, start, RetiredIn(world), expectations)
        decreases |g.Keys - RetiredIn(world)|, |expectations|
      {
        ghost var gone := RetiredIn(world);
        RetireStep(g, this, region, start, gone, expectations);
        var exp := expectations[|expectations| - 1];
        var rest := expectations[..|expectations| - 1];
        expectations := exp.RetireImmediate(rest, world, rank);
        assert RetiredIn(world) == gone + Elements(g[exp]) && expectations == rest + NewOnes(g[exp], gone);
      }
      RetiredAll(g, rank, this, start, RetiredIn(world));
    }

    /** The inner loop of the retirement. */
    method RetireImmediate(work: seq<Expectation>, ghost world: set<Expectation>, ghost rank: map<Expectation, nat>)
        returns (expectations: seq<Expectation>)
      requires this in world && Acyclic(Prerequisites(world), rank)
      modifies world`retired
      ensures Prerequisites(world) == old(Prerequisites(world))
      ensures expectations == work + NewOnes(immediatePrerequisites, old(RetiredIn(world)))
      ensures RetiredIn(world) == old(RetiredIn(world)) + Elements(immediatePrerequisites)
    {
      ghost var g, before, list := Prerequisites(world), RetiredIn(world), immediatePrerequisites;
      assert list == g[this];
      expectations := work;
      for i := 0 to |immediatePrerequisites|
        invariant expectations == work + NewOnes(list[..i], before)
        invariant RetiredIn(world) == before + Elements(list[..i])
      {
        var next := immediatePrerequisites[i];
        assert next in g[this] && next in g;
        NewOnesSnoc(list, i, before);
        assert next.retired <==> next in before || next in list[..i] by {
          assert next in RetiredIn(world) <==> next.retired;
        }
        if !next.retired {
          ghost var sofar := RetiredIn(world);
          next.retired := true;
          assert RetiredIn(world) == sofar + {next};
          expectations := expectations + [next];
        }
      }
      assert list[..|list|] == list;
    }

    /** Adds to the set of prerequisites. */
    method AddPrerequisite(p: Expectation, ghost world: set<Expectation>)
      requires this in world && p != this
      modifies this`immediatePrerequisites
      ensures immediatePrerequisites ==
        old(immediatePrerequisites) + if p in old(immediatePrerequisites) then [] else [p]
      ensures Prerequisites(world) == Linked(old(Prerequisites(world)), this, p)
      ensures Counts(world) == old(Counts(world)) && RetiredIn(world) == old(RetiredIn(world))
    {
      if p !in immediatePrerequisites {
        immediatePrerequisites := immediatePrerequisites + [p];
      }
    }

    /** Takes a call: an excessive one is only counted, any other one retires what lies behind. */
    method GetActionForArguments(ghost world: set<Expectation>,
        ghost rank: map<Expectation, nat>) returns (excessive: bool)
      requires this in world && Sound(world, rank) && !retired
      requires AllBehind(Prerequisites(world), rank, this, SatisfiedIn(world))
      modifies this`callCount, world`retired
      ensures Sound(world, rank)
      ensures callCount == old(callCount) + 1 && (excessive <==> old(callCount) >= max)
      ensures Prerequisites(world) == old(Prerequisites(world))
      ensures Counts(world) == old(Counts(world))[this := callCount]
      ensures excessive ==> RetiredIn(world) == old(RetiredIn(world))
      ensures !excessive ==>
        && RetiredIn(world) == old(RetiredIn(world)) + RegionBehind(Prerequisites(world), rank, this)
             + (if retiresOnSaturation && callCount == max then {this} else {})
        && (retired <==> retiresOnSaturation && callCount == max)
    {
      ghost var g, count, before := Prerequisites(world), Counts(world), RetiredIn(world);
      excessive := IsSaturated();
      var retires := CountCall(world, excessive);
      if !excessive {
        RetireAllPreRequisites(world, rank);
        if retires { RetireSelf(world); }
      }
      CallKeepsSound(g, rank, count, before, this, RetiredIn(world), retires);
      NotBehindItself(g, rank, this);
      assert retired <==> this in RetiredIn(world);
    }

    method CountCall(ghost world: set<Expectation>, excessive: bool) returns (retires: bool)
      requires this in world
      modifies this`callCount
      ensures callCount == old(callCount) + 1 && retires == (!excessive && retiresOnSaturation && IsSaturated())
      ensures Prerequisites(world) == old(Prerequisites(world)) && RetiredIn(world) == old(RetiredIn(world))
      ensures Counts(world) == old(Counts(world))[this := callCount]
    {
      callCount := callCount + 1;
      retires := !excessive && retiresOnSaturation && IsSaturated();
    }

    method RetireSelf(ghost world: set<Expectation>)
      requires this in world
      modifies this`retired
      ensures retired
      ensures Prerequisites(world) == old(Prerequisites(world)) && Counts(world) == old(Counts(world))
      ensures RetiredIn(world) == old(RetiredIn(world)) + {this}
    {
      retired := true;
    }
  }

  /** A call counted on `e`; unless it was excessive, what lies behind `e` is now retired, and `e`
      perhaps too. */
  lemma CallKeepsSound(g: map<Expectation, seq<Expectation>>, rank: map<Expectation, nat>, count: map<Expectation, nat>,
      gone: set<Expectation>, e: Expectation, after: set<Expectation>, retires: bool)
    requires SoundState(g, rank, count, gone) && e in g && e !in gone
    requires AllBehind(g, rank, e, InRange(count))
    requires after ==
      gone + (if count[e] >= e.max then {} else RegionBehind(g, rank, e)) + (if retires then {e} else {})
    requires retires ==> count[e] + 1 == e.max
    ensures SoundState(g, rank, count[e := count[e] + 1], after)
  {
    NotBehindItself(g, rank, e);
    var now := count[e := count[e] + 1];
    forall x | x in after
      ensures x in g && x.min <= now[x] <= x.max
    {
      if x != e && x !in gone { assert x in InRange(count); }
    }
    forall x, p | x in g && (x in after || (now[x] > 0 && x.max > 0)) && p in g[x]
      ensures p in after
    {
      if x == e {
        BehindNext(g, rank, e, g.Keys, e, p);
      } else if x !in gone && x in after {
        BehindNext(g, rank, e, g.Keys, x, p);
      }
    }
  }

  lemma NotBehindItself(g: map<Expectation, seq<Expectation>>, rank: map<Expectation, nat>, e: Expectation)
    requires Acyclic(g, rank) && e in g
    ensures !Behind(g, rank, e, e)
  {
    if Behind(g, rank, e, e) { BehindLower(g, rank, e, e); }
  }

  // ---------- what every call keeps ----------

  /** Retired expectations are satisfied and have only retired ones behind them; so have those
      called within their limit. */
  ghost predicate Sound(world: set<Expectation>, rank: map<Expectation, nat>)
    reads world
  {
    SoundState(Prerequisites(world), rank, Counts(world), RetiredIn(world))
  }

  ghost predicate SoundState(g: map<Expectation, seq<Expectation>>, rank: map<Expectation, nat>,
      count: map<Expectation, nat>, gone: set<Expectation>)
  {
    && Acyclic(g, rank) && count.Keys == g.Keys && gone <= g.Keys
    && (forall e :: e in g ==> e.min <= e.max)
    && (forall e :: e in gone ==> e.min <= count[e] <= e.max)
    && (forall e, p :: e in g && (e in gone || (count[e] > 0 && e.max > 0)) && p in g[e] ==> p in gone)
  }

  ghost function Counts(world: set<Expectation>): map<Expectation, nat>
    reads world`callCount
  {
    map e | e in world :: e.callCount
  }

  ghost function InRange(count: map<Expectation, nat>): set<Expectation> {
    set e | e in count && e.min <= count[e] <= e.max
  }

  /** Before the first call. */
  lemma StartsSound(world: set<Expectation>, rank: map<Expectation, nat>)
    requires Acyclic(Prerequisites(world), rank)
    requires forall e :: e in world ==> e.min <= e.max && e.callCount == 0 && !e.retired
    ensures Sound(world, rank) && SpentAreRetired(world)
  {
    assert RetiredIn(world) == {};
  }

  /** The search for someone to blame may stop at satisfied expectations that have been called. */
  lemma SoundIsClear(world: set<Expectation>, rank: map<Expectation, nat>)
    requires Sound(world, rank)
    ensures ActiveClear(Prerequisites(world), rank, SatisfiedIn(world), IdleIn(world))
  {
    var g, gone := Prerequisites(world), RetiredIn(world);
    forall x | x in g && x in SatisfiedIn(world) && x !in IdleIn(world)
      ensures AllBehind(g, rank, x, SatisfiedIn(world))
    {
      assert forall p :: p in g[x] ==> p in gone;
      BehindLeast(g, rank, x, gone);
      assert gone <= SatisfiedIn(world);
    }
  }

  /** After any calls whatever: the explanation names some prerequisite if and only if one behind the
      expectation is unsatisfied. */
  lemma BlamesSomeone(world: set<Expectation>, rank: map<Expectation, nat>, e: Expectation)
    requires Sound(world, rank) && e in world
    ensures BlameOf(Prerequisites(world), rank, SatisfiedIn(world), IdleIn(world), e) == {}
      <==> AllBehind(Prerequisites(world), rank, e, SatisfiedIn(world))
  {
    var g := Prerequisites(world);
    SoundIsClear(world, rank);
    BlameExactly(g, rank, SatisfiedIn(world), IdleIn(world), e);
    var blame := BlameOf(g, rank, SatisfiedIn(world), IdleIn(world), e);
    if x :| x in g && Blamed(g, rank, SatisfiedIn(world), IdleIn(world), e, x) { assert x in blame; }
    if blame != {} { var x :| x in blame; }
  }

  /** An expectation called within its limit has been called after everything behind it, and
      nothing behind it can be called any more. */
  lemma CalledInOrder(world: set<Expectation>, rank: map<Expectation, nat>, e: Expectation)
    requires Sound(world, rank) && e in world && 0 < e.callCount <= e.max
    ensures forall x :: x in Prerequisites(world) && Behind(Prerequisites(world), rank, e, x) ==>
      x.retired && x.IsSatisfied()
  {
    var g, gone := Prerequisites(world), RetiredIn(world);
    assert forall p :: p in g[e] ==> p in gone;
    BehindLeast(g, rank, e, gone);
    forall x | x in g && Behind(g, rank, e, x)
      ensures x in gone && x.IsSatisfied()
    {
      assert Counts(world)[x] == x.callCount;
    }
  }

  /** An expectation that retires on saturation, and can be called at all, is retired by the call that
      saturates it. */
  ghost predicate SpentAreRetired(world: set<Expectation>)
    reads world
  {
    SpentState(Counts(world), RetiredIn(world))
  }

  ghost predicate SpentState(count: map<Expectation, nat>, gone: set<Expectation>) {
    forall e :: e in count && e.retiresOnSaturation && e.max > 0 ==>
      count[e] <= e.max && (count[e] == e.max ==> e in gone)
  }

  lemma CallKeepsSpent(count: map<Expectation, nat>, gone: set<Expectation>, e: Expectation, after: set<Expectation>)
    requires SpentState(count, gone) && e in count && e !in gone && gone <= after
    requires e.retiresOnSaturation && count[e] + 1 == e.max ==> e in after
    ensures SpentState(count[e := count[e] + 1], after)
    ensures count[e] >= e.max ==> !e.retiresOnSaturation || e.max == 0
  {
  }

  /** So it takes no further call. */
  lemma SpentTakesNoCall(m: FunctionMocker, e: Expectation, matching: set<Expectation>, world: set<Expectation>,
      rank: map<Expectation, nat>)
    requires Acyclic(Prerequisites(world), rank) && forall x :: x in m.untypedExpectations ==> x in world
    requires SpentAreRetired(world) && e in world && e.retiresOnSaturation && 0 < e.max <= e.callCount
    ensures !m.Chosen(e, matching, world, rank)
  {
  }

  // ---------- the mocker picks an expectation ----------

  class FunctionMocker {
    var untypedExpectations: seq<Expectation>

    constructor ()
      ensures untypedExpectations == []
    {
      untypedExpectations := [];
    }

    ghost predicate Handles(e: Expectation, matching: set<Expectation>, world: set<Expectation>,
        rank: map<Expectation, nat>)
      requires e in world && Acyclic(Prerequisites(world), rank)
      reads world
    {
      !e.retired && e in matching && AllBehind(Prerequisites(world), rank, e, SatisfiedIn(world))
    }

    ghost predicate IsLatest(i: nat, exp: Expectation, matching: set<Expectation>, world: set<Expectation>,
        rank: map<Expectation, nat>)
      requires Acyclic(Prerequisites(world), rank) && forall e :: e in untypedExpectations ==> e in world
      requires i < |untypedExpectations|
      reads this, world
    {
      && exp == untypedExpectations[i] && Handles(exp, matching, world, rank)
      && forall j :: i < j < |untypedExpectations| ==> !Handles(untypedExpectations[j], matching, world, rank)
    }

    /** The latest expectation that handles the call, or none if none does. */
    ghost predicate Chosen(exp: Expectation?, matching: set<Expectation>, world: set<Expectation>,
        rank: map<Expectation, nat>)
      requires Acyclic(Prerequisites(world), rank) && forall e :: e in untypedExpectations ==> e in world
      reads this, world
    {
      if exp == null then forall e :: e in untypedExpectations ==> !Handles(e, matching, world, rank)
      else exists i :: 0 <= i < |untypedExpectations| && IsLatest(i, exp, matching, world, rank)
    }

    /** The latest expectation that can take a call, `matching` being those whose arguments match. */
    method FindMatchingExpectationLocked(matching: set<Expectation>, ghost world: set<Expectation>,
        ghost rank: map<Expectation, nat>)
        returns (exp: Expectation?)
      requires Acyclic(Prerequisites(world), rank) && forall e :: e in untypedExpectations ==> e in world
      ensures Chosen(exp, matching, world, rank)
    {
      var i := |untypedExpectations|;
      while i > 0
        invariant 0 <= i <= |untypedExpectations|
        invariant forall j :: i <= j < |untypedExpectations| ==> !Handles(untypedExpectations[j], matching, world, rank)
      {
        i := i - 1;
        var e := untypedExpectations[i];
        if !e.retired {
          var satisfied := e.AllPrerequisitesAreSatisfied(world, rank);
          if satisfied && e in matching {
            assert IsLatest(i, e, matching, world, rank);
            return e;
          }
        }
      }
      return null;
    }

    /** One call: unmatched, excessive, or taken in order. Whatever happens, `Sound` is kept. */
    method FindAndCall(matching: set<Expectation>, ghost world: set<Expectation>, ghost rank: map<Expectation, nat>)
        returns (exp: Expectation?, excessive: bool)
      requires Sound(world, rank) && forall e :: e in untypedExpectations ==> e in world
      modifies world`callCount, world`retired
      ensures Sound(world, rank) && (exp == null || exp in world)
      ensures old(Chosen(exp, matching, world, rank))
      ensures forall e :: e in world ==> e.callCount == old(e.callCount) + if e == exp then 1 else 0
      ensures exp == null ==> RetiredIn(world) == old(RetiredIn(world))
      ensures exp != null ==> excessive == (exp.callCount > exp.max)
      ensures exp != null && excessive ==> RetiredIn(world) == old(RetiredIn(world))
      ensures exp != null && !excessive ==>
        && RetiredIn(world) == old(RetiredIn(world)) + RegionBehind<Expectation>(Prerequisites(world), rank, exp)
             + (if exp.retiresOnSaturation && exp.callCount == exp.max then {exp} else {})
        && (exp.retired <==> exp.retiresOnSaturation && exp.callCount == exp.max)
      ensures old(SpentAreRetired(world)) ==> SpentAreRetired(world)
      ensures exp != null && excessive && old(SpentAreRetired(world)) ==> !exp.retiresOnSaturation || exp.max == 0
      ensures exp == null ==> !excessive
    {
      hide SpentState, RegionBehind, AllBehind, Behind;
      ghost var g, gone, count := Prerequisites(world), RetiredIn(world), Counts(world);
      excessive := false;
      exp := FindMatchingExpectationLocked(matching, world, rank);
      assert RetiredIn(world) == gone && Prerequisites(world) == g;
      if exp != null {
        var e: Expectation := exp;
        excessive := e.GetActionForArguments(world, rank);
        assert Prerequisites(world) == g;
        if SpentState(count, gone) { CallKeepsSpent(count, gone, e, RetiredIn(world)); }
      }
    }
  }

  // ---------- sequences ----------

  /** The prerequisites once `e` comes after `last`, if that is another expectation. */
  ghost function Linked(g: map<Expectation, seq<Expectation>>, e: Expectation, last: Expectation?): map<Expectation,
      seq<Expectation>>
    requires e in g
  {
    if last == null || last == e || last in g[e] then g else Added(g, e, last)
  }

  lemma RankLinked(g: map<Expectation, seq<Expectation>>, rank: map<Expectation, nat>, e: Expectation,
      last: Expectation?)
      returns (other: map<Expectation, nat>)
    requires Acyclic(g, rank) && e in g
    requires last != null && last != e ==> last in g && !Behind(g, rank, last, e)
    ensures Acyclic(Linked(g, e, last), other)
  {
    if last == null || last == e || last in g[e] {
      other := rank;
    } else {
      other := RankAdded(g, rank, e, last);
    }
  }

  /** Nothing was taken out of order yet when `e` comes to wait for `last`: `e` has not been retired or called
      within its limit, or `last` is retired already. */
  ghost predicate InTime(count: map<Expectation, nat>, gone: set<Expectation>, e: Expectation, last: Expectation?)
    requires e in count
  {
    last == null || last == e || last in gone || (e !in gone && (count[e] == 0 || e.max == 0))
  }

  ghost predicate ComesInTime(e: Expectation, last: Expectation?)
    reads e, if last == null then {} else {last}
  {
    last == null || last == e || last.retired || (!e.retired && (e.callCount == 0 || e.max == 0))
  }

  lemma LinkedPairs(g: map<Expectation, seq<Expectation>>, e: Expectation, last: Expectation)
    requires e in g && last != e
    ensures Linked(g, e, last).Keys == g.Keys && last in Linked(g, e, last)[e]
    ensures forall x, p :: x in g ==> (p in Linked(g, e, last)[x] <==> p in g[x] || (x == e && p == last))
  {
  }

  /** Linking keeps the invariant if and only if it comes in time. */
  lemma LinkedSoundExactly(g: map<Expectation, seq<Expectation>>, rank: map<Expectation, nat>,
      count: map<Expectation, nat>, gone: set<Expectation>, e: Expectation, last: Expectation?,
      other: map<Expectation, nat>)
    requires SoundState(g, rank, count, gone) && e in g && Acyclic(Linked(g, e, last), other)
    ensures SoundState(Linked(g, e, last), other, count, gone) <==> InTime(count, gone, e, last)
  {
    if last != null && last != e { LinkedPairs(g, e, last); }
    hide Acyclic, Added;
  }

  lemma LinkedRank(world: set<Expectation>, rank: map<Expectation, nat>, e: Expectation, last: Expectation?)
      returns (other: map<Expectation, nat>)
    requires e in world && Acyclic(Prerequisites(world), rank)
    requires last != null && last != e ==> last in world && !Behind(Prerequisites(world), rank, last, e)
    ensures var linked := Linked(Prerequisites(world), e, last);
      && Acyclic(linked, other) && (last == null || last == e ==> linked == Prerequisites(world))
      && (Sound(world, rank) ==>
           (SoundState(linked, other, Counts(world), RetiredIn(world)) <==> ComesInTime(e, last)))
  {
    var g, count, gone := Prerequisites(world), Counts(world), RetiredIn(world);
    other := RankLinked(g, rank, e, last);
    if SoundState(g, rank, count, gone) { LinkedSoundExactly(g, rank, count, gone, e, last, other); }
    assert last != null && last != e ==> (last in gone <==> last.retired);
  }

  lemma SoundParts(world: set<Expectation>, rank: map<Expectation, nat>)
    ensures Sound(world, rank) <==> SoundState(Prerequisites(world), rank, Counts(world), RetiredIn(world))
  {
  }

  class Sequence {
    var lastExpectation: Expectation?

    constructor ()
      ensures lastExpectation == null
    {
      lastExpectation := null;
    }

    /** Adding in an order consistent with the prerequisites so far keeps them acyclic, and keeps `Sound` if
        and only if it comes in time, as it does for an expectation that was neither called nor retired. */
    method AddExpectation(e: Expectation, ghost world: set<Expectation>, ghost rank: map<Expectation, nat>)
        returns (ghost newRank: map<Expectation, nat>)
      requires e in world && Acyclic(Prerequisites(world), rank)
      requires lastExpectation != null && lastExpectation != e ==>
        lastExpectation in world && !Behind(Prerequisites(world), rank, lastExpectation, e)
      modifies this, e`immediatePrerequisites
      ensures lastExpectation == e
      ensures Acyclic(Prerequisites(world), newRank)
      ensures Prerequisites(world) == Linked(old(Prerequisites(world)), e, old(lastExpectation))
      ensures old(Sound(world, rank)) ==> (Sound(world, newRank) <==> old(ComesInTime(e, lastExpectation)))
    {
      hide *;
      newRank := LinkedRank(world, rank, e, lastExpectation);
      if lastExpectation != e {
        if lastExpectation != null {
          e.AddPrerequisite(lastExpectation, world);
        }
        lastExpectation := e;
      }
      SoundParts(world, newRank);
    }
  }
}
