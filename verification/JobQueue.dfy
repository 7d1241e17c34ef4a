/** The queue of pending work: highest priority first, lowest job id first within a priority. */
module JobQueue {
  import opened Wrappers

  /** A queued work request. `root` stands for the root hash it was made for. */
  datatype Job = Job(id: nat, priority: nat, root: nat)

  /** The queue's comparator: true when job1 must leave the queue after job2. */
  predicate After(job1: Job, job2: Job) {
    if job1.priority != job2.priority then job2.priority > job1.priority
    else job1.id > job2.id
  }

  ghost predicate UniqueIds(q: set<Job>) {
    forall a, b :: a in q && b in q && a.id == b.id ==> a == b
  }

  /** No queued job must leave before `t`. */
  ghost predicate IsTop(q: set<Job>, t: Job) {
    t in q && forall x :: x in q ==> !After(t, x)
  }

  lemma {:induction false} TopExists(q: set<Job>)
    requires q != {}
    ensures exists t :: IsTop(q, t)
  {
    var x :| x in q;
    if q == {x} {
      assert IsTop(q, x);
    } else {
      TopExists(q - {x});
      var t :| IsTop(q - {x}, t);
      var r := if After(t, x) then x else t;
      forall y | y in q
        ensures !After(r, y)
      {
        if y != x { assert !After(t, y); }
      }
      assert IsTop(q, r);
    }
  }

  ghost function Top(q: set<Job>): (t: Job)
    requires q != {}
    ensures IsTop(q, t)
  {
    TopExists(q);
    var t :| IsTop(q, t);
    t
  }

  lemma TopUnique(q: set<Job>, t: Job)
    requires UniqueIds(q) && IsTop(q, t)
    ensures Top(q) == t
  {
    assert !After(t, Top(q)) && !After(Top(q), t);
  }

  /** The order in which the jobs leave if nothing else happens. */
  ghost function Drain(q: set<Job>): (out: seq<Job>)
    ensures |out| == |q|
  {
    if q == {} then [] else [Top(q)] + Drain(q - {Top(q)})
  }

  /** By falling priority, and by rising id within one. */
  ghost predicate Sorted(s: seq<Job>) {
    forall i, j :: 0 <= i < j < |s| ==>
      s[i].priority > s[j].priority || (s[i].priority == s[j].priority && s[i].id < s[j].id)
  }

  /** Draining lists exactly the queued jobs: by falling priority, and by rising id within one. */
  lemma {:induction false} DrainSorted(q: set<Job>)
    requires UniqueIds(q)
    ensures Sorted(Drain(q))
    ensures forall j :: j in Drain(q) <==> j in q
  {
    if q != {} {
      hide After, Sorted;
      var t, rest := Top(q), q - {Top(q)};
      assert UniqueIds(rest);
      DrainSorted(rest);
      FirstSorted(q, t, Drain(rest));
    } else {
      assert Drain(q) == [];
    }
  }

  lemma FirstSorted(q: set<Job>, t: Job, s: seq<Job>)
    requires UniqueIds(q) && IsTop(q, t) && Sorted(s) && forall j :: j in s ==> j in q && j != t
    ensures Sorted([t] + s)
  {
    forall i, j | 0 <= i < j < |s| + 1
      ensures var a, b := ([t] + s)[i], ([t] + s)[j];
        a.priority > b.priority || (a.priority == b.priority && a.id < b.id)
    {
      if i == 0 {
        assert s[j - 1] in s && !After(t, s[j - 1]);
      } else {
        assert ([t] + s)[i] == s[i - 1] && ([t] + s)[j] == s[j - 1];
      }
    }
  }

  function WithoutRoot(s: seq<Job>, root: nat): seq<Job> {
    if s == [] then []
    else if s[0].root == root then WithoutRoot(s[1..], root)
    else [s[0]] + WithoutRoot(s[1..], root)
  }

  ghost function Keep(q: set<Job>, root: nat): set<Job> {
    set j | j in q && j.root != root
  }

  lemma KeepExactly(q: set<Job>, root: nat)
    ensures forall j :: j in Keep(q, root) <==> j in q && j.root != root
  {
  }

  /** Filtering the queue filters the drain order and changes nothing else in it. */
  lemma {:induction false} DrainAfterRemoval(q: set<Job>, root: nat)
    requires UniqueIds(q)
    ensures Drain(Keep(q, root)) == WithoutRoot(Drain(q), root)
  {
    if q == {} {
      assert Keep(q, root) == {};
    } else {
      var t := Top(q);
      var rest := q - {t};
      DrainAfterRemoval(rest, root);
      if t.root == root {
        assert Keep(q, root) == Keep(rest, root);
      } else {
        assert IsTop(Keep(q, root), t);
        TopUnique(Keep(q, root), t);
        assert Keep(q, root) - {t} == Keep(rest, root);
      }
    }
  }

  /** The standard priority queue, seen through its interface. */
  class PriorityQueue {
    var items: set<Job>

    constructor ()
      ensures items == {}
    {
      items := {};
    }

    predicate Empty()
      reads this
    {
      items == {}
    }

    method Front() returns (t: Job)
      requires items != {}
      ensures IsTop(items, t)
    {
      var pool := items;
      t :| t in pool;
      pool := pool - {t};
      while pool != {}
        invariant t in items && pool <= items
        invariant forall x :: x in items && x !in pool ==> !After(t, x)
        decreases pool
      {
        var x :| x in pool;
        pool := pool - {x};
        if After(t, x) { t := x; }
      }
    }

    method Push(j: Job)
      modifies this
      ensures items == old(items) + {j}
    {
      items := items + {j};
    }

    method Pop()
      requires items != {} && UniqueIds(items)
      modifies this
      ensures items == old(items) - {Top(old(items))}
    {
      var t := Front();
      TopUnique(items, t);
      items := items - {t};
    }
  }

  lemma NothingRemoved(before: set<Job>, root: nat)
    ensures before - before == {} && Keep({}, root) == {} && before - {} == before
  {
  }

  /** One more job has been looked at. */
  lemma OneRemoved(before: set<Job>, left: set<Job>, now: set<Job>, current: Job, root: nat)
    requires left <= before && current in left && now == left - {current}
    ensures before - now == (before - left) + {current}
    ensures Keep(before - now, root) ==
      if current.root != root then Keep(before - left, root) + {current} else Keep(before - left, root)
  {
    assert before - now == (before - left) + {current};
  }

  /** The part of the work handler that owns the queue. */
  class WorkQueue {
    var jobs: PriorityQueue

    constructor ()
      ensures fresh(jobs) && jobs.items == {}
    {
      jobs := new PriorityQueue();
    }

    method PushJob(j: Job)
      modifies jobs
      ensures jobs.items == old(jobs.items) + {j}
    {
      jobs.Push(j);
    }

    /** Takes the job that leaves first, if there is one. */
    method PopJob() returns (res: Option<Job>)
      requires UniqueIds(jobs.items)
      modifies jobs
      ensures old(jobs.items) == {} ==> res == None && jobs.items == {}
      ensures old(jobs.items) != {} ==> res == Some(Top(old(jobs.items))) && jobs.items == old(jobs.items) - {res.value}
      ensures old(jobs.items) != {} ==> res.value in old(jobs.items) && forall j :: j in jobs.items ==>
        res.value.priority > j.priority || (res.value.priority == j.priority && res.value.id < j.id)
    {
      res := None;
      if !jobs.Empty() {
        var t := jobs.Front();
        TopUnique(jobs.items, t);
        res := Some(t);
        jobs.Pop();
      }
    }

    /** Rebuilds the queue through a filter; the rest keeps its drain order. */
    method RemoveJob(root: nat) returns (removed: bool)
      requires UniqueIds(jobs.items)
      modifies this, jobs
      ensures fresh(jobs)
      ensures removed <==> exists j :: j in old(jobs.items) && j.root == root
      ensures forall j :: j in jobs.items <==> j in old(jobs.items) && j.root != root
      ensures Drain(jobs.items) == WithoutRoot(Drain(old(jobs.items)), root)
    {
      hide Drain, Top, WithoutRoot, Keep, After;
      ghost var before := jobs.items;
      NothingRemoved(before, root);
      var kept := new PriorityQueue();
      removed := false;
      while !jobs.Empty()
        invariant fresh(kept) && kept != jobs && jobs == old(jobs)
        invariant jobs.items <= before
        invariant kept.items == Keep(before - jobs.items, root)
        invariant removed <==> exists j :: j in before - jobs.items && j.root == root
        decreases jobs.items
      {
        var current := jobs.Front();
        if current.root != root {
          kept.Push(current);
        } else {
          removed := true;
        }
        ghost var left := jobs.items;
        TopUnique(left, current);
        jobs.Pop();
        OneRemoved(before, left, jobs.items, current, root);
      }
      assert before - jobs.items == before;
      jobs := kept;
      KeepExactly(before, root);
      DrainAfterRemoval(before, root);
    }
  }

}

/** Whole runs of pushes, pops, removals and clearings. */
module QueueRuns {
  import opened Wrappers
  import opened JobQueue

  datatype Op = Push(job: Job) | Pop | Remove(root: nat) | Clear

  /** Jobs still queued, and the jobs popped so far in order. */
  datatype History = History(queued: set<Job>, popped: seq<Job>)

  ghost function Apply(h: History, op: Op): History {
    match op
    case Push(j) => h.(queued := h.queued + {j})
    case Pop =>
      if h.queued == {} then h
      else History(h.queued - {Top(h.queued)}, h.popped + [Top(h.queued)])
    case Remove(root) => h.(queued := Keep(h.queued, root))
    case Clear => h.(queued := {})
  }

  ghost function Run(ops: seq<Op>): History {
    if ops == [] then History({}, [])
    else Apply(Run(ops[..|ops| - 1]), ops[|ops| - 1])
  }

  function Pushes(ops: seq<Op>): seq<Job> {
    if ops == [] then []
    else Pushes(ops[..|ops| - 1]) + match ops[|ops| - 1] case Push(j) => [j] case _ => []
  }

  ghost predicate DistinctIds(s: seq<Job>) {
    forall i, j :: 0 <= i < j < |s| ==> s[i].id != s[j].id
  }

  /** Within one priority, jobs are pushed in the order of their ids. */
  ghost predicate IdsAscend(s: seq<Job>) {
    forall i, j :: 0 <= i < j < |s| && s[i].priority == s[j].priority ==> s[i].id < s[j].id
  }

  /** `a` stands before `b` in `s`. */
  ghost predicate Precedes(s: seq<Job>, a: Job, b: Job) {
    exists i, j :: 0 <= i < j < |s| && s[i] == a && s[j] == b
  }

  /** First in, first out within each priority. */
  ghost predicate Fifo(ops: seq<Op>) {
    forall a: Job, b: Job :: a.priority == b.priority && Precedes(Run(ops).popped, a, b) ==> Precedes(Pushes(ops), a, b)
  }

  /** What every run with ascending pushes keeps. */
  ghost predicate Ordered(h: History, pushed: seq<Job>) {
    && (forall j :: j in h.queued ==> j in pushed)
    && (forall j :: j in h.popped ==> j in pushed)
    && (forall p, q :: p in h.popped && q in h.queued && p.priority == q.priority ==> p.id < q.id)
    && IdsAscend(h.popped)
  }

  lemma {:induction false} RunOrdered(ops: seq<Op>)
    requires IdsAscend(Pushes(ops)) && DistinctIds(Pushes(ops))
    ensures Ordered(Run(ops), Pushes(ops))
  {
    if ops != [] {
      var init, op := ops[..|ops| - 1], ops[|ops| - 1];
      var p0 := Pushes(init);
      assert forall i :: 0 <= i < |p0| ==> Pushes(ops)[i] == p0[i];
      RunOrdered(init);
      OrderedStep(Run(init), op, p0);
    }
  }

  lemma OrderedStep(h: History, op: Op, pushed: seq<Job>)
    requires Ordered(h, pushed)
    requires DistinctIds(pushed)
    requires op.Push? ==> IdsAscend(pushed + [op.job])
    ensures Ordered(Apply(h, op), if op.Push? then pushed + [op.job] else pushed)
  {
    match op
    case Push(j) =>
      forall p | p in h.popped && p.priority == j.priority
        ensures p.id < j.id
      {
        var i :| 0 <= i < |pushed| && pushed[i] == p;
        assert (pushed + [j])[i] == p && (pushed + [j])[|pushed|] == j;
      }
    case Pop =>
      if h.queued != {} {
        var t := Top(h.queued);
        forall q | q in h.queued - {t} && q.priority == t.priority
          ensures t.id < q.id
        {
          assert !After(t, q);
          var i :| 0 <= i < |pushed| && pushed[i] == t;
          var k :| 0 <= k < |pushed| && pushed[k] == q;
        }
      }
    case Remove(_) =>
    case Clear =>
  }

  lemma OrderedPrecedes(popped: seq<Job>, pushed: seq<Job>, a: Job, b: Job)
    requires IdsAscend(popped) && IdsAscend(pushed) && forall j :: j in popped ==> j in pushed
    requires a.priority == b.priority && Precedes(popped, a, b)
    ensures Precedes(pushed, a, b)
  {
    var i, j :| 0 <= i < j < |popped| && popped[i] == a && popped[j] == b;
    assert a in popped && b in popped && a.id < b.id;
    var x :| 0 <= x < |pushed| && pushed[x] == a;
    var y :| 0 <= y < |pushed| && pushed[y] == b;
  }

  /** FIFO within a priority in every interleaving, given ids that ascend in push order. */
  lemma AscendingIsFifo(ops: seq<Op>)
    requires DistinctIds(Pushes(ops)) && IdsAscend(Pushes(ops))
    ensures Fifo(ops)
  {
    RunOrdered(ops);
    hide Run, Pushes, Precedes, IdsAscend;
    forall a: Job, b: Job | a.priority == b.priority && Precedes(Run(ops).popped, a, b)
      ensures Precedes(Pushes(ops), a, b)
    {
      OrderedPrecedes(Run(ops).popped, Pushes(ops), a, b);
    }
  }

  function PushAll(s: seq<Job>): (ops: seq<Op>) {
    seq(|s|, i requires 0 <= i < |s| => Push(s[i]))
  }

  ghost function Members(s: seq<Job>): set<Job> {
    set j | j in s
  }

  lemma {:induction false} PushAllRun(s: seq<Job>)
    ensures Pushes(PushAll(s)) == s
    ensures Run(PushAll(s)) == History(Members(s), [])
  {
    if s == [] {
      assert Members(s) == {};
    } else {
      var init, last := s[..|s| - 1], s[|s| - 1];
      PushAllRun(init);
      assert PushAll(s)[..|s| - 1] == PushAll(init);
      assert s == init + [last];
      assert Members(s) == Members(init) + {last};
    }
  }

  function Pops(n: nat): seq<Op> {
    seq(n, _ => Pop)
  }

  lemma {:induction false} PopsRun(ops: seq<Op>, n: nat)
    ensures Pushes(ops + Pops(n)) == Pushes(ops)
    ensures n == |Run(ops).queued| ==> Run(ops + Pops(n)).popped == Run(ops).popped + Drain(Run(ops).queued)
    decreases n
  {
    if n == 0 {
      assert ops + Pops(0) == ops;
    } else {
      assert ops + Pops(n) == (ops + [Pop]) + Pops(n - 1);
      assert (ops + [Pop])[..|ops|] == ops;
      PopsRun(ops + [Pop], n - 1);
    }
  }

  lemma PushThenDrain(s: seq<Job>) returns (ops: seq<Op>)
    requires DistinctIds(s)
    ensures Pushes(ops) == s && Run(ops).popped == Drain(Members(s)) && UniqueIds(Members(s))
  {
    PushAllRun(s);
    PopsRun(PushAll(s), |Members(s)|);
    ops := PushAll(s) + Pops(|Members(s)|);
  }

  lemma DrainPrecedes(q: set<Job>, a: Job, b: Job)
    requires UniqueIds(q) && a in q && b in q && a != b && !After(a, b)
    ensures Precedes(Drain(q), a, b)
  {
    DrainSorted(q);
    var d := Drain(q);
    assert a in d && b in d;
    var x :| 0 <= x < |d| && d[x] == a;
    var y :| 0 <= y < |d| && d[y] == b;
  }

  lemma NotPrecedes(s: seq<Job>, i: nat, j: nat)
    requires DistinctIds(s) && i < j < |s|
    ensures !Precedes(s, s[j], s[i])
  {
  }

  /** Ids that descend within a priority break FIFO: pushing everything and draining shows it. */
  lemma DescendingBreaksFifo(s: seq<Job>, i: nat, j: nat)
    requires DistinctIds(s) && i < j < |s| && s[i].priority == s[j].priority && s[i].id > s[j].id
    ensures exists ops :: Pushes(ops) == s && !Fifo(ops)
  {
    var ops := PushThenDrain(s);
    DrainPrecedes(Members(s), s[j], s[i]);
    NotPrecedes(s, i, j);
  }

  /** The exact condition: every interleaving of these pushes with pops and removals is FIFO
      within each priority if and only if the ids ascend within each priority. */
  lemma FifoExactly(s: seq<Job>)
    requires DistinctIds(s)
    ensures (forall ops :: Pushes(ops) == s ==> Fifo(ops)) <==> IdsAscend(s)
  {
    if IdsAscend(s) {
      forall ops | Pushes(ops) == s
        ensures Fifo(ops)
      {
        AscendingIsFifo(ops);
      }
    } else {
      var i, j :| 0 <= i < j < |s| && s[i].priority == s[j].priority && !(s[i].id < s[j].id);
      DescendingBreaksFifo(s, i, j);
    }
  }
}
