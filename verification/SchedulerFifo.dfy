/** The order in which jobs leave the queue, over whole runs of the work handler. */
module SchedulerFifo {
  import opened Wrappers
  import opened JobQueue
  import opened Scheduler
  import opened SchedulerSafety
  import opened SchedulerRuns
  import opened SchedulerLeak
  import Q = QueueRuns
  import Jobs = JobBook

  // ---------- a run of the handler is a run of the queue ----------

  /** What a step does to the queue, if anything. */
  ghost function QueueOp(s: State, a: Action): seq<Q.Op>
    requires Enabled(s, a)
  {
    if a.Push? then if |s.jobs| < s.limit then [Q.Push(s.clients[a.c].job)] else []
    else if a.Pop? then [Q.Pop]
    else if a.Cancel? then [Q.Remove(s.clients[a.c].root)]
    else if a.Clear? then [Q.Clear]
    else []
  }

  ghost function QueueOps(s: State, acts: seq<Action>): seq<Q.Op>
    requires Legal(s, acts)
    decreases |acts|
  {
    if acts == [] then [] else QueueOp(s, acts[0]) + QueueOps(Next(s, acts[0]), acts[1..])
  }

  ghost predicate Tracks(s: State, ops: seq<Q.Op>) { Q.Run(ops).queued == s.jobs }

  lemma OpsSnoc(ops: seq<Q.Op>, op: Q.Op)
    ensures Q.Run(ops + [op]) == Q.Apply(Q.Run(ops), op)
    ensures Q.Pushes(ops + [op]) == Q.Pushes(ops) + if op.Push? then [op.job] else []
  {
    assert (ops + [op])[..|ops|] == ops;
  }

  lemma QueuedUnique(s: State)
    requires Invariant(s)
    ensures UniqueIds(s.jobs)
  {
    var b := Jobs.BookOf(s);
    assert Jobs.IdsUnique(b) && b.stage == s.stage;
    ActiveDisjoint(s);
  }

  lemma PopAfter(s: State, a: Action)
    requires UniqueIds(s.jobs) && Enabled(s, a) && a.Pop?
    ensures s.jobs != {} && Next(s, a).jobs == s.jobs - {Top(s.jobs)}
  {
    assert WorkerEnabled(s, a);
    TopUnique(s.jobs, a.job);
  }

  lemma WorkerLeavesQueue(s: State, a: Action)
    requires Enabled(s, a) && a.OfWorker() && !a.Pop?
    ensures Next(s, a).jobs == s.jobs
  {
    hide Discard, RingPush, State.Free, IsTop;
    assert WorkerEnabled(s, a);
  }

  lemma ClientLeavesQueue(s: State, a: Action)
    requires Enabled(s, a) && !a.OfWorker() && !a.Push? && !a.Cancel? && !a.Clear?
    ensures Next(s, a).jobs == s.jobs
  {
    hide Discard, Keep, State.Free;
    assert ClientEnabled(s, a);
  }

  lemma ClientChangesQueue(s: State, a: Action)
    requires Enabled(s, a) && (a.Push? || a.Cancel? || a.Clear?)
    ensures Next(s, a).jobs ==
      if a.Push? then if |s.jobs| < s.limit then s.jobs + {s.clients[a.c].job} else s.jobs
      else if a.Cancel? then Keep(s.jobs, s.clients[a.c].root)
      else {}
  {
    hide Discard, Keep, State.Free;
    assert ClientEnabled(s, a);
  }

  lemma JobsAfter(s: State, a: Action)
    requires Invariant(s) && Enabled(s, a)
    ensures QueueOp(s, a) == [] ==> Next(s, a).jobs == s.jobs
    ensures QueueOp(s, a) != [] ==> forall popped: seq<Job> ::
      Q.Apply(Q.History(s.jobs, popped), QueueOp(s, a)[0]).queued == Next(s, a).jobs
  {
    hide Invariant, Next, WorkerEnabled, Keep;
    QueuedUnique(s);
    if a.Pop? {
      PopAfter(s, a);
    } else if a.OfWorker() {
      WorkerLeavesQueue(s, a);
    } else if a.Push? || a.Cancel? || a.Clear? {
      ClientChangesQueue(s, a);
    } else {
      ClientLeavesQueue(s, a);
    }
  }

  lemma StepTracks(s: State, ops: seq<Q.Op>, a: Action)
    requires Invariant(s) && Enabled(s, a) && Tracks(s, ops)
    ensures Tracks(Next(s, a), ops + QueueOp(s, a))
  {
    hide Invariant, Enabled, Next;
    JobsAfter(s, a);
    if QueueOp(s, a) == [] {
      assert ops + QueueOp(s, a) == ops;
    } else {
      assert QueueOp(s, a) == [QueueOp(s, a)[0]];
      OpsSnoc(ops, QueueOp(s, a)[0]);
      assert Q.Run(ops) == Q.History(s.jobs, Q.Run(ops).popped);
    }
  }

  /** What the handler has queued after a run is what the run of its queue leaves. */
  lemma {:induction false} RunTracks(s: State, ops: seq<Q.Op>, acts: seq<Action>)
    requires Invariant(s) && Tracks(s, ops) && Legal(s, acts)
    ensures Tracks(Exec(s, acts), ops + QueueOps(s, acts))
    decreases |acts|
  {
    hide Invariant, Enabled, Next, Tracks, QueueOp;
    if acts == [] {
      assert ops + [] == ops;
    } else {
      StepTracks(s, ops, acts[0]);
      KeepsInvariant(s, acts[0]);
      RunTracks(Next(s, acts[0]), ops + QueueOp(s, acts[0]), acts[1..]);
      assert ops + QueueOps(s, acts) == ops + QueueOp(s, acts[0]) + QueueOps(Next(s, acts[0]), acts[1..]);
    }
  }

  // ---------- one request thread ----------

  /** Ids go up in the order of pushing, and the next job's is above them all. */
  ghost predicate Ascending(s: State, pushed: seq<Job>) {
    && |s.clients| <= 1
    && (forall i, k :: 0 <= i < k < |pushed| ==> pushed[i].id < pushed[k].id)
    && (forall j :: j in pushed ==> j.id < s.nextId)
    && (forall c :: 0 <= c < |s.clients| && s.clients[c].Pending().Some? ==>
         s.clients[c].Pending().value.id < s.nextId
         && forall j :: j in pushed ==> j.id < s.clients[c].Pending().value.id)
  }

  lemma ParsePending(s: State, a: Action)
    requires Enabled(s, a) && a.Parse? && |Next(s, a).clients| == |s.clients|
    ensures Next(s, a).nextId == s.nextId + 1
    ensures Next(s, a).clients[a.c].Pending() == Some(Job(s.nextId, a.priority, a.root))
  {
    hide State.Free;
    assert ClientEnabled(s, a);
  }

  lemma PushPending(s: State, a: Action)
    requires Enabled(s, a) && a.Push? && |Next(s, a).clients| == |s.clients|
    ensures Next(s, a).nextId == s.nextId
    ensures s.clients[a.c].Pending() == Some(s.clients[a.c].job) && Next(s, a).clients[a.c].Pending() == None
  {
    hide State.Free;
    assert ClientEnabled(s, a);
  }

  lemma OtherPending(s: State, a: Action)
    requires Enabled(s, a) && !a.OfWorker() && !a.Parse? && !a.Push? && |Next(s, a).clients| == |s.clients|
    ensures s.nextId <= Next(s, a).nextId
    ensures var q := Next(s, a).clients[a.c].Pending(); q.Some? ==> q == s.clients[a.c].Pending()
  {
    hide Keep, Discard, State.Free;
    assert ClientEnabled(s, a);
  }

  lemma PendingAfter(s: State, a: Action)
    requires Enabled(s, a) && !a.OfWorker() && |Next(s, a).clients| == |s.clients|
    ensures var p, q := s.clients[a.c].Pending(), Next(s, a).clients[a.c].Pending();
      && s.nextId <= Next(s, a).nextId
      && (q.Some? ==> q == p || (q.value.id == s.nextId && Next(s, a).nextId == s.nextId + 1))
      && (a.Push? ==> q == None && p == Some(s.clients[a.c].job))
  {
    hide ClientEnabled, ClientNext, Client.Pending;
    if a.Parse? { ParsePending(s, a); } else if a.Push? { PushPending(s, a); } else { OtherPending(s, a); }
  }

  lemma WorkerPushesNothing(s: State, a: Action)
    requires Enabled(s, a) && a.OfWorker()
    ensures Next(s, a).nextId == s.nextId
  {
    hide Discard, RingPush, State.Free, IsTop;
    assert WorkerEnabled(s, a);
  }

  ghost function PushedBy(s: State, a: Action): seq<Job>
    requires Enabled(s, a)
  {
    if a.Push? && |s.jobs| < s.limit then [s.clients[a.c].job] else []
  }

  lemma StepAscends(s: State, pushed: seq<Job>, a: Action)
    requires Ascending(s, pushed) && Enabled(s, a)
    ensures Ascending(Next(s, a), pushed + PushedBy(s, a))
  {
    if a.OfWorker() {
      WorkerShape(s, a);
      WorkerPushesNothing(s, a);
      assert pushed + [] == pushed;
    } else {
      ClientShape(s, a);
      PendingAfter(s, a);
      hide ClientNext, Client.Pending;
      if PushedBy(s, a) == [] { assert pushed + [] == pushed; }
    }
  }

  lemma PushesAfter(s: State, ops: seq<Q.Op>, a: Action)
    requires Enabled(s, a)
    ensures Q.Pushes(ops + QueueOp(s, a)) == Q.Pushes(ops) + PushedBy(s, a)
  {
    hide Enabled;
    if QueueOp(s, a) == [] {
      assert ops + [] == ops && Q.Pushes(ops) + [] == Q.Pushes(ops);
    } else {
      assert QueueOp(s, a) == [QueueOp(s, a)[0]];
      OpsSnoc(ops, QueueOp(s, a)[0]);
      assert Q.Pushes(ops) + [] == Q.Pushes(ops);
    }
  }

  lemma {:induction false} RunAscends(s: State, ops: seq<Q.Op>, acts: seq<Action>)
    requires Ascending(s, Q.Pushes(ops)) && Legal(s, acts)
    ensures Ascending(Exec(s, acts), Q.Pushes(ops + QueueOps(s, acts)))
    decreases |acts|
  {
    hide Enabled, Next, Ascending, QueueOp, PushedBy;
    if acts == [] {
      assert ops + [] == ops;
    } else {
      StepAscends(s, Q.Pushes(ops), acts[0]);
      PushesAfter(s, ops, acts[0]);
      RunAscends(Next(s, acts[0]), ops + QueueOp(s, acts[0]), acts[1..]);
      assert ops + QueueOps(s, acts) == ops + QueueOp(s, acts[0]) + QueueOps(Next(s, acts[0]), acts[1..]);
    }
  }

  // ---------- room for one job ----------

  /** At most one job is queued, and it was pushed after all that left. */
  ghost predicate InLine(h: Q.History, pushed: seq<Job>) {
    && |h.queued| <= 1
    && (forall j :: j in h.queued || j in h.popped ==> j in pushed)
    && (forall i, k :: 0 <= i < k < |h.popped| ==> Q.Precedes(pushed, h.popped[i], h.popped[k]))
    && (forall p, q :: p in h.popped && q in h.queued ==> Q.Precedes(pushed, p, q))
  }

  lemma PrecedesLonger(pushed: seq<Job>, more: seq<Job>)
    ensures forall a, b :: Q.Precedes(pushed, a, b) ==> Q.Precedes(pushed + more, a, b)
  {
    forall a, b | Q.Precedes(pushed, a, b)
      ensures Q.Precedes(pushed + more, a, b)
    {
      var i, k :| 0 <= i < k < |pushed| && pushed[i] == a && pushed[k] == b;
      assert (pushed + more)[i] == a && (pushed + more)[k] == b;
    }
  }

  lemma PushInLine(h: Q.History, pushed: seq<Job>, j: Job)
    requires InLine(h, pushed) && h.queued == {}
    ensures InLine(Q.History({j}, h.popped), pushed + [j])
  {
    PrecedesLonger(pushed, [j]);
    forall p | p in h.popped
      ensures Q.Precedes(pushed + [j], p, j)
    {
      var i :| 0 <= i < |pushed| && pushed[i] == p;
      assert (pushed + [j])[i] == p && (pushed + [j])[|pushed|] == j;
    }
  }

  lemma PopInLine(h: Q.History, pushed: seq<Job>)
    requires InLine(h, pushed) && h.queued != {}
    ensures InLine(Q.History(h.queued - {Top(h.queued)}, h.popped + [Top(h.queued)]), pushed)
  {
    hide Q.Precedes;
    var t := Top(h.queued);
    assert |h.queued - {t}| == 0;
  }

  lemma StepInLine(h: Q.History, pushed: seq<Job>, op: Q.Op)
    requires InLine(h, pushed) && (op.Push? ==> h.queued == {})
    ensures InLine(Q.Apply(h, op), pushed + if op.Push? then [op.job] else [])
  {
    hide Q.Precedes;
    assert pushed + [] == pushed;
    match op
    case Push(j) => PushInLine(h, pushed, j);
    case Pop => if h.queued != {} { PopInLine(h, pushed); }
    case Remove(root) =>
      assert |h.queued - Keep(h.queued, root)| == |h.queued| - |Keep(h.queued, root)|;
    case Clear =>
  }

  lemma StepStaysInLine(s: State, ops: seq<Q.Op>, a: Action)
    requires s.limit <= 1 && Enabled(s, a) && Tracks(s, ops) && InLine(Q.Run(ops), Q.Pushes(ops))
    ensures InLine(Q.Run(ops + QueueOp(s, a)), Q.Pushes(ops + QueueOp(s, a)))
  {
    hide Enabled, InLine;
    if QueueOp(s, a) == [] {
      assert ops + [] == ops;
    } else {
      assert QueueOp(s, a) == [QueueOp(s, a)[0]];
      OpsSnoc(ops, QueueOp(s, a)[0]);
      StepInLine(Q.Run(ops), Q.Pushes(ops), QueueOp(s, a)[0]);
    }
  }

  lemma {:induction false} RunStaysInLine(s: State, ops: seq<Q.Op>, acts: seq<Action>)
    requires Invariant(s) && s.limit <= 1 && Tracks(s, ops) && Legal(s, acts) && InLine(Q.Run(ops), Q.Pushes(ops))
    ensures InLine(Q.Run(ops + QueueOps(s, acts)), Q.Pushes(ops + QueueOps(s, acts)))
    decreases |acts|
  {
    hide Invariant, Enabled, Next, Tracks, InLine, QueueOp;
    if acts == [] {
      assert ops + [] == ops;
    } else {
      StepStaysInLine(s, ops, acts[0]);
      StepTracks(s, ops, acts[0]);
      KeepsInvariant(s, acts[0]);
      if acts[0].OfWorker() { WorkerShape(s, acts[0]); } else { ClientShape(s, acts[0]); }
      RunStaysInLine(Next(s, acts[0]), ops + QueueOp(s, acts[0]), acts[1..]);
      assert ops + QueueOps(s, acts) == ops + QueueOp(s, acts[0]) + QueueOps(Next(s, acts[0]), acts[1..]);
    }
  }

  // ---------- no devices ----------

  lemma PoolIsNeeded(s: State, ops: seq<Q.Op>, a: Action)
    requires |s.workers| == 0 && Enabled(s, a) && Q.Run(ops).popped == []
    ensures |Next(s, a).workers| == 0 && Q.Run(ops + QueueOp(s, a)).popped == []
  {
    hide ClientEnabled, ClientNext;
    ClientShape(s, a);
    if QueueOp(s, a) == [] {
      assert ops + [] == ops;
    } else {
      assert QueueOp(s, a) == [QueueOp(s, a)[0]];
      OpsSnoc(ops, QueueOp(s, a)[0]);
    }
  }

  lemma {:induction false} NothingPopped(s: State, ops: seq<Q.Op>, acts: seq<Action>)
    requires |s.workers| == 0 && Q.Run(ops).popped == [] && Legal(s, acts)
    ensures Q.Run(ops + QueueOps(s, acts)).popped == []
    decreases |acts|
  {
    hide Enabled, Next, QueueOp;
    if acts == [] {
      assert ops + [] == ops;
    } else {
      PoolIsNeeded(s, ops, acts[0]);
      NothingPopped(Next(s, acts[0]), ops + QueueOp(s, acts[0]), acts[1..]);
      assert ops + QueueOps(s, acts) == ops + QueueOp(s, acts[0]) + QueueOps(Next(s, acts[0]), acts[1..]);
    }
  }

  // ---------- two request threads ----------

  /** A run in which nothing throws leads from `s` to `t` and does `ops` to the queue. */
  ghost predicate Leads(s: State, ops: seq<Q.Op>, t: State) {
    exists acts :: Legal(s, acts) && NothingThrows(acts) && Exec(s, acts) == t && QueueOps(s, acts) == ops
  }

  lemma LeadsSelf(s: State)
    ensures Leads(s, [], s)
  {
    assert Legal(s, []) && NothingThrows([]) && Exec(s, []) == s && QueueOps(s, []) == [];
  }

  lemma LeadsThen(s: State, a: Action, ops: seq<Q.Op>, t: State)
    requires Enabled(s, a) && !a.Throw? && Leads(Next(s, a), ops, t)
    ensures Leads(s, QueueOp(s, a) + ops, t)
  {
    hide Enabled, Next, QueueOp;
    var s' := Next(s, a);
    var acts :| Legal(s', acts) && NothingThrows(acts) && Exec(s', acts) == t && QueueOps(s', acts) == ops;
    assert ([a] + acts)[1..] == acts;
    assert Legal(s, [a] + acts) && NothingThrows([a] + acts);
  }

  lemma {:induction false} LeadsJoin(s: State, acts: seq<Action>, t: State, more: seq<Q.Op>, u: State)
    requires Legal(s, acts) && NothingThrows(acts) && Exec(s, acts) == t && Leads(t, more, u)
    ensures Leads(s, QueueOps(s, acts) + more, u)
    decreases |acts|
  {
    hide Enabled, Next, QueueOp, Leads;
    if acts == [] {
      assert [] + more == more;
    } else {
      LeadsJoin(Next(s, acts[0]), acts[1..], t, more, u);
      LeadsThen(s, acts[0], QueueOps(Next(s, acts[0]), acts[1..]) + more, u);
      assert QueueOps(s, acts) + more == QueueOp(s, acts[0]) + (QueueOps(Next(s, acts[0]), acts[1..]) + more);
    }
  }

  lemma LeadsOn(s: State, ops: seq<Q.Op>, t: State, more: seq<Q.Op>, u: State)
    requires Leads(s, ops, t) && Leads(t, more, u)
    ensures Leads(s, ops + more, u)
  {
    var acts :| Legal(s, acts) && NothingThrows(acts) && Exec(s, acts) == t && QueueOps(s, acts) == ops;
    LeadsJoin(s, acts, t, more, u);
  }

  /** Two steps, of which the second alone may do something to the queue. */
  lemma TwoSteps(s: State, a: Action, b: Action)
    requires Enabled(s, a) && Enabled(Next(s, a), b) && QueueOp(s, a) == [] && !a.Throw? && !b.Throw?
    ensures Leads(s, QueueOp(Next(s, a), b), Next(Next(s, a), b))
  {
    hide Enabled, Next, QueueOp, Leads;
    var s1 := Next(s, a);
    var t := Next(s1, b);
    LeadsSelf(t);
    LeadsThen(s1, b, [], t);
    LeadsThen(s, a, QueueOp(s1, b) + [], t);
    assert [] + (QueueOp(s1, b) + []) == QueueOp(s1, b);
  }

  /** Request threads 0 and 1 and pool thread 0 are where given; the other threads rest. */
  ghost predicate Scene(s: State, c0: Client, c1: Client, w: Worker, jobs: set<Job>, tasks: set<nat>) {
    && |s.clients| > 1 && s.clients[0] == c0 && s.clients[1] == c1
    && (forall c :: 1 < c < |s.clients| ==> s.clients[c].Resting?)
    && |s.workers| > 0 && |s.busy| > 0 && s.workers[0] == w
    && (forall v :: 0 < v < |s.workers| ==> s.workers[v].Idle?)
    && s.jobs == jobs && s.tasks == tasks && s.limit > 1
  }

  lemma SceneFree(s: State, c0: Client, c1: Client, w: Worker, jobs: set<Job>, tasks: set<nat>, m: Mutex)
    requires Scene(s, c0, c1, w, jobs, tasks) && !c0.Holds(m) && !c1.Holds(m) && !w.Holds(m)
    ensures s.Free(m)
  {
    forall t | s.IsThread(t)
      ensures !s.Holds(t, m)
    {
      match t {
        case PoolThread(v) => if v > 0 { assert s.workers[v].Idle?; }
        case RequestThread(c) => if c > 1 { assert s.clients[c].Resting?; }
      }
    }
  }

  const FIRST: Job := Job(1, 0, 0)
  const SECOND: Job := Job(2, 0, 0)

  lemma Beginning(s: State) returns (t: State)
    requires Scene(s, Resting, Resting, Idle, {}, {}) && s.nextId == 1 && s.nextReq == 0 && !s.busy[0]
    ensures Scene(t, Parsing(0), Parsing(1), Idle, {}, {}) && t.nextId == 1 && !t.busy[0]
    ensures Leads(s, [], t)
  {
    hide State.Free, Leads;
    assert ClientEnabled(s, Begin(0));
    var s1 := Next(s, Begin(0));
    assert ClientEnabled(s1, Begin(1));
    t := Next(s1, Begin(1));
    TwoSteps(s, Begin(0), Begin(1));
  }

  /** Thread 0 makes the first job, thread 1 the second. */
  lemma Making(s: State) returns (t: State)
    requires Scene(s, Parsing(0), Parsing(1), Idle, {}, {}) && s.nextId == 1 && !s.busy[0]
    ensures Scene(t, WaitPush(0, FIRST), WaitPush(1, SECOND), Idle, {}, {}) && !t.busy[0]
    ensures Leads(s, [], t)
  {
    hide State.Free, Leads;
    assert ClientEnabled(s, Parse(0, 0, 0));
    var s1 := Next(s, Parse(0, 0, 0));
    assert ClientEnabled(s1, Parse(1, 0, 0));
    t := Next(s1, Parse(1, 0, 0));
    TwoSteps(s, Parse(0, 0, 0), Parse(1, 0, 0));
  }

  /** Thread 1 pushes first. */
  lemma PushingLater(s: State) returns (t: State)
    requires Scene(s, WaitPush(0, FIRST), WaitPush(1, SECOND), Idle, {}, {}) && !s.busy[0]
    ensures Scene(t, WaitPush(0, FIRST), Pushed(1), Idle, {SECOND}, {}) && !t.busy[0]
    ensures Leads(s, [Q.Push(SECOND)], t)
  {
    SceneFree(s, WaitPush(0, FIRST), WaitPush(1, SECOND), Idle, {}, {}, JobsMutex);
    hide State.Free, Leads;
    assert ClientEnabled(s, LockClient(1));
    var s1 := Next(s, LockClient(1));
    assert ClientEnabled(s1, Push(1));
    t := Next(s1, Push(1));
    TwoSteps(s, LockClient(1), Push(1));
  }

  lemma PushingEarlier(s: State) returns (t: State)
    requires Scene(s, WaitPush(0, FIRST), Pushed(1), Idle, {SECOND}, {}) && !s.busy[0]
    ensures Scene(t, Pushed(0), Pushed(1), Idle, {SECOND, FIRST}, {}) && !t.busy[0]
    ensures Leads(s, [Q.Push(FIRST)], t)
  {
    SceneFree(s, WaitPush(0, FIRST), Pushed(1), Idle, {SECOND}, {}, JobsMutex);
    hide State.Free, Leads;
    assert ClientEnabled(s, LockClient(0));
    var s1 := Next(s, LockClient(0));
    assert ClientEnabled(s1, Push(0));
    t := Next(s1, Push(0));
    assert {SECOND} + {FIRST} == {SECOND, FIRST};
    TwoSteps(s, LockClient(0), Push(0));
  }

  lemma Posting(s: State) returns (t: State)
    requires Scene(s, Pushed(0), Pushed(1), Idle, {SECOND, FIRST}, {}) && !s.busy[0]
    ensures Scene(t, Resting, Resting, Idle, {SECOND, FIRST}, {0, 1}) && !t.busy[0]
    ensures Leads(s, [], t)
  {
    hide State.Free, Leads;
    assert ClientEnabled(s, Post(0));
    var s1 := Next(s, Post(0));
    assert ClientEnabled(s1, Post(1));
    t := Next(s1, Post(1));
    assert {} + {0} + {1} == {0, 1};
    TwoSteps(s, Post(0), Post(1));
  }

  /** Pool thread 0 takes a task and pops the first of the queued jobs. */
  lemma TakingAndPopping(s: State, jobs: set<Job>, tasks: set<nat>, r: nat, j: Job) returns (t: State)
    requires Scene(s, Resting, Resting, Idle, jobs, tasks) && r in tasks && IsTop(jobs, j)
    ensures Scene(t, Resting, Resting, Scanning(r, j, 0), jobs - {j}, tasks - {r}) && t.busy == s.busy
    ensures Leads(s, [Q.Pop], t)
  {
    hide State.Free, Leads, IsTop;
    assert WorkerEnabled(s, Take(0, r));
    var s1 := Next(s, Take(0, r));
    SceneFree(s1, Resting, Resting, WaitPop(r), jobs, tasks - {r}, JobsMutex);
    assert WorkerEnabled(s1, LockWorker(0));
    var s2 := Next(s1, LockWorker(0));
    assert WorkerEnabled(s2, Pop(0, j));
    t := Next(s2, Pop(0, j));
    TwoSteps(s1, LockWorker(0), Pop(0, j));
    LeadsThen(s, Take(0, r), [Q.Pop], t);
    assert [] + [Q.Pop] == [Q.Pop];
  }

  lemma Acquiring(s: State, r: nat, j: Job, jobs: set<Job>, tasks: set<nat>) returns (t: State)
    requires Scene(s, Resting, Resting, Scanning(r, j, 0), jobs, tasks) && !s.busy[0]
    ensures Scene(t, Resting, Resting, Inserting(r, j, 0), jobs, tasks) && Leads(s, [], t)
  {
    hide State.Free, Leads;
    assert WorkerEnabled(s, Probe(0));
    var s1 := Next(s, Probe(0));
    SceneFree(s1, Resting, Resting, Acquired(r, j, 0), jobs, tasks, ActiveMutex);
    assert WorkerEnabled(s1, LockWorker(0));
    t := Next(s1, LockWorker(0));
    TwoSteps(s, Probe(0), LockWorker(0));
  }

  lemma Replying(s: State, r: nat, j: Job, jobs: set<Job>, tasks: set<nat>) returns (t: State)
    requires Scene(s, Resting, Resting, Inserting(r, j, 0), jobs, tasks)
    ensures Scene(t, Resting, Resting, Replied(r, j, 0), jobs, tasks) && Leads(s, [], t)
  {
    hide State.Free, Leads;
    assert WorkerEnabled(s, Insert(0));
    var s1 := Next(s, Insert(0));
    assert WorkerEnabled(s1, Reply(0));
    t := Next(s1, Reply(0));
    TwoSteps(s, Insert(0), Reply(0));
  }

  lemma Releasing(s: State, r: nat, j: Job, jobs: set<Job>, tasks: set<nat>) returns (t: State)
    requires Scene(s, Resting, Resting, Replied(r, j, 0), jobs, tasks)
    ensures Scene(t, Resting, Resting, HalfLocked(r, j), jobs, tasks) && Leads(s, [], t)
  {
    hide State.Free, Leads;
    assert WorkerEnabled(s, Release(0));
    var s1 := Next(s, Release(0));
    SceneFree(s1, Resting, Resting, Released(r, j), jobs, tasks, ActiveMutex);
    assert WorkerEnabled(s1, LockWorker(0));
    t := Next(s1, LockWorker(0));
    TwoSteps(s, Release(0), LockWorker(0));
  }

  lemma LeavingTheSet(s: State, r: nat, j: Job, jobs: set<Job>, tasks: set<nat>) returns (t: State)
    requires Scene(s, Resting, Resting, HalfLocked(r, j), jobs, tasks)
    ensures Scene(t, Resting, Resting, Idle, jobs, tasks) && Leads(s, [], t)
  {
    hide State.Free, Leads, RingPush;
    SceneFree(s, Resting, Resting, HalfLocked(r, j), jobs, tasks, CompletedMutex);
    assert WorkerEnabled(s, LockWorker(0));
    var s1 := Next(s, LockWorker(0));
    assert WorkerEnabled(s1, Retire(0));
    t := Next(s1, Retire(0));
    TwoSteps(s, LockWorker(0), Retire(0));
  }

  /** The job is worked on to its end. */
  lemma Finishing(s: State, r: nat, j: Job, jobs: set<Job>, tasks: set<nat>) returns (t: State)
    requires Scene(s, Resting, Resting, Scanning(r, j, 0), jobs, tasks) && !s.busy[0]
    ensures Scene(t, Resting, Resting, Idle, jobs, tasks) && Leads(s, [], t)
  {
    hide Leads, Scene;
    var s1 := Acquiring(s, r, j, jobs, tasks);
    var s2 := Replying(s1, r, j, jobs, tasks);
    var s3 := Releasing(s2, r, j, jobs, tasks);
    t := LeavingTheSet(s3, r, j, jobs, tasks);
    LeadsOn(s2, [], s3, [], t);
    LeadsOn(s1, [], s2, [] + [], t);
    LeadsOn(s, [], s1, [] + ([] + []), t);
  }

  /** Thread 1 overtakes thread 0 on the way to the queue. */
  lemma Submitting(s: State) returns (t: State)
    requires Scene(s, Resting, Resting, Idle, {}, {}) && s.nextId == 1 && s.nextReq == 0 && !s.busy[0]
    ensures Scene(t, Resting, Resting, Idle, {SECOND, FIRST}, {0, 1}) && !t.busy[0]
    ensures Leads(s, [Q.Push(SECOND), Q.Push(FIRST)], t)
  {
    hide Leads, Scene;
    var s1 := Beginning(s);
    var s2 := Making(s1);
    var s3 := PushingLater(s2);
    var s4 := PushingEarlier(s3);
    t := Posting(s4);
    LeadsOn(s3, [Q.Push(FIRST)], s4, [], t);
    LeadsOn(s2, [Q.Push(SECOND)], s3, [Q.Push(FIRST)] + [], t);
    assert [Q.Push(SECOND)] + ([Q.Push(FIRST)] + []) == [Q.Push(SECOND), Q.Push(FIRST)];
    LeadsOn(s1, [], s2, [Q.Push(SECOND), Q.Push(FIRST)], t);
    LeadsOn(s, [], s1, [Q.Push(SECOND), Q.Push(FIRST)], t);
    assert [] + [Q.Push(SECOND), Q.Push(FIRST)] == [Q.Push(SECOND), Q.Push(FIRST)];
  }

  /** In the queue it is overtaken in turn. */
  lemma Draining(s: State) returns (t: State)
    requires Scene(s, Resting, Resting, Idle, {SECOND, FIRST}, {0, 1}) && !s.busy[0]
    ensures Leads(s, [Q.Pop, Q.Pop], t)
  {
    assert IsTop({SECOND, FIRST}, FIRST) && IsTop({SECOND}, SECOND);
    assert {SECOND, FIRST} - {FIRST} == {SECOND} && {0, 1} - {0} == {1 as nat};
    hide Leads, Scene, IsTop;
    var s1 := TakingAndPopping(s, {SECOND, FIRST}, {0, 1}, 0, FIRST);
    var s2 := Finishing(s1, 0, FIRST, {SECOND}, {1});
    t := TakingAndPopping(s2, {SECOND}, {1}, 1, SECOND);
    LeadsOn(s1, [], s2, [Q.Pop], t);
    LeadsOn(s, [Q.Pop], s1, [] + [Q.Pop], t);
    assert [Q.Pop] + ([] + [Q.Pop]) == [Q.Pop, Q.Pop];
  }

  const OVERTAKING: seq<Q.Op> := [Q.Push(SECOND), Q.Push(FIRST), Q.Pop, Q.Pop]

  lemma Overtaking(devices: nat, requestThreads: nat, limit: nat) returns (u: State)
    requires devices > 0 && requestThreads > 1 && limit > 1
    ensures Leads(Initial(devices, requestThreads, limit), OVERTAKING, u)
  {
    var s := Initial(devices, requestThreads, limit);
    assert s.busy[0] == false;
    assert Scene(s, Resting, Resting, Idle, {}, {}) && s.nextId == 1 && s.nextReq == 0;
    hide Leads, Scene;
    var t := Submitting(s);
    u := Draining(t);
    LeadsOn(s, [Q.Push(SECOND), Q.Push(FIRST)], t, [Q.Pop, Q.Pop], u);
    assert [Q.Push(SECOND), Q.Push(FIRST)] + [Q.Pop, Q.Pop] == OVERTAKING;
  }

  /** One operation after others, with what it comes to. */
  lemma QueueStep(ops: seq<Q.Op>, op: Q.Op, more: seq<Q.Op>, h: Q.History, h': Q.History, pushed: seq<Job>,
      pushed': seq<Job>)
    requires more == ops + [op]
    requires Q.Run(ops) == h && Q.Apply(h, op) == h'
    requires Q.Pushes(ops) == pushed && pushed' == pushed + if op.Push? then [op.job] else []
    ensures Q.Run(more) == h' && Q.Pushes(more) == pushed'
  {
    hide Q.Run, Q.Pushes, Q.Apply;
    OpsSnoc(ops, op);
  }

  lemma OnePush(q: set<Job>, q': set<Job>, popped: seq<Job>, j: Job)
    requires q' == q + {j}
    ensures Q.Apply(Q.History(q, popped), Q.Push(j)) == Q.History(q', popped)
  {
  }

  lemma OnePop(q: set<Job>, q': set<Job>, popped: seq<Job>, j: Job)
    requires UniqueIds(q) && IsTop(q, j) && q' == q - {j}
    ensures Q.Apply(Q.History(q, popped), Q.Pop) == Q.History(q', popped + [j])
  {
    TopUnique(q, j);
  }

  lemma BothTop()
    ensures UniqueIds({SECOND, FIRST}) && IsTop({SECOND, FIRST}, FIRST)
    ensures UniqueIds({SECOND}) && IsTop({SECOND}, SECOND)
  {
  }

  lemma OvertakingPushes()
    ensures Q.Run([Q.Push(SECOND), Q.Push(FIRST)]) == Q.History({SECOND, FIRST}, [])
    ensures Q.Pushes([Q.Push(SECOND), Q.Push(FIRST)]) == [SECOND, FIRST]
  {
    assert Q.Run([]) == Q.History({}, []) && Q.Pushes([]) == [];
    hide Q.Run, Q.Pushes, Q.Apply;
    OnePush({}, {SECOND}, [], SECOND);
    QueueStep([], Q.Push(SECOND), [Q.Push(SECOND)], Q.History({}, []), Q.History({SECOND}, []), [], [SECOND]);
    OnePush({SECOND}, {SECOND, FIRST}, [], FIRST);
    QueueStep([Q.Push(SECOND)], Q.Push(FIRST), [Q.Push(SECOND), Q.Push(FIRST)],
              Q.History({SECOND}, []), Q.History({SECOND, FIRST}, []), [SECOND], [SECOND, FIRST]);
  }

  lemma OvertakingRun()
    ensures Q.Run(OVERTAKING).popped == [FIRST, SECOND] && Q.Pushes(OVERTAKING) == [SECOND, FIRST]
  {
    hide Q.Run, Q.Pushes, Q.Apply, IsTop, UniqueIds;
    var ops, pushed := [Q.Push(SECOND), Q.Push(FIRST)], [SECOND, FIRST];
    OvertakingPushes();
    BothTop();
    assert {SECOND, FIRST} - {FIRST} == {SECOND} && [] + [FIRST] == [FIRST] && pushed + [] == pushed;
    OnePop({SECOND, FIRST}, {SECOND}, [], FIRST);
    QueueStep(ops, Q.Pop, ops + [Q.Pop], Q.History({SECOND, FIRST}, []), Q.History({SECOND}, [FIRST]), pushed, pushed);
    assert {SECOND} - {SECOND} == {} && [FIRST] + [SECOND] == [FIRST, SECOND];
    OnePop({SECOND}, {}, [FIRST], SECOND);
    assert ops + [Q.Pop] + [Q.Pop] == OVERTAKING;
    QueueStep(ops + [Q.Pop], Q.Pop, OVERTAKING, Q.History({SECOND}, [FIRST]), Q.History({}, [FIRST, SECOND]),
              pushed, pushed);
  }

  lemma OvertakingIsNotFifo()
    ensures !Q.Fifo(OVERTAKING)
  {
    hide Q.Run, Q.Pushes;
    OvertakingRun();
    var popped, pushed := [FIRST, SECOND], [SECOND, FIRST];
    assert popped[0] == FIRST && popped[1] == SECOND && Q.Precedes(popped, FIRST, SECOND);
    assert !Q.Precedes(pushed, FIRST, SECOND);
  }

  // ---------- the exact condition ----------

  /** First in, first out within each priority, in all runs or in those in which nothing throws. */
  ghost predicate AlwaysFifo(s: State, throwing: bool) {
    forall acts :: Legal(s, acts) && (throwing || NothingThrows(acts)) ==> Q.Fifo(QueueOps(s, acts))
  }

  lemma FifoRun(devices: nat, requestThreads: nat, limit: nat, acts: seq<Action>)
    requires devices == 0 || requestThreads <= 1 || limit <= 1
    requires Legal(Initial(devices, requestThreads, limit), acts)
    ensures Q.Fifo(QueueOps(Initial(devices, requestThreads, limit), acts))
  {
    hide Legal, Exec, QueueOps, Invariant;
    var s := Initial(devices, requestThreads, limit);
    InitialInvariant(devices, requestThreads, limit);
    assert [] + QueueOps(s, acts) == QueueOps(s, acts);
    if devices == 0 {
      NothingPopped(s, [], acts);
    } else if requestThreads <= 1 {
      RunAscends(s, [], acts);
      Q.AscendingIsFifo(QueueOps(s, acts));
    } else {
      RunStaysInLine(s, [], acts);
    }
  }

  /** For any number of devices, request threads and places in the queue, whether or not there are
      exceptions: jobs of equal priority are taken in the order in which they were queued, in every run, if
      and only if there is no device, at most one request thread, or room for one job only. */
  lemma FifoExactly(devices: nat, requestThreads: nat, limit: nat, throwing: bool)
    ensures AlwaysFifo(Initial(devices, requestThreads, limit), throwing) <==>
      devices == 0 || requestThreads <= 1 || limit <= 1
  {
    hide Legal, QueueOps, Q.Fifo, Initial;
    var s := Initial(devices, requestThreads, limit);
    if devices == 0 || requestThreads <= 1 || limit <= 1 {
      forall acts | Legal(s, acts)
        ensures Q.Fifo(QueueOps(s, acts))
      {
        FifoRun(devices, requestThreads, limit, acts);
      }
    } else {
      var u := Overtaking(devices, requestThreads, limit);
      OvertakingIsNotFifo();
      var acts :| Legal(s, acts) && NothingThrows(acts) && Exec(s, acts) == u && QueueOps(s, acts) == OVERTAKING;
    }
  }
}
