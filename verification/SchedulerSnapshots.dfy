/** What a queue snapshot shows, over whole runs of the work handler. */
module SchedulerSnapshots {
  import opened Wrappers
  import opened JobQueue
  import opened Scheduler
  import opened SchedulerSafety
  import opened SchedulerRuns
  import opened SchedulerCompletion
  import opened SchedulerLeak
  import Jobs = JobBook

  /** A step of this request thread. */
  predicate By(a: Action, c: nat) { !a.OfWorker() && a.c == c }

  /** Steps among which there is none of this request thread. */
  ghost predicate Passive(acts: seq<Action>, c: nat) {
    forall k :: 0 <= k < |acts| ==> !By(acts[k], c)
  }

  // ---------- a thread that reads ----------

  lemma OthersLeaveClient(s: State, a: Action, c: nat)
    requires Enabled(s, a) && !By(a, c) && c < |s.clients|
    ensures c < |Next(s, a).clients| && Next(s, a).clients[c] == s.clients[c]
  {
    hide Next, WorkerEnabled, ClientEnabled;
    if a.OfWorker() { WorkerShape(s, a); } else { ClientShape(s, a); }
  }

  lemma WorkerLeavesLists(s: State, a: Action)
    requires Enabled(s, a) && a.OfWorker() && !a.Insert? && !a.Retire?
    ensures Next(s, a).active == s.active && Next(s, a).completed == s.completed
  {
    hide Discard, RingPush, State.Free, IsTop;
    assert WorkerEnabled(s, a);
  }

  /** Nobody touches the active set or the ring while a thread reads them. */
  lemma StepFreezes(s: State, a: Action, c: nat)
    requires Exclusive(s) && Enabled(s, a) && !By(a, c) && c < |s.clients| && s.clients[c].SnapCopied?
    ensures c < |Next(s, a).clients| && Next(s, a).clients[c] == s.clients[c]
    ensures Next(s, a).active == s.active && Next(s, a).completed == s.completed
  {
    OthersLeaveClient(s, a, c);
    hide Next, Exclusive;
    if a.Insert? || a.Retire? {
      SnapshotExcludes(s, a.w, c);
    } else if a.OfWorker() {
      WorkerLeavesLists(s, a);
    } else {
      ClientShape(s, a);
    }
  }

  lemma {:induction false} RunFreezes(s: State, acts: seq<Action>, c: nat)
    requires Invariant(s) && Legal(s, acts) && Passive(acts, c) && c < |s.clients| && s.clients[c].SnapCopied?
    ensures var t := Exec(s, acts);
      && c < |t.clients| && t.clients[c] == s.clients[c] && t.active == s.active && t.completed == s.completed
    decreases |acts|
  {
    hide Next, Enabled;
    if acts != [] {
      StepFreezes(s, acts[0], c);
      KeepsInvariant(s, acts[0]);
      hide Invariant;
      RunFreezes(Next(s, acts[0]), acts[1..], c);
    }
  }

  lemma CopyStep(s: State, c: nat)
    requires Enabled(s, CopyJobs(c))
    ensures var t := Next(s, CopyJobs(c));
      && c < |t.clients| && t.clients[c] == SnapCopied(s.jobs) && t.active == s.active && t.completed == s.completed
  {
    assert ClientEnabled(s, CopyJobs(c));
  }

  lemma ShowStep(s: State, c: nat)
    requires Enabled(s, Show(c))
    ensures s.clients[c].SnapCopied?
    ensures Next(s, Show(c)).snapshots
      == s.snapshots + [Snapshot(s.clients[c].queued, s.active, s.completed)]
  {
    assert ClientEnabled(s, Show(c));
  }

  /** Only showing adds a snapshot. */
  lemma OthersShowNothing(s: State, a: Action)
    requires Enabled(s, a) && !a.Show?
    ensures Next(s, a).snapshots == s.snapshots
  {
    hide Keep, Discard, RingPush, State.Free, IsTop;
    if a.OfWorker() { assert WorkerEnabled(s, a); } else { assert ClientEnabled(s, a); }
  }

  // ---------- cutting runs ----------

  lemma {:induction false} LegalParts(s: State, a: seq<Action>, b: seq<Action>)
    requires Legal(s, a + b)
    ensures Legal(s, a) && Legal(Exec(s, a), b) && Exec(s, a + b) == Exec(Exec(s, a), b)
    decreases |a|
  {
    hide Enabled, Next;
    if a == [] {
      assert a + b == b;
    } else {
      assert (a + b)[1..] == a[1..] + b;
      LegalParts(Next(s, a[0]), a[1..], b);
    }
  }

  lemma LegalLast(s: State, acts: seq<Action>, a: Action)
    requires Legal(s, acts + [a])
    ensures Legal(s, acts) && Enabled(Exec(s, acts), a) && Exec(s, acts + [a]) == Next(Exec(s, acts), a)
  {
    LegalParts(s, acts, [a]);
    hide Enabled, Next;
    var t := Exec(s, acts);
    assert [a][0] == a && [a][1..] == [];
  }

  lemma {:induction false} ClientsKept(s: State, acts: seq<Action>)
    requires Legal(s, acts)
    ensures |Exec(s, acts).clients| == |s.clients| && Exec(s, acts).limit == s.limit
    decreases |acts|
  {
    hide Enabled, Next;
    if acts != [] {
      if acts[0].OfWorker() { WorkerShape(s, acts[0]); } else { ClientShape(s, acts[0]); }
      ClientsKept(Next(s, acts[0]), acts[1..]);
    }
  }

  /** Between copying the queue and showing, a thread keeps the queue it copied, and the other two lists
      are those of that moment. */
  lemma CopiedThenShown(s: State, between: seq<Action>, c: nat)
    requires Invariant(s) && Legal(s, [CopyJobs(c)] + between + [Show(c)]) && Passive(between, c)
    ensures Legal(s, [CopyJobs(c)] + between)
    ensures Exec(s, [CopyJobs(c)] + between + [Show(c)]).snapshots
      == Exec(s, [CopyJobs(c)] + between).snapshots + [Snapshot(s.jobs, s.active, s.completed)]
  {
    hide Next, Enabled;
    var reading := [CopyJobs(c)] + between;
    LegalLast(s, reading, Show(c));
    assert reading[0] == CopyJobs(c) && reading[1..] == between;
    CopyStep(s, c);
    KeepsInvariant(s, CopyJobs(c));
    hide Invariant;
    RunFreezes(Next(s, CopyJobs(c)), between, c);
    ShowStep(Exec(s, reading), c);
  }

  // ---------- who is listed as active ----------

  /** Lost jobs that are still in the active set. */
  ghost function Ghosts(active: set<Job>, stage: map<Job, Stage>): set<Job> {
    set j | j in active && j in stage && stage[j] == Lost
  }

  /** The job that an exception in this step leaves in the active set, if any. */
  ghost function StrandedOf(s: State, a: Action): set<Job>
    requires Enabled(s, a)
  {
    if a.Throw? && s.workers[a.w].IsActive() then {s.workers[a.w].job} else {}
  }

  /** The jobs that exceptions struck between being entered in the active set and leaving it. */
  ghost function StrandedBy(s: State, acts: seq<Action>): set<Job>
    requires Legal(s, acts)
    decreases |acts|
  {
    if acts == [] then {} else StrandedOf(s, acts[0]) + StrandedBy(Next(s, acts[0]), acts[1..])
  }

  ghost function StrandedMove(b: Jobs.Book, m: Jobs.Move): set<Job>
    requires Jobs.CanMove(b, m)
  {
    if m.Lose? && b.entered[m.w] then {b.held[m.w].value} else {}
  }

  lemma MoveStrandsOne(b: Jobs.Book, m: Jobs.Move, j: Job)
    requires Jobs.Partitioned(b) && Jobs.IdsUnique(b) && Jobs.CanMove(b, m)
    ensures j in Ghosts(Jobs.Moved(b, m).active, Jobs.Moved(b, m).stage) <==>
      j in Ghosts(b.active, b.stage) || j in StrandedMove(b, m)
  {
    hide RingPush;
    if j in b.stage { assert Jobs.StageHeld(b, j); }
    if j in b.active { assert Jobs.ActiveHeld(b, j); }
    if m.Enqueue? && j == b.pending[m.c].value { assert j !in b.stage; }
  }

  lemma MoveStrands(b: Jobs.Book, m: Jobs.Move)
    requires Jobs.Partitioned(b) && Jobs.IdsUnique(b) && Jobs.CanMove(b, m)
    ensures Ghosts(Jobs.Moved(b, m).active, Jobs.Moved(b, m).stage)
      == Ghosts(b.active, b.stage) + StrandedMove(b, m)
  {
    hide Jobs.Partitioned, Jobs.IdsUnique, Jobs.Moved, StrandedMove, Ghosts;
    forall j: Job
      ensures j in Ghosts(Jobs.Moved(b, m).active, Jobs.Moved(b, m).stage) <==>
        j in Ghosts(b.active, b.stage) + StrandedMove(b, m)
    {
      MoveStrandsOne(b, m, j);
    }
  }

  lemma StrandedIsMove(s: State, a: Action)
    requires Enabled(s, a) && Jobs.CanMove(Jobs.BookOf(s), Jobs.MoveOf(s, a))
    ensures StrandedOf(s, a) == StrandedMove(Jobs.BookOf(s), Jobs.MoveOf(s, a))
  {
    hide Next;
    if a.IsException() {
      assert WorkerEnabled(s, a);
      assert Jobs.BookOf(s).held[a.w] == s.workers[a.w].Job();
      assert Jobs.BookOf(s).entered[a.w] == s.workers[a.w].IsActive();
    }
  }

  lemma StepStrands(s: State, a: Action)
    requires Invariant(s) && Enabled(s, a)
    ensures Ghosts(Next(s, a).active, Next(s, a).stage) == Ghosts(s.active, s.stage) + StrandedOf(s, a)
  {
    var b, m := Jobs.BookOf(s), Jobs.MoveOf(s, a);
    Jobs.StepIsMove(s, a);
    MoveStrands(b, m);
    StrandedIsMove(s, a);
    hide Ghosts, StrandedOf, StrandedMove, Next, Jobs.Moved;
    assert b.stage == s.stage && b.active == s.active;
    var b' := Jobs.BookOf(Next(s, a));
    assert b'.stage == Next(s, a).stage && b'.active == Next(s, a).active;
  }

  lemma {:induction false} RunStrands(s: State, acts: seq<Action>)
    requires Invariant(s) && Legal(s, acts)
    ensures Ghosts(Exec(s, acts).active, Exec(s, acts).stage) == Ghosts(s.active, s.stage) + StrandedBy(s, acts)
    decreases |acts|
  {
    hide Invariant, Next, Enabled, Ghosts, StrandedOf;
    if acts != [] {
      StepStrands(s, acts[0]);
      KeepsInvariant(s, acts[0]);
      RunStrands(Next(s, acts[0]), acts[1..]);
    }
  }

  /** The job is in progress, and its pool thread is between entering it in the active set and retiring it. */
  ghost predicate WorkedOn(s: State, j: Job) {
    j in s.stage && s.stage[j].InProgress? && s.stage[j].w < |s.workers| && s.workers[s.stage[j].w].IsActive()
  }

  /** The queue and the active set by the stages of the jobs. */
  lemma ListsByStage(s: State)
    requires Jobs.Partitioned(Jobs.BookOf(s))
    ensures forall j :: j in s.jobs <==> j in s.stage && s.stage[j] == Queued
    ensures forall j :: j in s.active <==> WorkedOn(s, j) || j in Ghosts(s.active, s.stage)
  {
    var b := Jobs.BookOf(s);
    assert b.jobs == s.jobs && b.active == s.active && b.stage == s.stage;
    assert |b.entered| == |s.workers|;
    forall j
      ensures j in s.jobs <==> j in s.stage && s.stage[j] == Queued
      ensures j in s.active <==> WorkedOn(s, j) || j in Ghosts(s.active, s.stage)
    {
      if j in b.stage { assert Jobs.StageHeld(b, j); }
      if j in b.active { assert Jobs.ActiveHeld(b, j); }
    }
  }

  // ---------- whole runs ----------

  lemma ReadingLists(s: State, between: seq<Action>, c: nat)
    requires Invariant(s) && Legal(s, [CopyJobs(c)] + between) && Passive(between, c)
    ensures var t := Exec(s, [CopyJobs(c)] + between); t.active == s.active && t.completed == s.completed
  {
    hide Next, Enabled;
    var reading := [CopyJobs(c)] + between;
    assert reading[0] == CopyJobs(c) && reading[1..] == between;
    CopyStep(s, c);
    KeepsInvariant(s, CopyJobs(c));
    hide Invariant;
    RunFreezes(Next(s, CopyJobs(c)), between, c);
  }

  lemma InvariantPartitions(s: State)
    requires Invariant(s)
    ensures Jobs.Partitioned(Jobs.BookOf(s))
  {
    hide Jobs.Partitioned;
  }

  lemma ListsAfter(devices: nat, requestThreads: nat, limit: nat, acts: seq<Action>)
    requires Legal(Initial(devices, requestThreads, limit), acts)
    ensures
      var s0 := Initial(devices, requestThreads, limit);
      var s := Exec(s0, acts);
      && Invariant(s)
      && (forall j :: j in s.jobs <==> j in s.stage && s.stage[j] == Queued)
      && (forall j :: j in s.active <==> WorkedOn(s, j) || j in StrandedBy(s0, acts))
      && (forall j :: j in StrandedBy(s0, acts) ==> j in s.stage && s.stage[j] == Lost)
      && s.completed == Latest(CompletedBy(s0, acts), 128)
  {
    hide Invariant, Next, Enabled, Legal, Exec, CompletedBy, StrandedBy, Latest, Jobs.Partitioned, WorkedOn;
    var s0 := Initial(devices, requestThreads, limit);
    InitialInvariant(devices, requestThreads, limit);
    RunsKeepInvariant(s0, acts);
    RingExactly(devices, requestThreads, limit, acts);
    RunStrands(s0, acts);
    assert Ghosts(s0.active, s0.stage) == {};
    var s := Exec(s0, acts);
    InvariantPartitions(s);
    ListsByStage(s);
    assert Ghosts(s.active, s.stage) == StrandedBy(s0, acts);
  }

  /** In every run: what a thread shows is the queue as it was when the thread copied it, and the active and
      completed jobs of that same moment. Queued are the jobs whose stage says so; active are those that a
      pool thread has entered and not yet retired, and those that an exception struck in between; completed
      are the latest 128, in the order of completion. */
  lemma ShownExactly(devices: nat, requestThreads: nat, limit: nat,
      before: seq<Action>, between: seq<Action>, c: nat)
    requires Legal(Initial(devices, requestThreads, limit), before + ([CopyJobs(c)] + between + [Show(c)]))
    requires Passive(between, c)
    ensures
      var s0 := Initial(devices, requestThreads, limit);
      && Legal(s0, before) && Legal(s0, before + ([CopyJobs(c)] + between))
      && var s, t := Exec(s0, before), Exec(s0, before + ([CopyJobs(c)] + between));
      && Exec(s0, before + ([CopyJobs(c)] + between + [Show(c)])).snapshots
        == t.snapshots + [Snapshot(s.jobs, s.active, s.completed)]
      && t.active == s.active && t.completed == s.completed
      && (forall j :: j in s.jobs <==> j in s.stage && s.stage[j] == Queued)
      && (forall j :: j in s.active <==> WorkedOn(s, j) || j in StrandedBy(s0, before))
      && (forall j :: j in StrandedBy(s0, before) ==> j in s.stage && s.stage[j] == Lost)
      && s.completed == Latest(CompletedBy(s0, before), 128)
  {
    hide Invariant, Next, Enabled, Legal, Exec, Initial, CompletedBy, StrandedBy, Latest, WorkedOn;
    var s0 := Initial(devices, requestThreads, limit);
    var reading := [CopyJobs(c)] + between;
    LegalParts(s0, before, reading + [Show(c)]);
    ListsAfter(devices, requestThreads, limit, before);
    var s := Exec(s0, before);
    CopiedThenShown(s, between, c);
    LegalConcat(s0, before, reading);
    ReadingLists(s, between, c);
  }

  lemma CopiedBefore(s: State, a: Action, c: nat)
    requires Enabled(s, a) && By(a, c) && c < |Next(s, a).clients| && Next(s, a).clients[c].SnapCopied?
    ensures a == CopyJobs(c)
  {
    hide Keep, Discard, State.Free;
    assert ClientEnabled(s, a);
  }

  lemma {:induction false} LatestCopy(s: State, acts: seq<Action>, c: nat)
      returns (before: seq<Action>, between: seq<Action>)
    requires Legal(s, acts) && c < |s.clients| && !s.clients[c].SnapCopied?
    requires c < |Exec(s, acts).clients| && Exec(s, acts).clients[c].SnapCopied?
    ensures acts == before + ([CopyJobs(c)] + between) && Passive(between, c)
    decreases |acts|
  {
    hide Next, Enabled;
    assert acts != [];
    var init, a := acts[..|acts| - 1], acts[|acts| - 1];
    assert acts == init + [a];
    LegalLast(s, init, a);
    ClientsKept(s, init);
    var t := Exec(s, init);
    if By(a, c) {
      CopiedBefore(t, a, c);
      before, between := init, [];
      assert [CopyJobs(c)] + [] == [CopyJobs(c)];
    } else {
      OthersLeaveClient(t, a, c);
      before, between := LatestCopy(s, init, c);
      assert [CopyJobs(c)] + between + [a] == [CopyJobs(c)] + (between + [a]);
      between := between + [a];
    }
  }

  /** Every snapshot of every run comes about like this: only showing adds one, and whoever shows has copied
      the queue and taken no step since. */
  lemma EverySnapshotIsCopied(devices: nat, requestThreads: nat, limit: nat, acts: seq<Action>, a: Action)
    requires Legal(Initial(devices, requestThreads, limit), acts + [a])
    ensures
      var s0 := Initial(devices, requestThreads, limit);
      && Legal(s0, acts)
      && (a.Show? ==> exists before, between ::
           acts == before + ([CopyJobs(a.c)] + between) && Passive(between, a.c))
      && (!a.Show? ==> Exec(s0, acts + [a]).snapshots == Exec(s0, acts).snapshots)
  {
    hide Next, Enabled, Legal, Exec;
    var s0 := Initial(devices, requestThreads, limit);
    LegalLast(s0, acts, a);
    if a.Show? {
      ShowStep(Exec(s0, acts), a.c);
      ClientsKept(s0, acts);
      ShowerExists(Exec(s0, acts), a.c);
      var before, between := LatestCopy(s0, acts, a.c);
    } else {
      OthersShowNothing(Exec(s0, acts), a);
    }
  }

  lemma ShowerExists(s: State, c: nat)
    requires Enabled(s, Show(c))
    ensures c < |s.clients|
  {
  }

  // ---------- what a request for work puts in the queue ----------

  lemma ParseStep(s: State, c: nat, priority: nat, root: nat)
    requires Enabled(s, Parse(c, priority, root))
    ensures var t := Next(s, Parse(c, priority, root));
      && c < |t.clients| && t.clients[c] == WaitPush(s.clients[c].req, Job(s.nextId, priority, root))
      && t.nextId == s.nextId + 1
  {
    assert ClientEnabled(s, Parse(c, priority, root));
  }

  lemma WaitStep(s: State, c: nat, j: Job)
    requires Enabled(s, LockClient(c)) && s.clients[c].WaitPush? && s.clients[c].job == j
    ensures var t := Next(s, LockClient(c)); c < |t.clients| && t.clients[c] == Pushing(s.clients[c].req, j)
  {
    assert ClientEnabled(s, LockClient(c));
  }

  lemma PushStep(s: State, c: nat, r: nat, j: Job)
    requires Enabled(s, Push(c)) && s.clients[c] == Pushing(r, j)
    ensures var t := Next(s, Push(c));
      && c < |t.clients|
      && (|s.jobs| < s.limit ==> t.clients[c] == Pushed(r) && t.jobs == s.jobs + {j} && t.stage == s.stage[j := Queued])
      && (|s.jobs| >= s.limit ==> t.clients[c] == Refused(r) && t.jobs == s.jobs && t.stage == s.stage)
  {
    assert ClientEnabled(s, Push(c));
  }

  lemma {:induction false} RunLeavesClient(s: State, acts: seq<Action>, c: nat)
    requires Legal(s, acts) && Passive(acts, c) && c < |s.clients|
    ensures c < |Exec(s, acts).clients| && Exec(s, acts).clients[c] == s.clients[c]
    decreases |acts|
  {
    hide Next, Enabled;
    if acts != [] {
      OthersLeaveClient(s, acts[0], c);
      RunLeavesClient(Next(s, acts[0]), acts[1..], c);
    }
  }

  /** One step of a thread and then some of others. */
  lemma StepThenOthers(s: State, a: Action, others: seq<Action>, c: nat)
    requires Legal(s, [a] + others) && Passive(others, c) && c < |s.clients|
    ensures Enabled(s, a) && c < |Next(s, a).clients| && Legal(Next(s, a), others)
    ensures Exec(s, [a] + others) == Exec(Next(s, a), others)
    ensures c < |Exec(s, [a] + others).clients| && Exec(s, [a] + others).clients[c] == Next(s, a).clients[c]
  {
    hide Next, Enabled;
    assert ([a] + others)[0] == a && ([a] + others)[1..] == others;
    if a.OfWorker() { WorkerShape(s, a); } else { ClientShape(s, a); }
    RunLeavesClient(Next(s, a), others, c);
  }

  /** A request for work with a priority and a root, whatever the other threads do in between: the job that is
      queued has this priority, this root and the id that was next; it is queued if and only if there is room
      at that moment, and nothing else changes in the queue. */
  lemma SubmittedExactly(s: State, c: nat, priority: nat, root: nat, waiting: seq<Action>, locked: seq<Action>)
    requires c < |s.clients| && Passive(waiting, c) && Passive(locked, c)
    requires Legal(s, [Parse(c, priority, root)] + waiting + ([LockClient(c)] + locked) + [Push(c)])
    ensures
      var acts := [Parse(c, priority, root)] + waiting + ([LockClient(c)] + locked);
      && Legal(s, acts)
      && var t, u := Exec(s, acts), Exec(s, acts + [Push(c)]);
      var j := Job(s.nextId, priority, root);
      && u.jobs == (if |t.jobs| < s.limit then t.jobs + {j} else t.jobs)
      && c < |u.clients| && (u.clients[c].Refused? <==> |t.jobs| >= s.limit)
  {
    hide Next, Enabled;
    var first, second := [Parse(c, priority, root)] + waiting, [LockClient(c)] + locked;
    var acts := first + second;
    LegalLast(s, acts, Push(c));
    LegalParts(s, first, second);
    StepThenOthers(s, Parse(c, priority, root), waiting, c);
    ParseStep(s, c, priority, root);
    var m := Exec(s, first);
    StepThenOthers(m, LockClient(c), locked, c);
    WaitStep(m, c, Job(s.nextId, priority, root));
    PushStep(Exec(s, acts), c, Exec(s, acts).clients[c].req, Job(s.nextId, priority, root));
    ClientsKept(s, acts);
  }

  // ---------- what cancelling and clearing take out of it ----------

  lemma CancelSteps(s: State, c: nat, root: nat)
    ensures Enabled(s, BeginCancel(c, root)) ==> var t := Next(s, BeginCancel(c, root));
      c < |t.clients| && t.clients[c] == WaitCancel(root)
    ensures Enabled(s, LockClient(c)) && s.clients[c] == WaitCancel(root) ==> var t := Next(s, LockClient(c));
      c < |t.clients| && t.clients[c] == Cancelling(root)
  {
  }

  lemma CancelStep(s: State, c: nat, root: nat, j: Job)
    requires Enabled(s, Cancel(c)) && s.clients[c] == Cancelling(root)
    ensures var t := Next(s, Cancel(c));
      && (j in t.jobs <==> j in s.jobs && j.root != root)
      && t.stage.Keys == s.stage.Keys
      && (j in s.stage ==> t.stage[j] == if j in s.jobs && j.root == root then Removed else s.stage[j])
  {
    assert ClientEnabled(s, Cancel(c));
  }

  /** A request to cancel a root, whatever the other threads do in between: the jobs of the root leave the queue
      and are marked removed, and no other job changes. */
  lemma CancelledExactly(s: State, c: nat, root: nat, waiting: seq<Action>, locked: seq<Action>, j: Job)
    requires c < |s.clients| && Passive(waiting, c) && Passive(locked, c)
    requires Legal(s, [BeginCancel(c, root)] + waiting + ([LockClient(c)] + locked) + [Cancel(c)])
    ensures
      var acts := [BeginCancel(c, root)] + waiting + ([LockClient(c)] + locked);
      && Legal(s, acts)
      && var t, u := Exec(s, acts), Exec(s, acts + [Cancel(c)]);
      && (j in u.jobs <==> j in t.jobs && j.root != root)
      && u.stage.Keys == t.stage.Keys
      && (j in t.stage ==> u.stage[j] == if j in t.jobs && j.root == root then Removed else t.stage[j])
  {
    hide Next, Enabled;
    var first, second := [BeginCancel(c, root)] + waiting, [LockClient(c)] + locked;
    var acts := first + second;
    LegalLast(s, acts, Cancel(c));
    LegalParts(s, first, second);
    StepThenOthers(s, BeginCancel(c, root), waiting, c);
    CancelSteps(s, c, root);
    var m := Exec(s, first);
    StepThenOthers(m, LockClient(c), locked, c);
    CancelSteps(m, c, root);
    CancelStep(Exec(s, acts), c, root, j);
  }

  /** Clearing leaves the queue empty, and marks what was in it removed and nothing else. */
  lemma ClearedExactly(s: State, c: nat, j: Job)
    requires Enabled(s, Clear(c))
    ensures var t := Next(s, Clear(c));
      && t.jobs == {} && t.stage.Keys == s.stage.Keys
      && (j in s.stage ==> t.stage[j] == if j in s.jobs then Removed else s.stage[j])
  {
    assert ClientEnabled(s, Clear(c));
  }
}
