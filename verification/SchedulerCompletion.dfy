/** The jobs completed in a run, and the ring of the latest of them. */
module SchedulerCompletion {
  import opened Wrappers
  import opened JobQueue
  import opened Scheduler
  import opened SchedulerSafety
  import opened SchedulerRuns
  import Jobs = JobBook

  /** The job that this step completes, if any. */
  ghost function CompletedOf(s: State, a: Action): seq<Job>
    requires Enabled(s, a)
  {
    if a.Retire? then [s.workers[a.w].job] else []
  }

  /** The jobs completed in the course of a run, in order. */
  ghost function CompletedBy(s: State, acts: seq<Action>): seq<Job>
    requires Legal(s, acts)
    decreases |acts|
  {
    if acts == [] then [] else CompletedOf(s, acts[0]) + CompletedBy(Next(s, acts[0]), acts[1..])
  }

  function Latest(jobs: seq<Job>, n: nat): seq<Job> {
    if |jobs| <= n then jobs else jobs[|jobs| - n..]
  }

  lemma PushLatest(jobs: seq<Job>, j: Job)
    ensures RingPush(Latest(jobs, RING_CAPACITY), j) == Latest(jobs + [j], RING_CAPACITY)
  {
  }

  // ---------- the ring ----------

  lemma WorkerRing(s: State, a: Action)
    requires Enabled(s, a) && a.OfWorker()
    ensures Next(s, a).completed == if a.Retire? then RingPush(s.completed, s.workers[a.w].job) else s.completed
  {
    hide Discard, RingPush, State.Free, IsTop;
    assert WorkerEnabled(s, a);
  }

  lemma StepRing(s: State, done: seq<Job>, a: Action)
    requires Enabled(s, a) && s.completed == Latest(done, RING_CAPACITY)
    ensures Next(s, a).completed == Latest(done + CompletedOf(s, a), RING_CAPACITY)
  {
    hide WorkerNext, ClientNext, Latest, RingPush;
    if a.OfWorker() { WorkerRing(s, a); } else { ClientShape(s, a); }
    if a.Retire? { PushLatest(done, s.workers[a.w].job); } else { assert done + [] == done; }
  }

  // ---------- the stage of a job ----------

  ghost predicate IsCompleted(stage: map<Job, Stage>, j: Job) { j in stage && stage[j] == Completed }

  /** These are the completed jobs, each once. */
  ghost predicate Lists(done: seq<Job>, stage: map<Job, Stage>) {
    && (forall j :: j in done <==> IsCompleted(stage, j))
    && (forall i, k :: 0 <= i < k < |done| ==> done[i] != done[k])
  }

  lemma MoveCompletes(b: Jobs.Book, m: Jobs.Move, j: Job)
    requires Jobs.Partitioned(b) && Jobs.IdsUnique(b) && Jobs.CanMove(b, m)
    ensures IsCompleted(Jobs.Moved(b, m).stage, j) <==>
      IsCompleted(b.stage, j) || (m.Complete? && b.held[m.w] == Some(j))
    ensures m.Complete? && b.held[m.w] == Some(j) ==> !IsCompleted(b.stage, j)
  {
    hide RingPush;
    if j in b.stage { assert Jobs.StageHeld(b, j); }
    if m.Enqueue? && j == b.pending[m.c].value { assert j !in b.stage; }
  }

  lemma CompletionIsMove(s: State, a: Action)
    requires Enabled(s, a) && Jobs.CanMove(Jobs.BookOf(s), Jobs.MoveOf(s, a))
    ensures var b, m := Jobs.BookOf(s), Jobs.MoveOf(s, a);
      CompletedOf(s, a) == if m.Complete? then [b.held[m.w].value] else []
  {
    hide Next;
    if a.Retire? { assert Jobs.BookOf(s).held[a.w] == s.workers[a.w].Job(); }
  }

  lemma StepLists(s: State, done: seq<Job>, a: Action)
    requires Invariant(s) && Enabled(s, a) && Lists(done, s.stage)
    ensures Lists(done + CompletedOf(s, a), Next(s, a).stage)
  {
    var b, m := Jobs.BookOf(s), Jobs.MoveOf(s, a);
    Jobs.StepIsMove(s, a);
    CompletionIsMove(s, a);
    assert b.stage == s.stage && Jobs.BookOf(Next(s, a)).stage == Next(s, a).stage;
    MoveLists(b, m, done);
  }

  lemma MoveLists(b: Jobs.Book, m: Jobs.Move, done: seq<Job>)
    requires Jobs.Partitioned(b) && Jobs.IdsUnique(b) && Jobs.CanMove(b, m) && Lists(done, b.stage)
    ensures Lists(done + if m.Complete? then [b.held[m.w].value] else [], Jobs.Moved(b, m).stage)
  {
    hide Jobs.Partitioned, Jobs.IdsUnique, Jobs.Moved, IsCompleted;
    var more := if m.Complete? then [b.held[m.w].value] else [];
    forall j
      ensures j in done + more <==> IsCompleted(Jobs.Moved(b, m).stage, j)
      ensures m.Complete? && b.held[m.w] == Some(j) ==> j !in done
    {
      MoveCompletes(b, m, j);
    }
  }

  // ---------- whole runs ----------

  lemma {:induction false} RunCompletes(s: State, done: seq<Job>, acts: seq<Action>)
    requires Invariant(s) && s.completed == Latest(done, RING_CAPACITY) && Lists(done, s.stage) && Legal(s, acts)
    ensures Exec(s, acts).completed == Latest(done + CompletedBy(s, acts), RING_CAPACITY)
    ensures Lists(done + CompletedBy(s, acts), Exec(s, acts).stage)
    decreases |acts|
  {
    hide Invariant, Next, Enabled, Latest, Lists, CompletedOf;
    if acts == [] {
      assert done + [] == done;
    } else {
      StepRing(s, done, acts[0]);
      StepLists(s, done, acts[0]);
      KeepsInvariant(s, acts[0]);
      RunCompletes(Next(s, acts[0]), done + CompletedOf(s, acts[0]), acts[1..]);
      assert done + CompletedBy(s, acts)
        == done + CompletedOf(s, acts[0]) + CompletedBy(Next(s, acts[0]), acts[1..]);
    }
  }

  /** In every run from the start, exceptions or not: a job is completed once at most, the completed jobs are
      those whose stage says so, and the ring holds the latest 128 of them in the order of completion. */
  lemma RingExactly(devices: nat, requestThreads: nat, limit: nat, acts: seq<Action>)
    requires Legal(Initial(devices, requestThreads, limit), acts)
    ensures var s0 := Initial(devices, requestThreads, limit);
      var s, done := Exec(s0, acts), CompletedBy(s0, acts);
      && s.completed == Latest(done, 128)
      && (forall j :: j in done <==> j in s.stage && s.stage[j] == Completed)
      && (forall i, k :: 0 <= i < k < |done| ==> done[i] != done[k])
  {
    hide Invariant, Legal, Exec, CompletedBy;
    var s0 := Initial(devices, requestThreads, limit);
    InitialInvariant(devices, requestThreads, limit);
    RunCompletes(s0, [], acts);
    assert [] + CompletedBy(s0, acts) == CompletedBy(s0, acts);
    assert forall j :: IsCompleted(Exec(s0, acts).stage, j) <==>
      j in Exec(s0, acts).stage && Exec(s0, acts).stage[j] == Completed;
  }
}
