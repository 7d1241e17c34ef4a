/** Whole runs of the work handler: safety in every reachable state, and what a run comes to. */
module SchedulerRuns {
  import opened Wrappers
  import opened JobQueue
  import opened Scheduler
  import opened SchedulerSafety
  import Requests = RequestLedger
  import Jobs = JobBook

  // ---------- no job is stranded ----------

  ghost function Starters(workers: seq<Worker>): set<int> {
    set w | 0 <= w < |workers| && workers[w].Starting()
  }

  ghost function Posters(clients: seq<Client>): set<int> {
    set c | 0 <= c < |clients| && clients[c].Pushed?
  }

  /** Every queued job has a task that has not popped yet, or a submitter about to post one. */
  ghost predicate Covered(s: State) {
    |s.jobs| <= |s.tasks| + |Starters(s.workers)| + |Posters(s.clients)|
  }

  function One(b: bool): int { if b then 1 else 0 }

  lemma StartersUpdated(workers: seq<Worker>, w: nat, p: Worker)
    requires w < |workers|
    ensures |Starters(workers[w := p])| == |Starters(workers)| - One(workers[w].Starting()) + One(p.Starting())
  {
    hide Worker.Starting;
    var rest := Starters(workers) - {w as int};
    assert Starters(workers) == rest + if workers[w].Starting() then {w as int} else {};
    assert Starters(workers[w := p]) == rest + if p.Starting() then {w as int} else {};
  }

  lemma PostersUpdated(clients: seq<Client>, c: nat, p: Client)
    requires c < |clients|
    ensures |Posters(clients[c := p])| == |Posters(clients)| - One(clients[c].Pushed?) + One(p.Pushed?)
  {
    var rest := Posters(clients) - {c as int};
    assert Posters(clients) == rest + if clients[c].Pushed? then {c as int} else {};
    assert Posters(clients[c := p]) == rest + if p.Pushed? then {c as int} else {};
  }

  lemma WorkerKeepsCovered(s: State, a: Action)
    requires Covered(s) && Enabled(s, a) && a.OfWorker()
    ensures Covered(Next(s, a))
  {
    WorkerShape(s, a);
    StartersUpdated(s.workers, a.w, Next(s, a).workers[a.w]);
    hide Discard, RingPush, State.Free, Starters, Posters;
    assert WorkerEnabled(s, a);
  }

  /** Cancelling and clearing only take jobs away. */
  lemma ErasingKeepsCovered(s: State, a: Action)
    requires Covered(s) && Enabled(s, a) && (a.Cancel? || a.Clear?)
    ensures Covered(Next(s, a))
  {
    ClientShape(s, a);
    PostersUpdated(s.clients, a.c, Next(s, a).clients[a.c]);
    hide Discard, State.Free, Starters, Posters;
    assert ClientEnabled(s, a);
    assert Next(s, a).jobs <= s.jobs;
    assert |s.jobs - Next(s, a).jobs| == |s.jobs| - |Next(s, a).jobs|;
  }

  lemma PushKeepsCovered(s: State, a: Action)
    requires Covered(s) && Enabled(s, a) && a.Push?
    ensures Covered(Next(s, a))
  {
    ClientShape(s, a);
    PostersUpdated(s.clients, a.c, Next(s, a).clients[a.c]);
    hide Keep, Discard, State.Free, Starters, Posters;
    assert ClientEnabled(s, a);
  }

  lemma PostKeepsCovered(s: State, a: Action)
    requires Covered(s) && Enabled(s, a) && a.Post? && s.clients[a.c].req !in s.tasks
    ensures Covered(Next(s, a))
  {
    ClientShape(s, a);
    PostersUpdated(s.clients, a.c, Next(s, a).clients[a.c]);
    hide Keep, Discard, State.Free, Starters, Posters;
    assert ClientEnabled(s, a);
  }

  /** A request is posted to the pool once. */
  lemma PostedOnce(s: State, c: nat)
    requires Requests.Balanced(Requests.LedgerOf(s)) && c < |s.clients| && s.clients[c].Pushed?
    ensures s.clients[c].req !in s.tasks
  {
    var l := Requests.LedgerOf(s);
    assert l.clients[c] == Some(s.clients[c].req);
  }

  lemma OtherKeepsCovered(s: State, a: Action)
    requires Covered(s) && Enabled(s, a) && !a.OfWorker() && !a.Cancel? && !a.Clear? && !a.Push? && !a.Post?
    ensures Covered(Next(s, a))
  {
    ClientShape(s, a);
    PostersUpdated(s.clients, a.c, Next(s, a).clients[a.c]);
    hide Keep, Discard, State.Free, Starters, Posters;
    assert ClientEnabled(s, a);
  }

  lemma KeepsCovered(s: State, a: Action)
    requires Covered(s) && Requests.Balanced(Requests.LedgerOf(s)) && Enabled(s, a)
    ensures Covered(Next(s, a))
  {
    hide Next, Covered, Requests.Balanced;
    if a.OfWorker() {
      WorkerKeepsCovered(s, a);
    } else if a.Cancel? || a.Clear? {
      ErasingKeepsCovered(s, a);
    } else if a.Push? {
      PushKeepsCovered(s, a);
    } else if a.Post? {
      PostedOnce(s, a.c);
      PostKeepsCovered(s, a);
    } else {
      OtherKeepsCovered(s, a);
    }
  }

  // ---------- snapshots ----------

  ghost function Members(s: seq<Job>): set<Job> {
    set j | j in s
  }

  /** No job id is listed twice, within or across the three lists. */
  ghost predicate NoIdTwice(sn: Snapshot) {
    && sn.queued !! sn.active !! Members(sn.completed)
    && UniqueIds(sn.queued + sn.active + Members(sn.completed))
    && (forall i, k :: 0 <= i < k < |sn.completed| ==> sn.completed[i] != sn.completed[k])
  }

  ghost predicate Snapshots(s: State) {
    && (forall c :: 0 <= c < |s.clients| && s.clients[c].SnapCopied? ==>
         s.clients[c].queued <= s.stage.Keys && s.clients[c].queued !! s.active !! Members(s.completed))
    && (forall k :: 0 <= k < |s.snapshots| ==> NoIdTwice(s.snapshots[k]))
  }

  /** While a snapshot is being read, no thread changes the active set or the completed ring. */
  lemma SnapshotExcludes(s: State, w: nat, c: nat)
    requires Exclusive(s) && w < |s.workers| && c < |s.clients| && s.workers[w].Holds(ActiveMutex)
    ensures !s.clients[c].SnapCopied?
  {
    assert s.Holds(PoolThread(w), ActiveMutex);
    assert s.Holds(RequestThread(c), ActiveMutex) ==> PoolThread(w) == RequestThread(c);
  }

  lemma WorkerKeepsSnapshots(s: State, a: Action)
    requires Snapshots(s) && Exclusive(s) && Jobs.Partitioned(Jobs.BookOf(s)) && Jobs.IdsUnique(Jobs.BookOf(s))
    requires Enabled(s, a) && a.OfWorker()
    ensures Snapshots(Next(s, a))
  {
    Jobs.KeepsPartition(s, a);
    if a.Insert? || a.Retire? {
      forall c | 0 <= c < |s.clients|
        ensures !s.clients[c].SnapCopied?
      {
        SnapshotExcludes(s, a.w, c);
      }
    }
  }

  lemma ActiveDisjoint(s: State)
    requires Jobs.Partitioned(Jobs.BookOf(s))
    ensures s.jobs !! s.active !! Members(s.completed)
    ensures s.jobs <= s.stage.Keys && s.active <= s.stage.Keys && Members(s.completed) <= s.stage.Keys
  {
    var b := Jobs.BookOf(s);
    assert b.jobs == s.jobs && b.active == s.active && b.completed == s.completed && b.stage == s.stage;
  }

  /** The reading client's lists are as they were when it copied the queue. */
  lemma ShownOnce(s: State, c: nat)
    requires Snapshots(s) && Jobs.Partitioned(Jobs.BookOf(s)) && Jobs.IdsUnique(Jobs.BookOf(s))
    requires c < |s.clients| && s.clients[c].SnapCopied?
    ensures NoIdTwice(Snapshot(s.clients[c].queued, s.active, s.completed))
  {
    ActiveDisjoint(s);
    var b := Jobs.BookOf(s);
    assert b.completed == s.completed && b.stage == s.stage;
  }

  lemma ReadingKeepsSnapshots(s: State, a: Action)
    requires Snapshots(s) && Jobs.Partitioned(Jobs.BookOf(s)) && Jobs.IdsUnique(Jobs.BookOf(s))
    requires Enabled(s, a) && (a.CopyJobs? || a.Show?)
    ensures Snapshots(Next(s, a))
  {
    ActiveDisjoint(s);
    if a.Show? { ShownOnce(s, a.c); }
  }

  lemma NoNewSnapshot(s: State, a: Action)
    requires Enabled(s, a) && !a.OfWorker() && !a.CopyJobs? && !a.Show? && |Next(s, a).clients| == |s.clients|
    ensures Next(s, a).snapshots == s.snapshots && !Next(s, a).clients[a.c].SnapCopied?
  {
    hide Keep, Discard, RingPush, State.Free;
    assert ClientEnabled(s, a);
  }

  lemma ClientKeepsSnapshots(s: State, a: Action)
    requires Snapshots(s) && Enabled(s, a) && s.stage.Keys <= Next(s, a).stage.Keys
    requires !a.OfWorker() && !a.CopyJobs? && !a.Show?
    ensures Snapshots(Next(s, a))
  {
    ClientShape(s, a);
    NoNewSnapshot(s, a);
    hide ClientNext, ClientEnabled, NoIdTwice, Members;
  }

  // ---------- the invariant ----------

  /** Without devices no job gets past parsing. */
  ghost predicate PoolUsable(s: State) {
    |s.busy| == 0 ==> s.tasks == {} && forall c :: 0 <= c < |s.clients| ==> BeforePush(s.clients[c])
  }

  predicate BeforePush(p: Client) { !p.Pending().Some? && !p.Pushed? }

  /** What holds in every reachable state, whether or not exceptions have struck. */
  ghost predicate Invariant(s: State) {
    && Exclusive(s)
    && Devices(s.busy, s.workers)
    && Requests.Balanced(Requests.LedgerOf(s))
    && Jobs.Partitioned(Jobs.BookOf(s)) && Jobs.IdsUnique(Jobs.BookOf(s))
    && Covered(s)
    && Snapshots(s)
    && PoolUsable(s)
    && |s.completed| <= RING_CAPACITY
  }

  lemma KeepsPoolUsable(s: State, a: Action)
    requires PoolUsable(s) && |s.workers| == |s.busy| && |s.completed| <= RING_CAPACITY && Enabled(s, a)
    ensures PoolUsable(Next(s, a)) && |Next(s, a).completed| <= RING_CAPACITY
  {
    if a.OfWorker() {
      WorkerShape(s, a);
      WorkerKeepsPool(s, a);
      hide WorkerNext;
    } else {
      ClientShape(s, a);
      if |s.busy| == 0 { ClientKeepsPool(s, a); }
      hide ClientNext;
    }
  }

  lemma WorkerKeepsPool(s: State, a: Action)
    requires Enabled(s, a) && a.OfWorker() && |s.workers| == |s.busy| && |s.completed| <= RING_CAPACITY
    ensures |s.busy| > 0 && |Next(s, a).busy| == |s.busy| && |Next(s, a).completed| <= RING_CAPACITY
  {
    hide Keep, Discard, State.Free, IsTop;
    assert WorkerEnabled(s, a);
  }

  /** Without devices no request gets past parsing. */
  lemma ClientKeepsPool(s: State, a: Action)
    requires Enabled(s, a) && !a.OfWorker() && PoolUsable(s) && |s.busy| == 0 && |Next(s, a).clients| == |s.clients|
    ensures Next(s, a).tasks == {}
    ensures BeforePush(Next(s, a).clients[a.c])
  {
    hide Keep, Discard, RingPush, State.Free;
    assert ClientEnabled(s, a);
    assert BeforePush(s.clients[a.c]);
  }

  lemma KeepsInvariant(s: State, a: Action)
    requires Invariant(s) && Enabled(s, a)
    ensures Invariant(Next(s, a))
  {
    KeepsExclusive(s, a);
    KeepsDevices(s, a);
    Requests.KeepsBalance(s, a);
    Jobs.KeepsPartition(s, a);
    KeepsCovered(s, a);
    if a.OfWorker() {
      WorkerKeepsSnapshots(s, a);
    } else if a.CopyJobs? || a.Show? {
      ReadingKeepsSnapshots(s, a);
    } else {
      ClientKeepsSnapshots(s, a);
    }
    KeepsPoolUsable(s, a);
  }

  lemma InitialInvariant(devices: nat, requestThreads: nat, limit: nat)
    ensures Invariant(Initial(devices, requestThreads, limit))
    ensures Leaked(Initial(devices, requestThreads, limit).busy, Initial(devices, requestThreads, limit).workers) == {}
  {
    var s := Initial(devices, requestThreads, limit);
    forall h | 0 <= h <= devices
      ensures AtOrPast(s.workers, h) == {}
    {
    }
    assert forall t, m :: s.IsThread(t) ==> !s.Holds(t, m);
  }

  // ---------- whole runs ----------

  /** The devices that exceptions leak in the course of a run. */
  ghost function LeakedBy(s: State, acts: seq<Action>): set<int>
    requires Legal(s, acts)
    decreases |acts|
  {
    if acts == [] then {} else Leaks(s, acts[0]) + LeakedBy(Next(s, acts[0]), acts[1..])
  }

  ghost function LeakedNow(s: State): set<int> { Leaked(s.busy, s.workers) }

  /** In every run, whatever the interleaving and the exceptions: the invariant holds, and the devices
      leaked are exactly those that exceptions took from their threads. */
  lemma {:induction false} RunsKeepInvariant(s: State, acts: seq<Action>)
    requires Invariant(s) && Legal(s, acts)
    ensures Invariant(Exec(s, acts)) && LeakedNow(Exec(s, acts)) == LeakedNow(s) + LeakedBy(s, acts)
    decreases |acts|
  {
    hide Invariant, Next, Enabled, Leaked, Leaks;
    if acts != [] {
      KeepsInvariant(s, acts[0]);
      StepLeaks(s, acts[0]);
      RunsKeepInvariant(Next(s, acts[0]), acts[1..]);
    }
  }

  lemma StepLeaks(s: State, a: Action)
    requires Invariant(s) && Enabled(s, a)
    ensures LeakedNow(Next(s, a)) == LeakedNow(s) + Leaks(s, a)
  {
    KeepsDevices(s, a);
  }

  /** "No available devices" cannot be thrown while no device is leaked. */
  lemma NeverRunsOff(s: State, a: Action)
    requires Devices(s.busy, s.workers) && Leaked(s.busy, s.workers) == {} && Enabled(s, a)
    ensures !a.RunOff?
  {
    if a.RunOff? {
      assert WorkerEnabled(s, a);
      ScansStayInside(s.busy, s.workers, a.w);
    }
  }

  lemma StepStaysInside(s: State, a: Action)
    requires Invariant(s) && LeakedNow(s) == {} && Enabled(s, a)
    ensures !a.RunOff?
  {
    NeverRunsOff(s, a);
  }

  /** Safety over whole runs: as long as no exception strikes a thread that has a device, no scan runs
      off the end of the list. */
  lemma {:induction false} RunsAreSafe(s: State, acts: seq<Action>)
    requires Invariant(s) && LeakedNow(s) == {} && Legal(s, acts) && LeakedBy(s, acts) == {}
    ensures Invariant(Exec(s, acts)) && LeakedNow(Exec(s, acts)) == {}
    ensures forall k :: 0 <= k < |acts| ==> !acts[k].RunOff?
    decreases |acts|
  {
    hide Invariant, Next, Enabled, LeakedNow, Leaks;
    if acts != [] {
      var a, rest := acts[0], acts[1..];
      StepStaysInside(s, a);
      KeepsInvariant(s, a);
      StepLeaks(s, a);
      RunsAreSafe(Next(s, a), rest);
      forall k | 0 <= k < |acts|
        ensures !acts[k].RunOff?
      {
        if k > 0 { assert acts[k] == rest[k - 1]; }
      }
    }
  }
}
