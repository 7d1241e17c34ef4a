/** When the scan for a device can run off the end: exactly when an exception has leaked a device. */
module SchedulerLeak {
  import opened Wrappers
  import opened JobQueue
  import opened Scheduler
  import opened SchedulerSafety
  import opened SchedulerRuns
  import opened SchedulerProgress

  // ---------- reaching a state without exceptions from outside ----------

  ghost predicate NothingThrows(acts: seq<Action>) {
    forall k :: 0 <= k < |acts| ==> !acts[k].Throw?
  }

  ghost predicate Reaches(s: State, t: State) {
    exists acts :: Legal(s, acts) && NothingThrows(acts) && Exec(s, acts) == t
  }

  lemma {:induction false} LegalConcat(s: State, a: seq<Action>, b: seq<Action>)
    requires Legal(s, a) && Legal(Exec(s, a), b)
    ensures Legal(s, a + b) && Exec(s, a + b) == Exec(Exec(s, a), b)
    decreases |a|
  {
    hide Enabled, Next;
    if a == [] {
      assert a + b == b;
    } else {
      LegalConcat(Next(s, a[0]), a[1..], b);
      assert (a + b)[1..] == a[1..] + b;
    }
  }

  lemma OneStep(s: State, a: Action)
    requires Enabled(s, a)
    ensures Legal(s, [a]) && Exec(s, [a]) == Next(s, a)
  {
    hide Enabled, Next;
    assert [a][1..] == [];
    assert Legal(Next(s, a), []) && Exec(Next(s, a), []) == Next(s, a);
  }

  lemma ReachesStep(s: State, a: Action)
    requires Enabled(s, a) && !a.Throw?
    ensures Reaches(s, Next(s, a))
  {
    OneStep(s, a);
    assert NothingThrows([a]);
  }

  lemma ReachesSelf(s: State)
    ensures Reaches(s, s)
  {
    assert Legal(s, []) && NothingThrows([]) && Exec(s, []) == s;
  }

  lemma ReachesTransitive(s: State, t: State, u: State)
    requires Reaches(s, t) && Reaches(t, u)
    ensures Reaches(s, u)
  {
    var a :| Legal(s, a) && NothingThrows(a) && Exec(s, a) == t;
    var b :| Legal(t, b) && NothingThrows(b) && Exec(t, b) == u;
    LegalConcat(s, a, b);
    assert NothingThrows(a + b);
  }

  lemma ReachesThen(s: State, a: Action, u: State)
    requires Enabled(s, a) && !a.Throw? && Reaches(Next(s, a), u)
    ensures Reaches(s, u)
  {
    ReachesStep(s, a);
    ReachesTransitive(s, Next(s, a), u);
  }

  /** "No available devices" can be thrown without any exception from now on. */
  ghost predicate CanRunOff(s: State) {
    exists t, w :: Reaches(s, t) && Enabled(t, RunOff(w))
  }

  lemma RunOffLater(s: State, t: State)
    requires Reaches(s, t) && CanRunOff(t)
    ensures CanRunOff(s)
  {
    var u, w :| Reaches(t, u) && Enabled(u, RunOff(w));
    ReachesTransitive(s, t, u);
  }

  lemma {:induction false} NothingLeaks(s: State, acts: seq<Action>)
    requires Legal(s, acts) && NothingThrows(acts)
    ensures LeakedBy(s, acts) == {}
    decreases |acts|
  {
    hide Enabled, Next;
    if acts != [] { NothingLeaks(Next(s, acts[0]), acts[1..]); }
  }

  /** Without a leak, and without exceptions from now on, no scan runs off. */
  lemma SafeWithoutLeak(s: State)
    requires Invariant(s) && LeakedNow(s) == {}
    ensures !CanRunOff(s)
  {
    forall t, w | Reaches(s, t)
      ensures !Enabled(t, RunOff(w))
    {
      var acts :| Legal(s, acts) && NothingThrows(acts) && Exec(s, acts) == t;
      NothingLeaks(s, acts);
      RunsAreSafe(s, acts);
      if Enabled(t, RunOff(w)) { NeverRunsOff(t, RunOff(w)); }
    }
  }

  // ---------- one job is submitted and taken by one pool thread, step by step ----------

  predicate Parks(p: Worker) { p.Idle? || p.Acquired? }

  /** Only request thread 0 and pool thread `w` are under way; the others rest, or hold a device
      just acquired. */
  ghost predicate Alone(s: State, w: nat) {
    && Invariant(s) && |s.clients| > 0 && s.limit > 0 && w < |s.workers|
    && (forall c :: 0 < c < |s.clients| ==> s.clients[c].Resting?)
    && (forall v :: 0 <= v < |s.workers| && v != w ==> Parks(s.workers[v]))
  }

  ghost predicate Mine(a: Action, w: nat) {
    if a.OfWorker() then a.w == w else a.c == 0
  }

  lemma StaysAlone(s: State, w: nat, a: Action)
    requires Alone(s, w) && Enabled(s, a) && Mine(a, w)
    ensures Alone(Next(s, a), w) && |Next(s, a).busy| == |s.busy|
    ensures LeakedNow(Next(s, a)) == LeakedNow(s) + Leaks(s, a)
  {
    hide Invariant, Next, Enabled, Leaked, Leaks;
    KeepsInvariant(s, a);
    StepLeaks(s, a);
    if a.OfWorker() { WorkerShape(s, a); } else { ClientShape(s, a); }
  }

  lemma NobodyHolds(s: State, w: nat, m: Mutex)
    requires Alone(s, w) && !s.workers[w].Holds(m) && !s.clients[0].Holds(m)
    ensures s.Free(m)
  {
    hide Invariant;
    forall t | s.IsThread(t)
      ensures !s.Holds(t, m)
    {
      match t {
        case PoolThread(v) => if v != w { assert Parks(s.workers[v]); }
        case RequestThread(c) => if c > 0 { assert s.clients[c].Resting?; }
      }
    }
  }

  lemma BeginStep(s: State, w: nat)
    requires Alone(s, w) && s.clients[0].Resting?
    ensures Enabled(s, Begin(0))
    ensures var t := Next(s, Begin(0));
      t.clients[0].Parsing? && t.workers == s.workers && t.busy == s.busy && t.jobs == s.jobs && t.tasks == s.tasks
  {
    hide Invariant;
    assert ClientEnabled(s, Begin(0));
  }

  lemma ParseStep(s: State, w: nat)
    requires Alone(s, w) && s.clients[0].Parsing?
    ensures Enabled(s, Parse(0, 0, 0))
    ensures var t := Next(s, Parse(0, 0, 0));
      t.clients[0].WaitPush? && t.workers == s.workers && t.busy == s.busy && t.jobs == s.jobs && t.tasks == s.tasks
  {
    assert |s.workers| == |s.busy|;
    hide Invariant;
    assert ClientEnabled(s, Parse(0, 0, 0));
  }

  lemma PushLocked(s: State)
    requires |s.clients| > 0 && s.clients[0].WaitPush? && s.Free(JobsMutex)
    ensures Enabled(s, LockClient(0))
    ensures Next(s, LockClient(0)) == s.Client(0, Pushing(s.clients[0].req, s.clients[0].job))
  {
    hide State.Free;
    assert ClientEnabled(s, LockClient(0));
  }

  lemma LockStep(s: State, w: nat)
    requires Alone(s, w) && s.clients[0].WaitPush? && Parks(s.workers[w])
    ensures Enabled(s, LockClient(0))
    ensures var t := Next(s, LockClient(0));
      t.clients[0].Pushing? && t.workers == s.workers && t.busy == s.busy && t.jobs == s.jobs && t.tasks == s.tasks
  {
    AloneBounds(s, w);
    NobodyHolds(s, w, JobsMutex);
    hide Invariant, Alone, Parks, Enabled, Next, State.Free;
    PushLocked(s);
  }

  lemma PushStep(s: State, w: nat)
    requires Alone(s, w) && s.clients[0].Pushing? && s.jobs == {}
    ensures Enabled(s, Push(0))
    ensures var t := Next(s, Push(0));
      t.clients[0].Pushed? && t.workers == s.workers && t.busy == s.busy && |t.jobs| == 1 && t.tasks == s.tasks
  {
    hide Invariant;
    assert ClientEnabled(s, Push(0));
    assert {} + {s.clients[0].job} == {s.clients[0].job};
  }

  lemma PostStep(s: State, w: nat)
    requires Alone(s, w) && s.clients[0].Pushed? && s.tasks == {}
    ensures Enabled(s, Post(0))
    ensures var t := Next(s, Post(0));
      t.clients[0].Resting? && t.workers == s.workers && t.busy == s.busy && t.jobs == s.jobs && |t.tasks| == 1
  {
    hide Invariant;
    assert ClientEnabled(s, Post(0));
    assert {} + {s.clients[0].req} == {s.clients[0].req};
  }

  lemma TakeStep(s: State, w: nat, r: nat)
    requires Alone(s, w) && s.workers[w].Idle? && r in s.tasks && |s.tasks| == 1
    ensures Enabled(s, Take(w, r))
    ensures var t := Next(s, Take(w, r));
      t.workers[w].WaitPop? && t.clients == s.clients && t.busy == s.busy && t.jobs == s.jobs && t.tasks == {}
  {
    hide Invariant;
    assert WorkerEnabled(s, Take(w, r));
    assert |s.tasks - {r}| == 0;
  }

  lemma LockWorkerStep(s: State, w: nat)
    requires Alone(s, w) && s.workers[w].WaitPop? && s.clients[0].Resting?
    ensures Enabled(s, LockWorker(w))
    ensures var t := Next(s, LockWorker(w));
      t.workers[w].Popping? && t.clients == s.clients && t.busy == s.busy && t.jobs == s.jobs && t.tasks == s.tasks
  {
    NobodyHolds(s, w, JobsMutex);
    hide Invariant, State.Free;
    assert WorkerEnabled(s, LockWorker(w));
  }

  lemma PopStep(s: State, w: nat, j: Job)
    requires Alone(s, w) && s.workers[w].Popping? && j in s.jobs && |s.jobs| == 1
    ensures Enabled(s, Pop(w, j))
    ensures var t := Next(s, Pop(w, j));
      t.workers[w].Scanning? && t.workers[w].index == 0 && t.clients == s.clients && t.busy == s.busy
      && t.jobs == {} && t.tasks == s.tasks
  {
    hide Invariant;
    assert |s.jobs - {j}| == 0;
    assert forall x :: x in s.jobs ==> x == j;
    assert WorkerEnabled(s, Pop(w, j));
  }

  lemma ProbeStep(s: State, w: nat)
    requires Alone(s, w) && s.workers[w].Scanning? && s.workers[w].index < |s.busy|
    ensures Enabled(s, Probe(w))
    ensures var t, i := Next(s, Probe(w)), s.workers[w].index;
      && t.clients == s.clients && t.jobs == s.jobs && t.tasks == s.tasks && t.busy == s.busy[i := true]
      && (if s.busy[i] then t.workers[w].Scanning? && t.workers[w].index == i + 1 else t.workers[w].Acquired?)
  {
    hide Invariant;
    assert WorkerEnabled(s, Probe(w));
  }

  /** No job and no pool task anywhere, request thread 0 at rest. */
  ghost predicate Calm(s: State) {
    s.jobs == {} && s.tasks == {} && |s.clients| > 0 && s.clients[0].Resting?
  }

  /** A job is submitted and handed to an idle pool thread. */
  lemma ToScanning(s: State, w: nat) returns (t: State)
    requires Alone(s, w) && Calm(s) && s.workers[w].Idle?
    ensures Reaches(s, t) && Alone(t, w) && Calm(t) && t.workers[w].Scanning? && t.workers[w].index == 0
    ensures t.busy == s.busy && LeakedNow(t) == LeakedNow(s)
  {
    hide Invariant, Alone, Next, Enabled, Reaches, LeakedNow;
    AloneBounds(s, w);
    BeginStep(s, w);
    var s1 := Next(s, Begin(0));
    StaysAlone(s, w, Begin(0));
    AloneBounds(s1, w);
    ParseStep(s1, w);
    var s2 := Next(s1, Parse(0, 0, 0));
    StaysAlone(s1, w, Parse(0, 0, 0));
    AloneBounds(s2, w);
    LockStep(s2, w);
    var s3 := Next(s2, LockClient(0));
    StaysAlone(s2, w, LockClient(0));
    AloneBounds(s3, w);
    PushStep(s3, w);
    var s4 := Next(s3, Push(0));
    StaysAlone(s3, w, Push(0));
    AloneBounds(s4, w);
    PostStep(s4, w);
    var s5 := Next(s4, Post(0));
    StaysAlone(s4, w, Post(0));
    AloneBounds(s5, w);
    t := ToScanningTaken(s5, w);
    ReachesThen(s4, Post(0), t);
    ReachesThen(s3, Push(0), t);
    ReachesThen(s2, LockClient(0), t);
    ReachesThen(s1, Parse(0, 0, 0), t);
    ReachesThen(s, Begin(0), t);
  }

  lemma AloneBounds(s: State, w: nat)
    requires Alone(s, w)
    ensures |s.clients| > 0 && w < |s.workers|
  {
  }

  lemma ToScanningTaken(s: State, w: nat) returns (t: State)
    requires Alone(s, w) && w < |s.workers| && |s.clients| > 0
    requires s.clients[0].Resting? && s.workers[w].Idle? && |s.jobs| == 1 && |s.tasks| == 1
    ensures Reaches(s, t) && Alone(t, w) && Calm(t) && w < |t.workers|
    ensures t.workers[w].Scanning? && t.workers[w].index == 0
    ensures t.busy == s.busy && LeakedNow(t) == LeakedNow(s)
  {
    hide Invariant, Alone, Next, Enabled, Reaches, LeakedNow;
    var r :| r in s.tasks;
    TakeStep(s, w, r);
    var s1 := Next(s, Take(w, r));
    StaysAlone(s, w, Take(w, r));
    AloneBounds(s1, w);
    LockWorkerStep(s1, w);
    var s2 := Next(s1, LockWorker(w));
    StaysAlone(s1, w, LockWorker(w));
    AloneBounds(s2, w);
    var j :| j in s2.jobs;
    PopStep(s2, w, j);
    t := Next(s2, Pop(w, j));
    StaysAlone(s2, w, Pop(w, j));
    AloneBounds(t, w);
    ReachesStep(s2, Pop(w, j));
    ReachesThen(s1, LockWorker(w), t);
    ReachesThen(s, Take(w, r), t);
  }

  // ---------- a leaked device, and a scan that runs off ----------

  ghost function FreeDevices(busy: seq<bool>): set<int> {
    set d | 0 <= d < |busy| && !busy[d]
  }

  /** Nothing to do anywhere; every pool thread is idle or has just acquired a device. */
  ghost predicate Parked(s: State) {
    && Invariant(s) && Calm(s) && s.limit > 0
    && (forall c :: 0 <= c < |s.clients| ==> s.clients[c].Resting?)
    && (forall w :: 0 <= w < |s.workers| ==> Parks(s.workers[w]))
  }

  ghost function Positions(workers: seq<Worker>): set<int> {
    set w | 0 <= w < |workers| :: workers[w].Position()
  }

  lemma {:induction false} DistinctPositions(workers: seq<Worker>)
    requires forall v, w :: 0 <= v < w < |workers| ==> workers[v].Position() != workers[w].Position()
    ensures |Positions(workers)| == |workers|
  {
    if workers != [] {
      var front, last := workers[..|workers| - 1], workers[|workers| - 1];
      DistinctPositions(front);
      assert forall w :: 0 <= w < |front| ==> front[w] == workers[w];
      assert Positions(workers) == Positions(front) + {last.Position()};
      assert last.Position() !in Positions(front);
    }
  }

  /** Fewer devices than pool threads are left to hold. */
  lemma IdleExists(busy: seq<bool>, workers: seq<Worker>) returns (w: nat)
    requires Devices(busy, workers) && Leaked(busy, workers) != {}
    requires forall w :: 0 <= w < |workers| ==> Parks(workers[w])
    ensures w < |workers| && workers[w].Idle?
  {
    if v: nat :| v < |workers| && workers[v].Idle? { return v; }
    var d :| d in Leaked(busy, workers);
    assert forall w :: 0 <= w < |workers| ==> Parks(workers[w]) && workers[w].HasDevice() && Fits(busy, workers[w]);
    DistinctPositions(workers);
    SubsetSize(Positions(workers), Below(|busy|) - {d});
    assert false;
  }

  /** The scan ends past the last device, or one more device is held and the next pool thread is sent. */
  lemma {:induction false} ScanRunsOff(s: State, w: nat)
    requires Alone(s, w) && Calm(s) && w < |s.workers| && s.workers[w].Scanning? && LeakedNow(s) != {}
    ensures CanRunOff(s)
    decreases |FreeDevices(s.busy)|, if s.workers[w].index < |s.busy| then |s.busy| - s.workers[w].index else 0
  {
    hide Invariant, Next, Enabled, Reaches, LeakedNow, CanRunOff;
    var i := s.workers[w].index;
    if i >= |s.busy| {
      RunOffStep(s, w);
    } else {
      ProbeStep(s, w);
      StaysAlone(s, w, Probe(w));
      ReachesStep(s, Probe(w));
      var t := Next(s, Probe(w));
      if s.busy[i] {
        assert t.busy == s.busy;
        ScanRunsOff(t, w);
      } else {
        assert FreeDevices(t.busy) == FreeDevices(s.busy) - {i};
        ParkedRunsOff(t);
      }
      RunOffLater(s, t);
    }
  }

  lemma RunOffStep(s: State, w: nat)
    requires w < |s.workers| && s.workers[w].Scanning? && s.workers[w].index >= |s.busy|
    ensures CanRunOff(s)
  {
    ReachesSelf(s);
    assert Enabled(s, RunOff(w));
  }

  lemma {:induction false} ParkedRunsOff(s: State)
    requires Parked(s) && LeakedNow(s) != {}
    ensures CanRunOff(s)
    decreases |FreeDevices(s.busy)|, |s.busy| + 1
  {
    var w := IdleExists(s.busy, s.workers);
    hide Invariant, Reaches, LeakedNow, CanRunOff;
    var t := ToScanning(s, w);
    AloneBounds(t, w);
    ScanRunsOff(t, w);
    RunOffLater(s, t);
  }

  /** What is under way comes to rest first. */
  lemma {:induction false} LeakRunsOff(s: State)
    requires Invariant(s) && |s.clients| > 0 && s.limit > 0 && LeakedNow(s) != {}
    ensures CanRunOff(s)
    decreases Backlog(s)
  {
    hide Invariant, Next, Enabled, Reaches, LeakedNow, CanRunOff, Backlog, AtRest, CanProceed;
    if AtRest(s) {
      RestIsParked(s);
      ParkedRunsOff(s);
    } else {
      NoDeadlock(s);
      var a := Proceeding(s);
      StepShrinksBacklog(s, a);
      KeepsInvariant(s, a);
      StepLeaks(s, a);
      if a.OfWorker() { WorkerShape(s, a); } else { ClientShape(s, a); }
      ReachesStep(s, a);
      LeakRunsOff(Next(s, a));
      RunOffLater(s, Next(s, a));
    }
  }

  lemma Proceeding(s: State) returns (a: Action)
    requires CanProceed(s)
    ensures Enabled(s, a) && !a.IsArrival() && !a.Throw?
  {
    hide Enabled;
    a :| Enabled(s, a) && !a.IsArrival() && !a.Throw?;
  }

  lemma RestIsParked(s: State)
    requires Invariant(s) && AtRest(s) && |s.clients| > 0 && s.limit > 0
    ensures Parked(s)
  {
    RestIsSettled(s);
    hide Invariant;
    forall w | 0 <= w < |s.workers|
      ensures s.workers[w].Idle?
    {
      assert ThreadAtRest(s, PoolThread(w));
    }
    forall c | 0 <= c < |s.clients|
      ensures s.clients[c].Resting?
    {
      assert ThreadAtRest(s, RequestThread(c));
    }
  }

  lemma StateRunsOffExactly(s: State)
    requires Invariant(s) && |s.clients| > 0 && s.limit > 0
    ensures CanRunOff(s) <==> LeakedNow(s) != {}
  {
    hide Invariant, CanRunOff, LeakedNow;
    if LeakedNow(s) == {} { SafeWithoutLeak(s); } else { LeakRunsOff(s); }
  }

  lemma {:induction false} SizesKept(s: State, acts: seq<Action>)
    requires Legal(s, acts)
    ensures |Exec(s, acts).clients| == |s.clients| && Exec(s, acts).limit == s.limit
    decreases |acts|
  {
    hide Enabled, Next;
    if acts != [] {
      if acts[0].OfWorker() { WorkerShape(s, acts[0]); } else { ClientShape(s, acts[0]); }
      SizesKept(Next(s, acts[0]), acts[1..]);
    }
  }

  /** Nothing is queued, and no pool thread has a job. */
  ghost predicate Jobless(s: State) {
    s.jobs == {} && forall w :: 0 <= w < |s.workers| ==> s.workers[w].Job() == None
  }

  lemma JoblessWorkerStep(s: State, a: Action)
    requires Jobless(s) && Enabled(s, a) && a.OfWorker()
    ensures Jobless(Next(s, a)) && Leaks(s, a) == {}
  {
    hide Discard, RingPush, State.Free;
    assert WorkerEnabled(s, a);
    assert s.workers[a.w].Job() == None;
  }

  lemma JoblessClientStep(s: State, a: Action)
    requires Jobless(s) && Enabled(s, a) && !a.OfWorker() && (|s.clients| == 0 || s.limit == 0)
    ensures Jobless(Next(s, a)) && Leaks(s, a) == {}
  {
    ClientShape(s, a);
    hide Discard, State.Free;
    assert ClientEnabled(s, a);
  }

  /** Without request threads, or without room in the queue, there is never a job to work on. */
  lemma {:induction false} JoblessLeaksNothing(s: State, acts: seq<Action>)
    requires Jobless(s) && Legal(s, acts) && (|s.clients| == 0 || s.limit == 0)
    ensures LeakedBy(s, acts) == {}
    decreases |acts|
  {
    hide Enabled, Next, Jobless, Leaks;
    if acts != [] {
      if acts[0].OfWorker() {
        WorkerShape(s, acts[0]);
        JoblessWorkerStep(s, acts[0]);
      } else {
        ClientShape(s, acts[0]);
        JoblessClientStep(s, acts[0]);
      }
      JoblessLeaksNothing(Next(s, acts[0]), acts[1..]);
    }
  }

  /** After any run, whatever threw in it: "no available devices" can come without a further exception if
      and only if an exception took a device from its thread. */
  lemma LeakExactly(devices: nat, requestThreads: nat, limit: nat, before: seq<Action>)
    requires Legal(Initial(devices, requestThreads, limit), before)
    ensures var s0 := Initial(devices, requestThreads, limit);
      CanRunOff(Exec(s0, before)) <==> LeakedBy(s0, before) != {}
  {
    hide Invariant, CanRunOff, Legal, Exec, LeakedBy, Leaked;
    var s0 := Initial(devices, requestThreads, limit);
    InitialInvariant(devices, requestThreads, limit);
    RunsKeepInvariant(s0, before);
    SizesKept(s0, before);
    if requestThreads == 0 || limit == 0 {
      JoblessLeaksNothing(s0, before);
      SafeWithoutLeak(Exec(s0, before));
    } else {
      StateRunsOffExactly(Exec(s0, before));
    }
  }

  // ---------- how many exceptions it takes ----------

  function Throws(acts: seq<Action>): nat
  {
    if acts == [] then 0 else (if acts[0].Throw? then 1 else 0) + Throws(acts[1..])
  }

  lemma {:induction false} ThrowsConcat(a: seq<Action>, b: seq<Action>)
    ensures Throws(a + b) == Throws(a) + Throws(b)
  {
    if a == [] {
      assert a + b == b;
    } else {
      ThrowsConcat(a[1..], b);
      assert (a + b)[1..] == a[1..] + b;
    }
  }

  lemma {:induction false} NoThrows(acts: seq<Action>)
    ensures Throws(acts) == 0 <==> NothingThrows(acts)
  {
    if acts != [] {
      NoThrows(acts[1..]);
      assert forall k :: 1 <= k < |acts| ==> acts[k] == acts[1..][k - 1];
      assert acts[0].Throw? ==> !NothingThrows(acts);
      assert NothingThrows(acts) ==> NothingThrows(acts[1..]);
    }
  }

  ghost predicate NeverOff(acts: seq<Action>) {
    forall k :: 0 <= k < |acts| ==> !acts[k].RunOff?
  }

  ghost predicate SafeUpTo(s: State, k: nat) {
    forall acts :: Legal(s, acts) && Throws(acts) <= k ==> NeverOff(acts)
  }

  lemma SafeUpToZero(devices: nat, requestThreads: nat, limit: nat)
    ensures SafeUpTo(Initial(devices, requestThreads, limit), 0)
  {
    hide Legal, Invariant;
    var s := Initial(devices, requestThreads, limit);
    forall acts | Legal(s, acts) && Throws(acts) <= 0
      ensures NeverOff(acts)
    {
      NoThrows(acts);
      NothingLeaks(s, acts);
      InitialInvariant(devices, requestThreads, limit);
      RunsAreSafe(s, acts);
    }
  }

  /** One job is popped and takes device 0; its thread throws. */
  lemma LeakOne(devices: nat, requestThreads: nat, limit: nat) returns (s: State)
    requires devices > 0 && requestThreads > 0 && limit > 0
    ensures Reaches(Initial(devices, requestThreads, limit), s) && Invariant(s) && |s.clients| > 0 && s.limit > 0
    ensures Enabled(s, Throw(0)) && LeakedNow(Next(s, Throw(0))) != {}
    ensures |Next(s, Throw(0)).clients| > 0 && Next(s, Throw(0)).limit > 0
  {
    hide Invariant, Next, Enabled, Reaches, LeakedNow;
    var s0 := Initial(devices, requestThreads, limit);
    InitialInvariant(devices, requestThreads, limit);
    var t := ToScanning(s0, 0);
    AloneBounds(t, 0);
    ProbeStep(t, 0);
    StaysAlone(t, 0, Probe(0));
    s := Next(t, Probe(0));
    AloneBounds(s, 0);
    ReachesStep(t, Probe(0));
    ReachesTransitive(s0, t, s);
    AcquiredCanThrow(s, 0);
    StepLeaks(s, Throw(0));
    WorkerShape(s, Throw(0));
  }

  lemma AcquiredCanThrow(s: State, w: nat)
    requires w < |s.workers| && s.workers[w].Acquired?
    ensures Enabled(s, Throw(w)) && Leaks(s, Throw(w)) != {}
  {
    assert s.workers[w].Position() in Leaks(s, Throw(w));
  }

  lemma OneThrowRunsOff(devices: nat, requestThreads: nat, limit: nat) returns (acts: seq<Action>)
    requires devices > 0 && requestThreads > 0 && limit > 0
    ensures Legal(Initial(devices, requestThreads, limit), acts) && Throws(acts) == 1 && !NeverOff(acts)
  {
    hide Invariant, Next, Enabled, LeakedNow;
    var s0 := Initial(devices, requestThreads, limit);
    var s := LeakOne(devices, requestThreads, limit);
    var a := RunTo(s0, s);
    OneStep(s, Throw(0));
    KeepsInvariant(s, Throw(0));
    var t := Next(s, Throw(0));
    LeakRunsOff(t);
    var u, w :| Reaches(t, u) && Enabled(u, RunOff(w));
    var b := RunTo(t, u);
    OneStep(u, RunOff(w));
    LegalConcat(t, b, [RunOff(w)]);
    LegalConcat(s, [Throw(0)], b + [RunOff(w)]);
    LegalConcat(s0, a, [Throw(0)] + (b + [RunOff(w)]));
    acts := a + ([Throw(0)] + (b + [RunOff(w)]));
    CountThrows(a, b, w);
    assert acts[|acts| - 1] == RunOff(w);
  }

  lemma CountThrows(a: seq<Action>, b: seq<Action>, w: nat)
    requires Throws(a) == 0 && Throws(b) == 0
    ensures Throws(a + ([Throw(0)] + (b + [RunOff(w)]))) == 1
  {
    ThrowsConcat(a, [Throw(0)] + (b + [RunOff(w)]));
    ThrowsConcat([Throw(0)], b + [RunOff(w)]);
    ThrowsConcat(b, [RunOff(w)]);
    assert [Throw(0)][1..] == [] && [RunOff(w)][1..] == [];
  }

  lemma RunTo(s: State, t: State) returns (acts: seq<Action>)
    requires Reaches(s, t)
    ensures Legal(s, acts) && Throws(acts) == 0 && Exec(s, acts) == t
  {
    acts :| Legal(s, acts) && NothingThrows(acts) && Exec(s, acts) == t;
    NoThrows(acts);
  }

  lemma {:induction false} NoPoolNoLeak(s: State, acts: seq<Action>)
    requires |s.workers| == 0 && Legal(s, acts)
    ensures LeakedBy(s, acts) == {}
    decreases |acts|
  {
    hide Next, ClientEnabled;
    if acts != [] {
      ClientShape(s, acts[0]);
      NoPoolNoLeak(Next(s, acts[0]), acts[1..]);
    }
  }

  lemma NeverOffWithoutWork(devices: nat, requestThreads: nat, limit: nat, acts: seq<Action>)
    requires devices == 0 || requestThreads == 0 || limit == 0
    requires Legal(Initial(devices, requestThreads, limit), acts)
    ensures NeverOff(acts)
  {
    hide Legal, Invariant;
    var s := Initial(devices, requestThreads, limit);
    InitialInvariant(devices, requestThreads, limit);
    if devices == 0 { NoPoolNoLeak(s, acts); } else { JoblessLeaksNothing(s, acts); }
    RunsAreSafe(s, acts);
  }

  /** For any number of devices, request threads and places in the queue: the scan finds a device in every
      run with up to `k` exceptions if and only if `k` is zero, or one of the three is and no job is ever
      worked on. */
  lemma ThrowsExactly(devices: nat, requestThreads: nat, limit: nat, k: nat)
    ensures SafeUpTo(Initial(devices, requestThreads, limit), k) <==>
      k == 0 || devices == 0 || requestThreads == 0 || limit == 0
  {
    hide Legal;
    var s := Initial(devices, requestThreads, limit);
    if k == 0 {
      SafeUpToZero(devices, requestThreads, limit);
    } else if devices == 0 || requestThreads == 0 || limit == 0 {
      forall acts | Legal(s, acts)
        ensures NeverOff(acts)
      {
        NeverOffWithoutWork(devices, requestThreads, limit, acts);
      }
    } else {
      var acts := OneThrowRunsOff(devices, requestThreads, limit);
      assert Throws(acts) <= k;
    }
  }
}
