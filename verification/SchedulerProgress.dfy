/** Deadlock freedom, termination of the backlog, and what is left at rest. */
module SchedulerProgress {
  import opened Wrappers
  import opened JobQueue
  import opened Scheduler
  import opened SchedulerSafety
  import opened SchedulerRuns
  import Requests = RequestLedger
  import Jobs = JobBook

  ghost predicate ThreadAtRest(s: State, t: Thread)
    requires s.IsThread(t)
  {
    match t
    case PoolThread(w) => s.workers[w].Idle?
    case RequestThread(c) => s.clients[c].Resting?
  }

  ghost predicate AtRest(s: State) {
    s.tasks == {} && forall t :: s.IsThread(t) ==> ThreadAtRest(s, t)
  }

  /** Some thread can go on by itself: no new request and no exception from outside is needed. */
  ghost predicate CanProceed(s: State) {
    exists a :: Enabled(s, a) && !a.IsArrival() && !a.Throw?
  }

  // ---------- the mutexes are taken in one order ----------

  function Rank(m: Mutex): nat {
    match m
    case JobsMutex => 0
    case ActiveMutex => 1
    case CompletedMutex => 2
  }

  lemma LockOrder(s: State, t: Thread, held: Mutex)
    requires s.IsThread(t) && s.Holds(t, held)
    ensures !ThreadAtRest(s, t)
    ensures s.Wants(t).Some? ==> Rank(held) < Rank(s.Wants(t).value)
  {
  }

  lemma Proceeds(s: State, a: Action)
    requires Enabled(s, a) && !a.IsArrival() && !a.Throw?
    ensures CanProceed(s)
  {
    hide Enabled;
  }

  lemma PopperProceeds(s: State, w: nat)
    requires w < |s.workers| && s.workers[w].Popping?
    ensures CanProceed(s)
  {
    var a := if s.jobs == {} then FindEmpty(w) else Pop(w, Top(s.jobs));
    assert WorkerEnabled(s, a);
    assert Enabled(s, a);
  }

  lemma WaitsForNothing(p: Worker)
    requires p.Wants() == None
    ensures p.Idle? || p.Popping? || p.Scanning? || p.Inserting? || p.Working? || p.Replied? || p.Retiring?
  {
  }

  lemma WorkerProceeds(s: State, w: nat)
    requires w < |s.workers| && !s.workers[w].Idle? && s.workers[w].Wants() == None
    ensures CanProceed(s)
  {
    hide IsTop, State.Free, CanProceed, Worker.Wants;
    var p := s.workers[w];
    WaitsForNothing(p);
    if p.Popping? {
      PopperProceeds(s, w);
    } else if p.Scanning? {
      Proceeds(s, if p.index < |s.busy| then Probe(w) else RunOff(w));
    } else if p.Inserting? {
      Proceeds(s, Insert(w));
    } else if p.Working? {
      Proceeds(s, Reply(w));
    } else if p.Replied? {
      Proceeds(s, Release(w));
    } else {
      Proceeds(s, Retire(w));
    }
  }

  lemma ClientProceeds(s: State, c: nat)
    requires c < |s.clients| && !s.clients[c].Resting? && s.clients[c].Wants() == None
    ensures CanProceed(s)
  {
    var p := s.clients[c];
    var a :=
      match p
      case Parsing(_) => Reject(c, false)
      case Pushing(_, _) => Push(c)
      case Pushed(_) => Post(c)
      case Refused(_) => Refuse(c)
      case Cancelling(_) => Cancel(c)
      case Clearing => Clear(c)
      case SnapAll => CopyJobs(c)
      case _ => Show(c);
    assert ClientEnabled(s, a);
    assert Enabled(s, a);
  }

  /** Follow the holder of the wanted mutex, at most once per mutex, to a thread that can move. */
  lemma {:induction false} ThreadLeadsOn(s: State, t: Thread)
    requires Invariant(s) && s.IsThread(t) && !ThreadAtRest(s, t)
    ensures CanProceed(s)
    decreases 3 - if s.Wants(t).Some? then Rank(s.Wants(t).value) else 3
  {
    match s.Wants(t) {
      case None =>
        match t {
          case PoolThread(w) => WorkerProceeds(s, w);
          case RequestThread(c) => ClientProceeds(s, c);
        }
      case Some(m) =>
        if s.Free(m) {
          var a := match t case PoolThread(w) => LockWorker(w) case RequestThread(c) => LockClient(c);
          assert Enabled(s, a);
        } else {
          var u :| s.IsThread(u) && s.Holds(u, m);
          LockOrder(s, u, m);
          ThreadLeadsOn(s, u);
        }
    }
  }

  /** No state satisfying the invariant is deadlocked: while a thread is busy or a task waits,
      some thread can take a step without any new request arriving. */
  lemma NoDeadlock(s: State)
    requires Invariant(s) && !AtRest(s)
    ensures CanProceed(s)
  {
    if t :| s.IsThread(t) && !ThreadAtRest(s, t) {
      ThreadLeadsOn(s, t);
    } else {
      var r :| r in s.tasks;
      assert ThreadAtRest(s, PoolThread(0));
      assert Enabled(s, Take(0, r));
    }
  }

  // ---------- the backlog is worked off ----------

  function WorkerRank(p: Worker, n: nat): nat {
    match p
    case Idle => 0
    case WaitPop(_) => n + 10
    case Popping(_) => n + 9
    case Scanning(_, _, i) => if i <= n then n - i + 8 else 8
    case Acquired(_, _, _) => 7
    case Inserting(_, _, _) => 6
    case Working(_, _, _) => 5
    case Replied(_, _, _) => 4
    case Released(_, _) => 3
    case HalfLocked(_, _) => 2
    case Retiring(_, _) => 1
  }

  function ClientRank(p: Client, n: nat): nat {
    match p
    case Resting => 0
    case Parsing(_) => n + 15
    case WaitPush(_, _) => n + 14
    case Pushing(_, _) => n + 13
    case Pushed(_) => n + 12
    case Refused(_) => 1
    case WaitCancel(_) => 2
    case Cancelling(_) => 1
    case WaitClear => 2
    case Clearing => 1
    case SnapStart => 5
    case SnapJobs => 4
    case SnapActive => 3
    case SnapAll => 2
    case SnapCopied(_) => 1
  }

  function WorkersRank(workers: seq<Worker>, n: nat): nat {
    if workers == [] then 0 else WorkersRank(workers[..|workers| - 1], n) + WorkerRank(workers[|workers| - 1], n)
  }

  function ClientsRank(clients: seq<Client>, n: nat): nat {
    if clients == [] then 0 else ClientsRank(clients[..|clients| - 1], n) + ClientRank(clients[|clients| - 1], n)
  }

  function TasksRank(count: nat, n: nat): nat {
    if count == 0 then 0 else TasksRank(count - 1, n) + n + 11
  }

  /** An upper bound on the steps left if no request arrives. */
  ghost function Backlog(s: State): nat {
    WorkersRank(s.workers, |s.busy|) + ClientsRank(s.clients, |s.busy|) + TasksRank(|s.tasks|, |s.busy|)
  }

  lemma {:induction false} WorkersRankUpdated(workers: seq<Worker>, w: nat, p: Worker, n: nat)
    requires w < |workers|
    ensures WorkersRank(workers[w := p], n) == WorkersRank(workers, n) - WorkerRank(workers[w], n) + WorkerRank(p, n)
  {
    var last := |workers| - 1;
    if w == last {
      assert workers[w := p][..last] == workers[..last];
    } else {
      assert workers[w := p][..last] == workers[..last][w := p];
      WorkersRankUpdated(workers[..last], w, p, n);
    }
  }

  lemma {:induction false} ClientsRankUpdated(clients: seq<Client>, c: nat, p: Client, n: nat)
    requires c < |clients|
    ensures ClientsRank(clients[c := p], n) == ClientsRank(clients, n) - ClientRank(clients[c], n) + ClientRank(p, n)
  {
    var last := |clients| - 1;
    if c == last {
      assert clients[c := p][..last] == clients[..last];
    } else {
      assert clients[c := p][..last] == clients[..last][c := p];
      ClientsRankUpdated(clients[..last], c, p, n);
    }
  }

  lemma WorkerRankDrops(s: State, a: Action)
    requires Enabled(s, a) && a.OfWorker() && !a.Take?
    ensures WorkerRank(Next(s, a).workers[a.w], |s.busy|) < WorkerRank(s.workers[a.w], |s.busy|)
    ensures Next(s, a).workers == s.workers[a.w := Next(s, a).workers[a.w]]
    ensures Next(s, a).tasks == s.tasks && Next(s, a).clients == s.clients && |Next(s, a).busy| == |s.busy|
  {
    assert WorkerEnabled(s, a);
  }

  lemma WorkerShrinksBacklog(s: State, a: Action)
    requires Enabled(s, a) && a.OfWorker()
    ensures Backlog(Next(s, a)) < Backlog(s)
  {
    WorkersRankUpdated(s.workers, a.w, Next(s, a).workers[a.w], |s.busy|);
    if a.Take? {
      assert |s.tasks - {a.req}| == |s.tasks| - 1;
    } else {
      WorkerRankDrops(s, a);
    }
  }

  /** What a client's step does to its own rank and to that of the posted tasks. */
  ghost predicate RankDrops(s: State, a: Action)
    requires Enabled(s, a) && !a.OfWorker()
  {
    && Next(s, a).clients == s.clients[a.c := Next(s, a).clients[a.c]]
    && Next(s, a).workers == s.workers && |Next(s, a).busy| == |s.busy|
    && ClientRank(Next(s, a).clients[a.c], |s.busy|) + TasksRank(|Next(s, a).tasks|, |s.busy|)
      < ClientRank(s.clients[a.c], |s.busy|) + TasksRank(|s.tasks|, |s.busy|)
  }

  lemma LockRankDrops(s: State, a: Action)
    requires Enabled(s, a) && a.LockClient?
    ensures RankDrops(s, a)
  {
    hide TasksRank, Keep, Discard, State.Free;
  }

  lemma PushRankDrops(s: State, a: Action)
    requires Enabled(s, a) && a.Push?
    ensures RankDrops(s, a)
  {
    hide TasksRank, Keep, Discard, State.Free;
    assert ClientEnabled(s, a);
    var p, next := s.clients[a.c], Next(s, a);
    assert next.clients == s.clients[a.c := if |s.jobs| < s.limit then Pushed(p.req) else Refused(p.req)];
    assert next.tasks == s.tasks && next.workers == s.workers && next.busy == s.busy;
  }

  lemma ParseRankDrops(s: State, a: Action)
    requires Enabled(s, a) && a.Parse?
    ensures RankDrops(s, a)
  {
    hide TasksRank, Keep, Discard, State.Free;
    assert ClientEnabled(s, a);
  }

  lemma RefuseRankDrops(s: State, a: Action)
    requires Enabled(s, a) && (a.Reject? || a.Refuse?)
    ensures RankDrops(s, a)
  {
    hide TasksRank, Keep, Discard, State.Free;
    assert ClientEnabled(s, a);
  }

  lemma PostRankDrops(s: State, a: Action)
    requires Enabled(s, a) && a.Post? && s.clients[a.c].req !in s.tasks
    ensures RankDrops(s, a)
  {
    hide Keep, Discard, State.Free;
    assert ClientEnabled(s, a);
    assert Next(s, a).tasks == s.tasks + {s.clients[a.c].req};
  }

  lemma ErasingRankDrops(s: State, a: Action)
    requires Enabled(s, a) && (a.Cancel? || a.Clear?)
    ensures RankDrops(s, a)
  {
    hide TasksRank, Keep, Discard, State.Free;
    assert ClientEnabled(s, a);
  }

  lemma ReadingRankDrops(s: State, a: Action)
    requires Enabled(s, a) && (a.CopyJobs? || a.Show?)
    ensures RankDrops(s, a)
  {
    hide TasksRank, Keep, Discard, State.Free;
    assert ClientEnabled(s, a);
  }

  lemma ClientRankDrops(s: State, a: Action)
    requires Enabled(s, a) && !a.OfWorker() && !a.IsArrival() && Requests.Balanced(Requests.LedgerOf(s))
    ensures RankDrops(s, a)
  {
    hide ClientNext, RankDrops;
    if a.LockClient? {
      LockRankDrops(s, a);
    } else if a.Post? {
      PostedOnce(s, a.c);
      PostRankDrops(s, a);
    } else if a.Parse? {
      ParseRankDrops(s, a);
    } else if a.Push? {
      PushRankDrops(s, a);
    } else if a.Reject? || a.Refuse? {
      RefuseRankDrops(s, a);
    } else if a.Cancel? || a.Clear? {
      ErasingRankDrops(s, a);
    } else {
      ReadingRankDrops(s, a);
    }
  }

  lemma StepShrinksBacklog(s: State, a: Action)
    requires Invariant(s) && Enabled(s, a) && !a.IsArrival()
    ensures Backlog(Next(s, a)) < Backlog(s)
  {
    if a.OfWorker() {
      WorkerShrinksBacklog(s, a);
    } else {
      ClientsRankUpdated(s.clients, a.c, Next(s, a).clients[a.c], |s.busy|);
      ClientRankDrops(s, a);
    }
  }

  /** No new request arrives. */
  ghost predicate Internal(acts: seq<Action>) {
    forall k :: 0 <= k < |acts| ==> !acts[k].IsArrival()
  }

  /** Left alone, the handler stops: no internal run is longer than the backlog, exceptions or not. */
  lemma {:induction false} BacklogBoundsRuns(s: State, acts: seq<Action>)
    requires Invariant(s) && Legal(s, acts) && Internal(acts)
    ensures Invariant(Exec(s, acts)) && |acts| + Backlog(Exec(s, acts)) <= Backlog(s)
    decreases |acts|
  {
    hide Invariant, Next, Enabled, Backlog;
    if acts != [] {
      StepShrinksBacklog(s, acts[0]);
      KeepsInvariant(s, acts[0]);
      BacklogBoundsRuns(Next(s, acts[0]), acts[1..]);
    }
  }

  // ---------- at rest ----------

  /** Every job is done with, and what is busy or active was left so by an exception. */
  ghost predicate Settled(s: State) {
    && s.jobs == {}
    && (forall j :: j in s.stage ==> s.stage[j] == Completed || s.stage[j] == Removed || s.stage[j] == Lost)
    && (forall j :: j in s.active ==> j in s.stage && s.stage[j] == Lost)
    && (forall d :: 0 <= d < |s.busy| ==> (s.busy[d] <==> d in LeakedNow(s)))
  }

  /** Every request was answered once, and those whose pool thread threw after the reply twice. */
  ghost predicate AllAnswered(s: State) {
    forall r: nat :: r < s.nextReq ==>
      r in s.place && s.answers[r] == if s.place[r] == AnsweredTwice then 2 else 1
  }

  lemma RestIsSettled(s: State)
    requires Invariant(s) && AtRest(s)
    ensures Settled(s) && AllAnswered(s)
  {
    forall w: nat | w < |s.workers|
      ensures s.workers[w].Idle?
    {
      assert ThreadAtRest(s, PoolThread(w));
    }
    forall c: nat | c < |s.clients|
      ensures s.clients[c].Resting?
    {
      assert ThreadAtRest(s, RequestThread(c));
    }
    assert Starters(s.workers) == {} && Posters(s.clients) == {};
    RestAnswersAll(s);
    RestSettlesAll(s);
  }

  lemma RestAnswersAll(s: State)
    requires Requests.Balanced(Requests.LedgerOf(s)) && s.tasks == {}
    requires forall w: nat :: w < |s.workers| ==> s.workers[w].Idle?
    requires forall c: nat :: c < |s.clients| ==> s.clients[c].Resting?
    ensures AllAnswered(s)
  {
    var l := Requests.LedgerOf(s);
    forall r: nat | r < s.nextReq
      ensures r in s.place && s.answers[r] == if s.place[r] == AnsweredTwice then 2 else 1
    {
      assert r in l.place && Requests.PlaceHeld(l, r);
    }
  }

  lemma RestSettlesAll(s: State)
    requires Jobs.Partitioned(Jobs.BookOf(s)) && s.jobs == {}
    requires forall w: nat :: w < |s.workers| ==> s.workers[w].Idle?
    ensures Settled(s)
  {
    var b := Jobs.BookOf(s);
    forall j | j in s.stage
      ensures s.stage[j] == Completed || s.stage[j] == Removed || s.stage[j] == Lost
    {
      assert Jobs.StageHeld(b, j);
    }
    forall j | j in s.active
      ensures j in s.stage && s.stage[j] == Lost
    {
      assert Jobs.ActiveHeld(b, j);
    }
    assert forall d :: !HeldBy(s.workers, d);
    assert forall d :: 0 <= d < |s.busy| ==> (s.busy[d] <==> LeakedAt(s.busy, s.workers, d));
  }
}
