/** What exceptions in pool threads do to requests and jobs, exactly, in every run. */
module SchedulerExceptions {
  import opened Wrappers
  import opened JobQueue
  import opened Scheduler
  import opened SchedulerSafety
  import opened SchedulerRuns
  import opened SchedulerProgress
  import Requests = RequestLedger
  import Jobs = JobBook

  // ---------- where an exception can strike, and what it leaves ----------

  /** From the moment the device is acquired to the second of the last two locks. The thread's request is answered
      once more and its job is lost, while the device stays busy and the active set as it is. */
  lemma ThrowExactly(s: State, w: nat)
    requires w < |s.workers|
    ensures var p := s.workers[w];
      && (Enabled(s, Throw(w)) <==>
           p.Acquired? || p.Inserting? || p.Working? || p.Replied? || p.Released? || p.HalfLocked?)
      && (Enabled(s, Throw(w)) ==>
           var t := Next(s, Throw(w));
           && t.busy == s.busy && t.active == s.active && t.jobs == s.jobs && t.completed == s.completed
           && t.workers == s.workers[w := Idle] && t.stage == s.stage[p.job := Lost]
           && forall r :: t.answers[r] == s.answers[r] + if r == p.req then 1 else 0)
  {
    assert Enabled(s, Throw(w)) <==> WorkerEnabled(s, Throw(w));
  }

  // ---------- requests answered twice ----------

  ghost function TwiceIn(place: map<nat, Place>): set<nat> {
    set r | r in place && place[r] == AnsweredTwice
  }

  /** The request that an exception in this step answers a second time, if any. */
  ghost function LateOf(s: State, a: Action): set<nat>
    requires Enabled(s, a)
  {
    if a.Throw? && s.workers[a.w].HasReplied() then {s.workers[a.w].req} else {}
  }

  /** What a move does to places. */
  lemma PlacesMoved(l: Requests.Ledger, m: Requests.Move, r: nat)
    requires Requests.CanMove(l, m)
    ensures m.RepliesAgain? ==> Requests.Moved(l, m).place == l.place[l.workers[m.w].req := AnsweredTwice]
    ensures !m.RepliesAgain? && !(r in l.place && l.place[r] == AnsweredTwice) ==>
      !(r in Requests.Moved(l, m).place && Requests.Moved(l, m).place[r] == AnsweredTwice)
  {
  }

  /** What was answered twice stays so. */
  lemma TwiceStays(l: Requests.Ledger, m: Requests.Move, r: nat)
    requires Requests.Balanced(l) && Requests.CanMove(l, m) && r in l.place && l.place[r] == AnsweredTwice
    ensures r in Requests.Moved(l, m).place && Requests.Moved(l, m).place[r] == AnsweredTwice
  {
    assert Requests.PlaceHeld(l, r);
  }

  lemma MoveTwice(l: Requests.Ledger, m: Requests.Move)
    requires Requests.Balanced(l) && Requests.CanMove(l, m)
    ensures TwiceIn(Requests.Moved(l, m).place)
      == TwiceIn(l.place) + if m.RepliesAgain? then {l.workers[m.w].req} else {}
  {
    hide Requests.Balanced, Requests.Moved;
    var l' := Requests.Moved(l, m);
    var more := if m.RepliesAgain? then {l.workers[m.w].req} else {};
    forall r: nat
      ensures r in TwiceIn(l'.place) <==> r in TwiceIn(l.place) + more
    {
      PlacesMoved(l, m, r);
      if r in TwiceIn(l.place) { TwiceStays(l, m, r); }
    }
  }

  lemma StepTwice(s: State, a: Action)
    requires Invariant(s) && Enabled(s, a)
    ensures TwiceIn(Next(s, a).place) == TwiceIn(s.place) + LateOf(s, a)
  {
    var l, m := Requests.LedgerOf(s), Requests.MoveOf(s, a);
    Requests.StepIsMove(s, a);
    MoveTwice(l, m);
    LateIsMove(s, a);
    assert l.place == s.place && Requests.LedgerOf(Next(s, a)).place == Next(s, a).place;
  }

  lemma LateIsMove(s: State, a: Action)
    requires Enabled(s, a) && Requests.CanMove(Requests.LedgerOf(s), Requests.MoveOf(s, a))
    ensures var m := Requests.MoveOf(s, a);
      LateOf(s, a) == if m.RepliesAgain? then {Requests.LedgerOf(s).workers[m.w].req} else {}
  {
    hide Next;
    if a.Throw? { assert Requests.LedgerOf(s).workers[a.w] == s.workers[a.w].Debt(); }
  }

  /** The requests whose pool thread throws after having replied, in the course of a run. */
  ghost function LateAnswers(s: State, acts: seq<Action>): set<nat>
    requires Legal(s, acts)
    decreases |acts|
  {
    if acts == [] then {} else LateOf(s, acts[0]) + LateAnswers(Next(s, acts[0]), acts[1..])
  }

  lemma {:induction false} RunTwice(s: State, acts: seq<Action>)
    requires Invariant(s) && Legal(s, acts)
    ensures TwiceIn(Exec(s, acts).place) == TwiceIn(s.place) + LateAnswers(s, acts)
    decreases |acts|
  {
    hide Invariant, Next, Enabled, TwiceIn, LateOf;
    if acts != [] {
      StepTwice(s, acts[0]);
      KeepsInvariant(s, acts[0]);
      RunTwice(Next(s, acts[0]), acts[1..]);
    }
  }

  lemma AnswersByPlace(s: State, r: nat)
    requires Invariant(s)
    ensures s.answers[r] == if r in s.place then Requests.Times(s.place[r]) else 0
  {
    var l := Requests.LedgerOf(s);
    assert l.answers == s.answers && l.place == s.place;
    if r !in l.place { assert r !in l.answers; }
  }

  /** In every run from the start, no request is answered more than twice, and twice exactly when its pool
      thread throws after the reply. */
  lemma AnsweredTwiceExactly(devices: nat, requestThreads: nat, limit: nat, acts: seq<Action>, r: nat)
    requires Legal(Initial(devices, requestThreads, limit), acts)
    ensures var s0 := Initial(devices, requestThreads, limit);
      Exec(s0, acts).answers[r] <= 2 && (Exec(s0, acts).answers[r] == 2 <==> r in LateAnswers(s0, acts))
  {
    var s0 := Initial(devices, requestThreads, limit);
    InitialInvariant(devices, requestThreads, limit);
    RunsKeepInvariant(s0, acts);
    RunTwice(s0, acts);
    AnswersByPlace(Exec(s0, acts), r);
    assert r in TwiceIn(Exec(s0, acts).place) <==> r in LateAnswers(s0, acts);
  }

  /** In a run from the start, every request is answered at most once if and only if nothing throws after
      a reply. */
  lemma AnsweredOnceExactly(devices: nat, requestThreads: nat, limit: nat, acts: seq<Action>)
    requires Legal(Initial(devices, requestThreads, limit), acts)
    ensures var s0 := Initial(devices, requestThreads, limit);
      (forall r: nat :: Exec(s0, acts).answers[r] <= 1) <==> LateAnswers(s0, acts) == {}
  {
    hide Legal, Exec, LateAnswers, Initial;
    var s0 := Initial(devices, requestThreads, limit);
    if LateAnswers(s0, acts) == {} {
      forall r: nat
        ensures Exec(s0, acts).answers[r] <= 1
      {
        AnsweredTwiceExactly(devices, requestThreads, limit, acts, r);
      }
    } else {
      var r :| r in LateAnswers(s0, acts);
      AnsweredTwiceExactly(devices, requestThreads, limit, acts, r);
      assert Exec(s0, acts).answers[r] > 1;
    }
  }

  // ---------- jobs lost ----------

  ghost function LostIn(stage: map<Job, Stage>): set<Job> {
    set j | j in stage && stage[j] == Lost
  }

  /** The job that an exception in this step loses, if any. */
  ghost function LostOf(s: State, a: Action): set<Job>
    requires Enabled(s, a)
  {
    if a.IsException() then {s.workers[a.w].job} else {}
  }

  lemma MoveLosesOne(b: Jobs.Book, m: Jobs.Move, j: Job)
    requires Jobs.Partitioned(b) && Jobs.IdsUnique(b) && Jobs.CanMove(b, m)
    ensures var lost := j in b.stage && b.stage[j] == Lost;
      j in Jobs.Moved(b, m).stage && Jobs.Moved(b, m).stage[j] == Lost <==>
        lost || (m.Lose? && b.held[m.w] == Some(j))
  {
    hide RingPush;
    if j in b.stage { assert Jobs.StageHeld(b, j); }
    if m.Enqueue? && j == b.pending[m.c].value { assert j !in b.stage; }
  }

  lemma MoveLoses(b: Jobs.Book, m: Jobs.Move)
    requires Jobs.Partitioned(b) && Jobs.IdsUnique(b) && Jobs.CanMove(b, m)
    ensures LostIn(Jobs.Moved(b, m).stage) == LostIn(b.stage) + if m.Lose? then {b.held[m.w].value} else {}
  {
    hide Jobs.Partitioned, Jobs.IdsUnique, Jobs.Moved;
    var more := if m.Lose? then {b.held[m.w].value} else {};
    forall j: Job
      ensures j in LostIn(Jobs.Moved(b, m).stage) <==> j in LostIn(b.stage) + more
    {
      MoveLosesOne(b, m, j);
    }
  }

  lemma StepLoses(s: State, a: Action)
    requires Invariant(s) && Enabled(s, a)
    ensures LostIn(Next(s, a).stage) == LostIn(s.stage) + LostOf(s, a)
  {
    var b, m := Jobs.BookOf(s), Jobs.MoveOf(s, a);
    Jobs.StepIsMove(s, a);
    MoveLoses(b, m);
    LossIsMove(s, a);
    assert b.stage == s.stage && Jobs.BookOf(Next(s, a)).stage == Next(s, a).stage;
  }

  lemma LossIsMove(s: State, a: Action)
    requires Enabled(s, a) && Jobs.CanMove(Jobs.BookOf(s), Jobs.MoveOf(s, a))
    ensures var m := Jobs.MoveOf(s, a);
      LostOf(s, a) == if m.Lose? then {Jobs.BookOf(s).held[m.w].value} else {}
  {
    hide Next;
    if a.IsException() { assert Jobs.BookOf(s).held[a.w] == s.workers[a.w].Job(); }
  }

  ghost function LostBy(s: State, acts: seq<Action>): set<Job>
    requires Legal(s, acts)
    decreases |acts|
  {
    if acts == [] then {} else LostOf(s, acts[0]) + LostBy(Next(s, acts[0]), acts[1..])
  }

  lemma {:induction false} RunLoses(s: State, acts: seq<Action>)
    requires Invariant(s) && Legal(s, acts)
    ensures LostIn(Exec(s, acts).stage) == LostIn(s.stage) + LostBy(s, acts)
    decreases |acts|
  {
    hide Invariant, Next, Enabled, LostIn, LostOf;
    if acts != [] {
      StepLoses(s, acts[0]);
      KeepsInvariant(s, acts[0]);
      RunLoses(Next(s, acts[0]), acts[1..]);
    }
  }

  // ---------- the whole story ----------

  /** A server that is left alone, whatever happened before and whatever throws: it stops within its
      backlog, and when it can go no further no job is queued or in progress. Every request was then
      answered, once unless its pool thread threw after the reply; every accepted job was completed or
      removed unless an exception struck its pool thread; and every device is free unless an exception
      took it from its thread. */
  lemma LeftAloneEverythingIsAnswered(devices: nat, requestThreads: nat, limit: nat,
      before: seq<Action>, after: seq<Action>)
    requires Legal(Initial(devices, requestThreads, limit), before)
    requires Legal(Exec(Initial(devices, requestThreads, limit), before), after) && Internal(after)
    ensures
      var s0 := Initial(devices, requestThreads, limit);
      var s := Exec(s0, before);
      var s' := Exec(s, after);
      && |after| <= Backlog(s)
      && (!CanProceed(s') ==>
           && s'.jobs == {}
           && (forall r: nat :: r < s'.nextReq ==>
                s'.answers[r] == if r in LateAnswers(s0, before) + LateAnswers(s, after) then 2 else 1)
           && (forall j :: j in s'.stage && j !in LostBy(s0, before) + LostBy(s, after) ==>
                s'.stage[j] == Completed || s'.stage[j] == Removed)
           && s'.active <= LostBy(s0, before) + LostBy(s, after)
           && (forall d :: 0 <= d < |s'.busy| ==> (s'.busy[d] <==> d in LeakedBy(s0, before) + LeakedBy(s, after))))
  {
    hide Initial, Invariant, CanProceed, AtRest, Backlog, Legal, Exec, LeakedBy, LostBy, LateAnswers, Leaked;
    var s0 := Initial(devices, requestThreads, limit);
    InitialInvariant(devices, requestThreads, limit);
    InitialClean(devices, requestThreads, limit);
    RunsKeepInvariant(s0, before);
    RunTwice(s0, before);
    RunLoses(s0, before);
    var s := Exec(s0, before);
    BacklogBoundsRuns(s, after);
    RunsKeepInvariant(s, after);
    RunTwice(s, after);
    RunLoses(s, after);
    var s' := Exec(s, after);
    if !CanProceed(s') {
      if !AtRest(s') { NoDeadlock(s'); }
      RestIsSettled(s');
      assert TwiceIn(s'.place) == LateAnswers(s0, before) + LateAnswers(s, after);
      assert LostIn(s'.stage) == LostBy(s0, before) + LostBy(s, after);
      assert LeakedNow(s') == LeakedBy(s0, before) + LeakedBy(s, after);
    }
  }

  lemma InitialClean(devices: nat, requestThreads: nat, limit: nat)
    ensures var s := Initial(devices, requestThreads, limit);
      TwiceIn(s.place) == {} && LostIn(s.stage) == {} && LeakedNow(s) == {}
  {
    InitialInvariant(devices, requestThreads, limit);
  }
}
