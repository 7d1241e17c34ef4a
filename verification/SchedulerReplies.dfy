/** How many exceptions it takes for a request to be answered twice. */
module SchedulerReplies {
  import opened Wrappers
  import opened JobQueue
  import opened Scheduler
  import opened SchedulerSafety
  import opened SchedulerRuns
  import opened SchedulerExceptions
  import opened SchedulerLeak

  lemma ActiveStep(s: State, w: nat)
    requires Alone(s, w) && s.workers[w].Acquired? && s.clients[0].Resting?
    ensures Enabled(s, LockWorker(w))
    ensures var t := Next(s, LockWorker(w)); t.workers[w].Inserting? && t.clients == s.clients
  {
    NobodyHolds(s, w, ActiveMutex);
    hide Invariant, State.Free;
    assert WorkerEnabled(s, LockWorker(w));
  }

  lemma InsertStep(s: State, w: nat)
    requires Alone(s, w) && s.workers[w].Inserting?
    ensures Enabled(s, Insert(w))
    ensures var t := Next(s, Insert(w)); t.workers[w].Working? && t.clients == s.clients
  {
    hide Invariant;
    assert WorkerEnabled(s, Insert(w));
  }

  lemma ReplyStep(s: State, w: nat)
    requires Alone(s, w) && s.workers[w].Working?
    ensures Enabled(s, Reply(w))
    ensures var t := Next(s, Reply(w)); t.workers[w].Replied? && t.clients == s.clients
  {
    hide Invariant;
    assert WorkerEnabled(s, Reply(w));
  }

  lemma ThrowAfterReply(s: State, w: nat)
    requires w < |s.workers| && s.workers[w].Replied?
    ensures Enabled(s, Throw(w)) && s.workers[w].req in LateOf(s, Throw(w))
  {
  }

  /** One job is popped, takes device 0 and is answered. */
  lemma ReplyOne(devices: nat, requestThreads: nat, limit: nat) returns (s: State)
    requires devices > 0 && requestThreads > 0 && limit > 0
    ensures Reaches(Initial(devices, requestThreads, limit), s) && |s.workers| > 0 && s.workers[0].Replied?
  {
    hide Invariant, Next, Enabled, Reaches, LeakedNow;
    var s0 := Initial(devices, requestThreads, limit);
    InitialInvariant(devices, requestThreads, limit);
    var t := ToScanning(s0, 0);
    AloneBounds(t, 0);
    ProbeStep(t, 0);
    StaysAlone(t, 0, Probe(0));
    ReachesStep(t, Probe(0));
    s := Answering(Next(t, Probe(0)), 0);
    ReachesTransitive(s0, t, Next(t, Probe(0)));
    ReachesTransitive(s0, Next(t, Probe(0)), s);
  }

  lemma Answering(s: State, w: nat) returns (t: State)
    requires Alone(s, w) && w < |s.workers| && |s.clients| > 0
    requires s.workers[w].Acquired? && s.clients[0].Resting?
    ensures Reaches(s, t) && w < |t.workers| && t.workers[w].Replied?
  {
    hide Invariant, Alone, Next, Enabled, Reaches;
    ActiveStep(s, w);
    var s1 := Next(s, LockWorker(w));
    StaysAlone(s, w, LockWorker(w));
    AloneBounds(s1, w);
    InsertStep(s1, w);
    var s2 := Next(s1, Insert(w));
    StaysAlone(s1, w, Insert(w));
    AloneBounds(s2, w);
    ReplyStep(s2, w);
    t := Next(s2, Reply(w));
    StaysAlone(s2, w, Reply(w));
    AloneBounds(t, w);
    ReachesStep(s2, Reply(w));
    ReachesThen(s1, Insert(w), t);
    ReachesThen(s, LockWorker(w), t);
  }

  /** A run with one exception, which answers a request a second time. */
  lemma OneThrowAnswersTwice(devices: nat, requestThreads: nat, limit: nat) returns (acts: seq<Action>, r: nat)
    requires devices > 0 && requestThreads > 0 && limit > 0
    ensures Legal(Initial(devices, requestThreads, limit), acts) && Throws(acts) == 1
    ensures r in LateAnswers(Initial(devices, requestThreads, limit), acts)
  {
    hide Invariant, Next, Enabled, TwiceIn, LateOf;
    var s0 := Initial(devices, requestThreads, limit);
    var s := ReplyOne(devices, requestThreads, limit);
    var a := RunTo(s0, s);
    ThrowAfterReply(s, 0);
    OneStep(s, Throw(0));
    LegalConcat(s0, a, [Throw(0)]);
    acts, r := a + [Throw(0)], s.workers[0].req;
    ThrowsConcat(a, [Throw(0)]);
    assert [Throw(0)][1..] == [];
    InitialInvariant(devices, requestThreads, limit);
    InitialClean(devices, requestThreads, limit);
    RunsKeepInvariant(s0, a);
    StepTwice(s, Throw(0));
    RunTwice(s0, acts);
  }

  /** Every request is answered at most once in all runs with up to `k` exceptions. */
  ghost predicate OnceUpTo(s: State, k: nat) {
    forall acts :: Legal(s, acts) && Throws(acts) <= k ==> forall r: nat :: Exec(s, acts).answers[r] <= 1
  }

  lemma {:induction false} NothingLate(s: State, acts: seq<Action>)
    requires Legal(s, acts) && NothingThrows(acts)
    ensures LateAnswers(s, acts) == {}
    decreases |acts|
  {
    hide Enabled, Next;
    if acts != [] { NothingLate(Next(s, acts[0]), acts[1..]); }
  }

  lemma {:induction false} JoblessNothingLate(s: State, acts: seq<Action>)
    requires Jobless(s) && Legal(s, acts) && (|s.clients| == 0 || s.limit == 0)
    ensures LateAnswers(s, acts) == {}
    decreases |acts|
  {
    hide Enabled, Next, Jobless, Leaks;
    if acts != [] {
      if acts[0].OfWorker() {
        WorkerShape(s, acts[0]);
        JoblessNotLate(s, acts[0]);
        JoblessWorkerStep(s, acts[0]);
      } else {
        ClientShape(s, acts[0]);
        JoblessClientStep(s, acts[0]);
      }
      JoblessNothingLate(Next(s, acts[0]), acts[1..]);
    }
  }

  lemma JoblessNotLate(s: State, a: Action)
    requires Jobless(s) && Enabled(s, a) && a.OfWorker()
    ensures LateOf(s, a) == {}
  {
    assert WorkerEnabled(s, a);
    assert s.workers[a.w].Job() == None;
  }

  lemma {:induction false} NoPoolNothingLate(s: State, acts: seq<Action>)
    requires |s.workers| == 0 && Legal(s, acts)
    ensures LateAnswers(s, acts) == {}
    decreases |acts|
  {
    hide Next, ClientEnabled;
    if acts != [] {
      ClientShape(s, acts[0]);
      NoPoolNothingLate(Next(s, acts[0]), acts[1..]);
    }
  }

  /** For any number of devices, request threads and places in the queue: every request is answered at most
      once in all runs with up to `k` exceptions if and only if `k` is zero, or one of the three is and no
      job is ever worked on. */
  lemma RepliesExactly(devices: nat, requestThreads: nat, limit: nat, k: nat)
    ensures OnceUpTo(Initial(devices, requestThreads, limit), k) <==>
      k == 0 || devices == 0 || requestThreads == 0 || limit == 0
  {
    hide Legal, Exec, LateAnswers;
    var s := Initial(devices, requestThreads, limit);
    if k == 0 || devices == 0 || requestThreads == 0 || limit == 0 {
      forall acts | Legal(s, acts) && Throws(acts) <= k
        ensures forall r: nat :: Exec(s, acts).answers[r] <= 1
      {
        if k == 0 {
          NoThrows(acts);
          NothingLate(s, acts);
        } else if devices == 0 {
          NoPoolNothingLate(s, acts);
        } else {
          JoblessNothingLate(s, acts);
        }
        AnsweredOnceExactly(devices, requestThreads, limit, acts);
      }
    } else {
      var acts, r := OneThrowAnswersTwice(devices, requestThreads, limit);
      AnsweredOnceExactly(devices, requestThreads, limit, acts);
      assert Throws(acts) <= k;
    }
  }
}
