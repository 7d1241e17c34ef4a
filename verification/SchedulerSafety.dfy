/** What every step of the work handler's protocol keeps. */
module SchedulerSafety {
  import opened Wrappers
  import opened JobQueue
  import opened Scheduler

  // ---------- mutual exclusion ----------

  ghost predicate Exclusive(s: State) {
    forall t, u, m :: s.IsThread(t) && s.IsThread(u) && s.Holds(t, m) && s.Holds(u, m) ==> t == u
  }

  function Actor(a: Action): Thread {
    if a.OfWorker() then PoolThread(a.w) else RequestThread(a.c)
  }

  /** A pool thread's step changes no other thread. */
  lemma WorkerShape(s: State, a: Action)
    requires Enabled(s, a) && a.OfWorker()
    ensures |Next(s, a).workers| == |s.workers| && Next(s, a).workers == s.workers[a.w := Next(s, a).workers[a.w]]
    ensures Next(s, a).clients == s.clients && |Next(s, a).busy| == |s.busy| && Next(s, a).limit == s.limit
  {
    hide Keep, Discard, RingPush, IsTop, State.Free;
    assert WorkerEnabled(s, a);
  }

  /** A request thread's step changes no other thread, nor the devices and finished jobs. */
  lemma ClientShape(s: State, a: Action)
    requires Enabled(s, a) && !a.OfWorker()
    ensures |Next(s, a).clients| == |s.clients| && Next(s, a).clients == s.clients[a.c := Next(s, a).clients[a.c]]
    ensures Next(s, a).workers == s.workers && Next(s, a).busy == s.busy
    ensures Next(s, a).active == s.active && Next(s, a).completed == s.completed && Next(s, a).limit == s.limit
  {
    hide Keep, Discard, RingPush, IsTop, State.Free;
    assert ClientEnabled(s, a);
  }

  lemma WorkerHeldAfter(s: State, a: Action, m: Mutex)
    requires Enabled(s, a) && a.OfWorker() && |Next(s, a).workers| == |s.workers|
    ensures Next(s, a).workers[a.w].Holds(m) ==> s.workers[a.w].Holds(m) || s.Free(m)
  {
    hide Keep, Discard, RingPush, IsTop, State.Free;
    assert WorkerEnabled(s, a);
  }

  lemma GrantedHolds(p: Client, m: Mutex)
    requires p.Wants().Some?
    ensures p.Granted().Holds(m) ==> p.Holds(m) || p.Wants() == Some(m)
  {
  }

  lemma UnlockedHolds(s: State, a: Action, m: Mutex)
    requires Enabled(s, a) && !a.OfWorker() && !a.LockClient? && !a.Push? && |Next(s, a).clients| == |s.clients|
    ensures Next(s, a).clients[a.c].Holds(m) ==> s.clients[a.c].Holds(m)
  {
    hide Keep, Discard, RingPush, IsTop, State.Free;
    assert ClientEnabled(s, a);
  }

  lemma PushedHolds(s: State, a: Action, m: Mutex)
    requires Enabled(s, a) && a.Push? && |Next(s, a).clients| == |s.clients|
    ensures !Next(s, a).clients[a.c].Holds(m)
  {
    hide Keep, Discard, State.Free;
    assert ClientEnabled(s, a);
    assert Next(s, a).clients[a.c].Pushed? || Next(s, a).clients[a.c].Refused?;
  }

  lemma ClientHeldAfter(s: State, a: Action, m: Mutex)
    requires Enabled(s, a) && !a.OfWorker() && |Next(s, a).clients| == |s.clients|
    ensures Next(s, a).clients[a.c].Holds(m) ==> s.clients[a.c].Holds(m) || s.Free(m)
  {
    if a.LockClient? {
      hide Client.Holds, Client.Granted, State.Free;
      assert ClientEnabled(s, a);
      GrantedHolds(s.clients[a.c], m);
    } else if a.Push? {
      hide ClientNext, Client.Holds, State.Free;
      PushedHolds(s, a, m);
    } else {
      hide ClientNext, Client.Holds, State.Free;
      UnlockedHolds(s, a, m);
    }
  }

  /** A step gives its thread at most a mutex that was free. */
  lemma HeldAfter(s: State, a: Action, m: Mutex)
    requires Enabled(s, a)
    ensures Next(s, a).IsThread(Actor(a))
    ensures Next(s, a).Holds(Actor(a), m) ==> s.Holds(Actor(a), m) || s.Free(m)
  {
    hide WorkerNext, ClientNext, Worker.Holds, Client.Holds, State.Free;
    if a.OfWorker() {
      WorkerShape(s, a);
      WorkerHeldAfter(s, a, m);
    } else {
      ClientShape(s, a);
      ClientHeldAfter(s, a, m);
    }
  }

  lemma OthersUnmoved(s: State, a: Action, t: Thread)
    requires Enabled(s, a) && t != Actor(a)
    ensures Next(s, a).IsThread(t) == s.IsThread(t)
    ensures s.IsThread(t) ==> forall m :: Next(s, a).Holds(t, m) == s.Holds(t, m)
  {
    hide WorkerNext, ClientNext, Worker.Holds, Client.Holds, WorkerEnabled, ClientEnabled;
    if a.OfWorker() { WorkerShape(s, a); } else { ClientShape(s, a); }
  }

  lemma KeepsExclusive(s: State, a: Action)
    requires Exclusive(s) && Enabled(s, a)
    ensures Exclusive(Next(s, a))
  {
    hide Next, WorkerEnabled, ClientEnabled, Worker.Holds, Client.Holds;
    var s', x := Next(s, a), Actor(a);
    forall t, u, m | s'.IsThread(t) && s'.IsThread(u) && s'.Holds(t, m) && s'.Holds(u, m)
      ensures t == u
    {
      HeldAfter(s, a, m);
      if t != x { OthersUnmoved(s, a, t); }
      if u != x { OthersUnmoved(s, a, u); }
    }
  }

  // ---------- devices ----------

  ghost function AtOrPast(workers: seq<Worker>, h: int): set<int> {
    set w | 0 <= w < |workers| && workers[w].Position() >= h
  }

  ghost predicate HeldBy(workers: seq<Worker>, d: int) {
    exists w :: 0 <= w < |workers| && workers[w].HasDevice() && workers[w].Position() == d
  }

  /** Busy, but no thread has it: an exception struck while it was held. */
  ghost predicate LeakedAt(busy: seq<bool>, workers: seq<Worker>, d: int) {
    0 <= d < |busy| && busy[d] && !HeldBy(workers, d)
  }

  ghost function LeakedBelow(busy: seq<bool>, workers: seq<Worker>, h: int): set<int> {
    set d | 0 <= d < h && LeakedAt(busy, workers, d)
  }

  ghost function Leaked(busy: seq<bool>, workers: seq<Worker>): set<int> {
    LeakedBelow(busy, workers, |busy|)
  }

  /** Within the list: a device held is busy. */
  ghost predicate Fits(busy: seq<bool>, p: Worker) {
    p.HasDevice() ==> 0 <= p.Position() < |busy| && busy[p.Position()]
  }

  /** As many pool threads as devices; a device held is busy, and held once; and at most n - h threads
      are at or past index h of the n devices, plus one for every device leaked before h. */
  ghost predicate Devices(busy: seq<bool>, workers: seq<Worker>) {
    && |workers| == |busy|
    && (forall w :: 0 <= w < |workers| ==> Fits(busy, workers[w]))
    && (forall v, w :: 0 <= v < w < |workers| && workers[v].HasDevice() && workers[w].HasDevice() ==>
         workers[v].Position() != workers[w].Position())
    && (forall h :: 0 <= h <= |busy| ==> |AtOrPast(workers, h)| <= |busy| - h + |LeakedBelow(busy, workers, h)|)
  }

  ghost function Below(n: nat): (s: set<int>)
    ensures |s| == n && forall x :: x in s <==> 0 <= x < n
  {
    if n == 0 then {} else Below(n - 1) + {n - 1}
  }

  lemma SubsetSize(a: set<int>, b: set<int>)
    requires a <= b
    ensures |a| <= |b|
  {
    assert |b - a| == |b| - |a|;
  }

  /** Without a leak, no scan is ever past the last device. */
  lemma ScansStayInside(busy: seq<bool>, workers: seq<Worker>, w: nat)
    requires Devices(busy, workers) && Leaked(busy, workers) == {} && w < |workers|
    ensures workers[w].Position() < |busy|
  {
    assert AtOrPast(workers, |busy|) == {};
    assert w !in AtOrPast(workers, |busy|);
  }

  // ---------- one thread moves ----------

  ghost predicate HeldByOther(workers: seq<Worker>, w: int, d: int) {
    exists v :: 0 <= v < |workers| && v != w && workers[v].HasDevice() && workers[v].Position() == d
  }

  lemma HeldUpdated(workers: seq<Worker>, w: nat, p: Worker, d: int)
    requires w < |workers|
    ensures HeldBy(workers[w := p], d) <==> HeldByOther(workers, w, d) || (p.HasDevice() && p.Position() == d)
    ensures HeldBy(workers, d) <==> HeldByOther(workers, w, d) || (workers[w].HasDevice() && workers[w].Position() == d)
  {
    if v :| 0 <= v < |workers| && v != w && workers[v].HasDevice() && workers[v].Position() == d {
      assert workers[w := p][v].HasDevice();
    }
    if p.HasDevice() && p.Position() == d { assert workers[w := p][w].HasDevice(); }
  }

  /** The same devices leaked, but for `more`. */
  ghost predicate LeaksMore(busy: seq<bool>, workers: seq<Worker>, busy': seq<bool>, workers': seq<Worker>,
      more: set<int>) {
    forall d :: LeakedAt(busy', workers', d) <==> LeakedAt(busy, workers, d) || d in more
  }

  lemma LeaksCounted(busy: seq<bool>, workers: seq<Worker>, busy': seq<bool>, workers': seq<Worker>, more: set<int>,
      h: int)
    requires LeaksMore(busy, workers, busy', workers', more)
    ensures |LeakedBelow(busy, workers, h)| <= |LeakedBelow(busy', workers', h)|
  {
    SubsetSize(LeakedBelow(busy, workers, h), LeakedBelow(busy', workers', h));
  }

  lemma CountsKept(busy: seq<bool>, workers: seq<Worker>, busy': seq<bool>, workers': seq<Worker>, more: set<int>)
    requires Devices(busy, workers) && LeaksMore(busy, workers, busy', workers', more)
    requires |workers'| == |workers| && |busy'| == |busy|
    requires forall h :: 0 < h <= |busy| ==> AtOrPast(workers', h) <= AtOrPast(workers, h)
    ensures forall h :: 0 <= h <= |busy| ==> |AtOrPast(workers', h)| <= |busy| - h + |LeakedBelow(busy', workers', h)|
  {
    forall h | 0 <= h <= |busy|
      ensures |AtOrPast(workers', h)| <= |busy| - h + |LeakedBelow(busy', workers', h)|
    {
      LeaksCounted(busy, workers, busy', workers', more, h);
      if h == 0 {
        SubsetSize(AtOrPast(workers', 0), Below(|busy|));
      } else {
        SubsetSize(AtOrPast(workers', h), AtOrPast(workers, h));
      }
    }
  }

  /** A thread that moves down the list, or keeps its place and its device, disturbs nothing. */
  lemma DevicesKept(busy: seq<bool>, workers: seq<Worker>, w: nat, p: Worker)
    requires Devices(busy, workers) && w < |workers|
    requires p.HasDevice() == workers[w].HasDevice()
    requires p.Position() == workers[w].Position() || (p.Position() <= 0 && !p.HasDevice())
    ensures Devices(busy, workers[w := p]) && LeaksMore(busy, workers, busy, workers[w := p], {})
  {
    var after := workers[w := p];
    forall d
      ensures LeakedAt(busy, after, d) <==> LeakedAt(busy, workers, d)
    {
      HeldUpdated(workers, w, p, d);
    }
    CountsKept(busy, workers, busy, after, {});
    assert Fits(busy, workers[w]);
  }

  lemma DevicesReleased(busy: seq<bool>, workers: seq<Worker>, w: nat, p: Worker)
    requires Devices(busy, workers) && w < |workers| && workers[w].HasDevice()
    requires p.Position() < 0 && !p.HasDevice()
    ensures 0 <= workers[w].Position() < |busy|
    ensures var busy' := busy[workers[w].Position() := false];
      Devices(busy', workers[w := p]) && LeaksMore(busy, workers, busy', workers[w := p], {})
  {
    assert Fits(busy, workers[w]);
    var after := workers[w := p];
    var d0 := workers[w].Position();
    var busy' := busy[d0 := false];
    forall d
      ensures LeakedAt(busy', after, d) <==> LeakedAt(busy, workers, d)
    {
      HeldUpdated(workers, w, p, d);
    }
    CountsKept(busy, workers, busy', after, {});
    forall v | 0 <= v < |after|
      ensures Fits(busy', after[v])
    {
      assert Fits(busy, workers[v]);
      if v < w {
        assert workers[v].HasDevice() ==> workers[v].Position() != d0;
      } else if w < v {
        assert workers[v].HasDevice() ==> workers[v].Position() != d0;
      }
    }
  }

  lemma DevicesAcquired(busy: seq<bool>, workers: seq<Worker>, w: nat, p: Worker)
    requires Devices(busy, workers) && w < |workers|
    requires !workers[w].HasDevice() && 0 <= workers[w].Position() < |busy| && !busy[workers[w].Position()]
    requires p.HasDevice() && p.Position() == workers[w].Position()
    ensures var busy' := busy[p.Position() := true];
      Devices(busy', workers[w := p]) && LeaksMore(busy, workers, busy', workers[w := p], {})
  {
    var after := workers[w := p];
    var d0 := p.Position();
    var busy' := busy[d0 := true];
    forall d
      ensures LeakedAt(busy', after, d) <==> LeakedAt(busy, workers, d)
    {
      HeldUpdated(workers, w, p, d);
    }
    CountsKept(busy, workers, busy', after, {});
    forall v | 0 <= v < |after|
      ensures Fits(busy', after[v]) && (v != w && after[v].HasDevice() ==> after[v].Position() != d0)
    {
      assert Fits(busy, workers[v]);
    }
  }

  /** An exception takes the thread off its device, which stays busy. */
  lemma DevicesLeaked(busy: seq<bool>, workers: seq<Worker>, w: nat, p: Worker)
    requires Devices(busy, workers) && w < |workers| && workers[w].HasDevice()
    requires p.Position() < 0 && !p.HasDevice()
    ensures Devices(busy, workers[w := p]) && LeaksMore(busy, workers, busy, workers[w := p], {workers[w].Position()})
  {
    assert Fits(busy, workers[w]);
    var after := workers[w := p];
    var d0 := workers[w].Position();
    forall d
      ensures LeakedAt(busy, after, d) <==> LeakedAt(busy, workers, d) || d == d0
    {
      HeldUpdated(workers, w, p, d);
      if v :| 0 <= v < |workers| && v != w && workers[v].HasDevice() && workers[v].Position() == d {
        assert d != d0 by { if v < w { assert workers[v].Position() != workers[w].Position(); } }
      }
    }
    CountsKept(busy, workers, busy, after, {d0});
  }

  /** Stepping past a busy device: its holder stays behind, or it is leaked and counted as such, so one
      more thread fits beyond it. */
  lemma DevicesScanned(busy: seq<bool>, workers: seq<Worker>, w: nat, p: Worker)
    requires Devices(busy, workers) && w < |workers|
    requires !workers[w].HasDevice() && 0 <= workers[w].Position() < |busy| && busy[workers[w].Position()]
    requires !p.HasDevice() && p.Position() == workers[w].Position() + 1
    ensures Devices(busy, workers[w := p]) && LeaksMore(busy, workers, busy, workers[w := p], {})
  {
    var after := workers[w := p];
    var i := workers[w].Position();
    forall d
      ensures LeakedAt(busy, after, d) <==> LeakedAt(busy, workers, d)
    {
      HeldUpdated(workers, w, p, d);
    }
    forall h | 0 <= h <= |busy|
      ensures |AtOrPast(after, h)| <= |busy| - h + |LeakedBelow(busy, after, h)|
    {
      LeaksCounted(busy, workers, busy, after, {}, h);
      if h == i + 1 {
        PastBusy(busy, workers, w, p);
      } else {
        SubsetSize(AtOrPast(after, h), AtOrPast(workers, h));
      }
    }
  }

  lemma PastBusy(busy: seq<bool>, workers: seq<Worker>, w: nat, p: Worker)
    requires Devices(busy, workers) && w < |workers|
    requires !workers[w].HasDevice() && 0 <= workers[w].Position() < |busy| && busy[workers[w].Position()]
    requires !p.HasDevice() && p.Position() == workers[w].Position() + 1
    requires LeaksMore(busy, workers, busy, workers[w := p], {})
    ensures var h := p.Position();
      |AtOrPast(workers[w := p], h)| <= |busy| - h + |LeakedBelow(busy, workers[w := p], h)|
  {
    var i := workers[w].Position();
    assert |AtOrPast(workers, i)| <= |busy| - i + |LeakedBelow(busy, workers, i)|;
    if HeldBy(workers, i) { PastHeld(workers, w, p); } else { PastAny(workers, w, p); }
    LeaksPast(busy, workers, w, p, i);
  }

  lemma PastHeld(workers: seq<Worker>, w: nat, p: Worker)
    requires w < |workers| && !workers[w].HasDevice() && p.Position() == workers[w].Position() + 1
    requires HeldBy(workers, workers[w].Position())
    ensures |AtOrPast(workers[w := p], p.Position())| + 1 <= |AtOrPast(workers, workers[w].Position())|
  {
    var i := workers[w].Position();
    var v :| 0 <= v < |workers| && workers[v].HasDevice() && workers[v].Position() == i;
    var rest := AtOrPast(workers, i) - {v, w};
    assert v in AtOrPast(workers, i) && w in AtOrPast(workers, i);
    assert AtOrPast(workers, i) == rest + {v, w as int};
    SubsetSize(AtOrPast(workers[w := p], i + 1), rest + {w as int});
  }

  lemma PastAny(workers: seq<Worker>, w: nat, p: Worker)
    requires w < |workers| && p.Position() == workers[w].Position() + 1
    ensures |AtOrPast(workers[w := p], p.Position())| <= |AtOrPast(workers, workers[w].Position())|
  {
    SubsetSize(AtOrPast(workers[w := p], p.Position()), AtOrPast(workers, workers[w].Position()));
  }

  lemma LeaksPast(busy: seq<bool>, workers: seq<Worker>, w: nat, p: Worker, i: int)
    requires w < |workers| && 0 <= i < |busy| && busy[i] && LeaksMore(busy, workers, busy, workers[w := p], {})
    ensures |LeakedBelow(busy, workers, i)| + (if HeldBy(workers, i) then 0 else 1)
      <= |LeakedBelow(busy, workers[w := p], i + 1)|
  {
    var before, after := LeakedBelow(busy, workers, i), LeakedBelow(busy, workers[w := p], i + 1);
    if HeldBy(workers, i) {
      SubsetSize(before, after);
    } else {
      assert LeakedAt(busy, workers, i);
      assert |before + {i}| == |before| + 1;
      SubsetSize(before + {i}, after);
    }
  }

  // ---------- steps ----------

  /** The device an exception in this step leaks, if any. */
  ghost function Leaks(s: State, a: Action): set<int>
    requires Enabled(s, a)
  {
    if a.Throw? && s.workers[a.w].HasDevice() then {s.workers[a.w].Position()} else {}
  }

  /** The devices after a step of a pool thread, and what it leaks. */
  ghost predicate DevicesAfter(s: State, a: Action)
    requires Enabled(s, a)
  {
    && Devices(Next(s, a).busy, Next(s, a).workers)
    && LeaksMore(s.busy, s.workers, Next(s, a).busy, Next(s, a).workers, Leaks(s, a))
  }

  lemma ProbeKeepsDevices(s: State, a: Action)
    requires Devices(s.busy, s.workers) && Enabled(s, a) && a.Probe?
    ensures DevicesAfter(s, a)
  {
    hide Devices, LeaksMore;
    var p, q := s.workers[a.w], Next(s, a).workers[a.w];
    if s.busy[p.index] {
      DevicesScanned(s.busy, s.workers, a.w, q);
      assert s.busy[p.index := true] == s.busy;
    } else {
      DevicesAcquired(s.busy, s.workers, a.w, q);
    }
  }

  lemma ReleaseKeepsDevices(s: State, a: Action)
    requires Devices(s.busy, s.workers) && Enabled(s, a) && a.Release?
    ensures DevicesAfter(s, a)
  {
    hide Devices, LeaksMore;
    DevicesReleased(s.busy, s.workers, a.w, Next(s, a).workers[a.w]);
  }

  lemma ThrowKeepsDevices(s: State, a: Action)
    requires Devices(s.busy, s.workers) && Enabled(s, a) && a.Throw? && s.workers[a.w].HasDevice()
    ensures DevicesAfter(s, a)
  {
    hide Devices, LeaksMore;
    DevicesLeaked(s.busy, s.workers, a.w, Next(s, a).workers[a.w]);
  }

  /** Steps that do not touch the flags. */
  lemma OtherKeepsDevices(s: State, a: Action)
    requires Devices(s.busy, s.workers) && Enabled(s, a) && a.OfWorker() && !a.Probe? && !a.Release?
    requires a.Throw? ==> !s.workers[a.w].HasDevice()
    ensures DevicesAfter(s, a)
  {
    hide Devices, LeaksMore, Discard, RingPush, State.Free, IsTop;
    assert WorkerEnabled(s, a);
    DevicesKept(s.busy, s.workers, a.w, Next(s, a).workers[a.w]);
  }

  lemma WorkerKeepsDevices(s: State, a: Action)
    requires Devices(s.busy, s.workers) && Enabled(s, a) && a.OfWorker()
    ensures DevicesAfter(s, a)
  {
    hide DevicesAfter;
    if a.Probe? {
      ProbeKeepsDevices(s, a);
    } else if a.Release? {
      ReleaseKeepsDevices(s, a);
    } else if a.Throw? && s.workers[a.w].HasDevice() {
      ThrowKeepsDevices(s, a);
    } else {
      OtherKeepsDevices(s, a);
    }
  }

  /** Every step keeps the device invariant; an exception leaks exactly the device its thread had, and
      nothing is ever leaked otherwise or given back. */
  lemma KeepsDevices(s: State, a: Action)
    requires Devices(s.busy, s.workers) && Enabled(s, a)
    ensures Devices(Next(s, a).busy, Next(s, a).workers)
    ensures Leaked(Next(s, a).busy, Next(s, a).workers) == Leaked(s.busy, s.workers) + Leaks(s, a)
  {
    if a.OfWorker() {
      WorkerKeepsDevices(s, a);
      LeaksAreLeaked(s, a);
    } else {
      ClientShape(s, a);
    }
  }

  lemma LeaksAreLeaked(s: State, a: Action)
    requires Devices(s.busy, s.workers) && Enabled(s, a) && a.OfWorker()
    requires LeaksMore(s.busy, s.workers, Next(s, a).busy, Next(s, a).workers, Leaks(s, a))
    ensures Leaked(Next(s, a).busy, Next(s, a).workers) == Leaked(s.busy, s.workers) + Leaks(s, a)
  {
    hide Devices, Next;
    var after := Next(s, a);
    forall d
      ensures d in Leaked(after.busy, after.workers) <==> d in Leaked(s.busy, s.workers) + Leaks(s, a)
    {
      assert LeakedAt(after.busy, after.workers, d) <==> LeakedAt(s.busy, s.workers, d) || d in Leaks(s, a);
      assert LeakedAt(s.busy, s.workers, d) <==> d in Leaked(s.busy, s.workers);
      assert LeakedAt(after.busy, after.workers, d) <==> d in Leaked(after.busy, after.workers);
    }
  }
}
