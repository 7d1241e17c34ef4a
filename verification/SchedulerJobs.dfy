/** Every request is in one place and is answered when it is done, twice only if its pool thread
    throws after the reply. */
module RequestLedger {
  import opened Wrappers
  import opened JobQueue
  import opened Scheduler

  /** The scheduler as seen by its requests: what each thread owes, the posted tasks, the record. */
  datatype Ledger = Ledger(clients: seq<Option<nat>>, workers: seq<Debt>, tasks: set<nat>,
                           place: map<nat, Place>, answers: multiset<nat>, nextReq: nat)

  function ClientsOwe(clients: seq<Client>): (owed: seq<Option<nat>>)
    ensures |owed| == |clients| && forall c :: 0 <= c < |clients| ==> owed[c] == clients[c].Owes()
  {
    seq(|clients|, c requires 0 <= c < |clients| => clients[c].Owes())
  }

  function WorkersOwe(workers: seq<Worker>): (owed: seq<Debt>)
    ensures |owed| == |workers| && forall w :: 0 <= w < |workers| ==> owed[w] == workers[w].Debt()
  {
    seq(|workers|, w requires 0 <= w < |workers| => workers[w].Debt())
  }

  function LedgerOf(s: State): Ledger {
    Ledger(ClientsOwe(s.clients), WorkersOwe(s.workers), s.tasks, s.place, s.answers, s.nextReq)
  }

  ghost predicate PlaceHeld(l: Ledger, r: nat)
    requires r in l.place
  {
    match l.place[r]
    case AtClient(c) => c < |l.clients| && l.clients[c] == Some(r)
    case InPool => r in l.tasks
    case AtWorker(w) => w < |l.workers| && l.workers[w] == Owing(r)
    case AnsweredBy(w) => w < |l.workers| && l.workers[w] == Settled(r)
    case Answered => true
    case AnsweredTwice => true
  }

  /** How often a request has been answered, by its place. */
  function Times(p: Place): nat {
    if p.AnsweredTwice? then 2 else if p.Answered? || p.AnsweredBy? then 1 else 0
  }

  /** The place of the request a pool thread is concerned with. */
  function PlaceOf(d: Debt, w: nat): Place
    requires !d.Nothing?
  {
    if d.Owing? then AtWorker(w) else AnsweredBy(w)
  }

  ghost predicate Balanced(l: Ledger) {
    && (forall r: nat :: r in l.place <==> r < l.nextReq)
    && (forall r: nat :: r in l.place ==> PlaceHeld(l, r))
    && (forall c: nat :: c < |l.clients| && l.clients[c].Some? ==>
         l.clients[c].value in l.place && l.place[l.clients[c].value] == AtClient(c))
    && (forall w: nat :: w < |l.workers| && !l.workers[w].Nothing? ==>
         l.workers[w].req in l.place && l.place[l.workers[w].req] == PlaceOf(l.workers[w], w))
    && (forall r: nat :: r in l.tasks ==> r in l.place && l.place[r] == InPool)
    && (forall r: nat :: r in l.place ==> l.answers[r] == Times(l.place[r]))
    && (forall r: nat :: r in l.answers ==> r in l.place)
  }

  /** How one step moves a request. */
  datatype Move =
    | Stay
    | Arrive(c: nat)
    | ClientAnswers(c: nat)
    | Posts(c: nat)
    | Starts(w: nat, r: nat)
    | Replies(w: nat, after: Place)
    | Finishes(w: nat)
    | RepliesAgain(w: nat)

  ghost predicate CanMove(l: Ledger, m: Move) {
    match m
    case Stay => true
    case Arrive(c) => c < |l.clients| && l.clients[c] == None
    case ClientAnswers(c) => c < |l.clients| && l.clients[c].Some?
    case Posts(c) => c < |l.clients| && l.clients[c].Some?
    case Starts(w, r) => w < |l.workers| && l.workers[w] == Nothing && r in l.tasks
    case Replies(w, p) => w < |l.workers| && l.workers[w].Owing? && (p == Answered || p == AnsweredBy(w))
    case Finishes(w) => w < |l.workers| && l.workers[w].Settled?
    case RepliesAgain(w) => w < |l.workers| && l.workers[w].Settled?
  }

  ghost function Moved(l: Ledger, m: Move): Ledger
    requires CanMove(l, m)
  {
    match m
    case Stay => l
    case Arrive(c) =>
      l.(clients := l.clients[c := Some(l.nextReq)], nextReq := l.nextReq + 1,
         place := l.place[l.nextReq := AtClient(c)])
    case ClientAnswers(c) =>
      var r := l.clients[c].value;
      l.(clients := l.clients[c := None], answers := l.answers + multiset{r}, place := l.place[r := Answered])
    case Posts(c) =>
      var r := l.clients[c].value;
      l.(clients := l.clients[c := None], tasks := l.tasks + {r}, place := l.place[r := InPool])
    case Starts(w, r) =>
      l.(workers := l.workers[w := Owing(r)], tasks := l.tasks - {r}, place := l.place[r := AtWorker(w)])
    case Replies(w, p) =>
      var r := l.workers[w].req;
      l.(workers := l.workers[w := if p == Answered then Nothing else Settled(r)],
         answers := l.answers + multiset{r}, place := l.place[r := p])
    case Finishes(w) =>
      l.(workers := l.workers[w := Nothing], place := l.place[l.workers[w].req := Answered])
    case RepliesAgain(w) =>
      var r := l.workers[w].req;
      l.(workers := l.workers[w := Nothing], answers := l.answers + multiset{r}, place := l.place[r := AnsweredTwice])
  }

  lemma ClientAnswerBalanced(l: Ledger, m: Move)
    requires Balanced(l) && CanMove(l, m) && m.ClientAnswers?
    ensures Balanced(Moved(l, m))
  {
    var l' := Moved(l, m);
    forall r | r in l'.place
      ensures PlaceHeld(l', r)
    {
      if r in l.place { assert PlaceHeld(l, r); }
    }
  }

  lemma PostBalanced(l: Ledger, m: Move)
    requires Balanced(l) && CanMove(l, m) && m.Posts?
    ensures Balanced(Moved(l, m))
  {
    var l' := Moved(l, m);
    forall r | r in l'.place
      ensures PlaceHeld(l', r)
    {
      if r in l.place { assert PlaceHeld(l, r); }
    }
  }

  lemma ArrivalBalanced(l: Ledger, m: Move)
    requires Balanced(l) && CanMove(l, m) && m.Arrive?
    ensures Balanced(Moved(l, m))
  {
    var l' := Moved(l, m);
    forall r | r in l'.place
      ensures PlaceHeld(l', r)
    {
      if r in l.place { assert PlaceHeld(l, r); }
    }
  }

  lemma StartBalanced(l: Ledger, m: Move)
    requires Balanced(l) && CanMove(l, m) && m.Starts?
    ensures Balanced(Moved(l, m))
  {
    var l' := Moved(l, m);
    forall r | r in l'.place
      ensures PlaceHeld(l', r)
    {
      if r in l.place { assert PlaceHeld(l, r); }
    }
  }

  lemma ReplyBalanced(l: Ledger, m: Move)
    requires Balanced(l) && CanMove(l, m) && m.Replies?
    ensures Balanced(Moved(l, m))
  {
    var l' := Moved(l, m);
    forall r | r in l'.place
      ensures PlaceHeld(l', r)
    {
      if r in l.place { assert PlaceHeld(l, r); }
    }
  }

  lemma FinishBalanced(l: Ledger, m: Move)
    requires Balanced(l) && CanMove(l, m) && m.Finishes?
    ensures Balanced(Moved(l, m))
  {
    var l' := Moved(l, m);
    forall r | r in l'.place
      ensures PlaceHeld(l', r)
    {
      if r in l.place { assert PlaceHeld(l, r); }
    }
  }

  lemma LateReplyBalanced(l: Ledger, m: Move)
    requires Balanced(l) && CanMove(l, m) && m.RepliesAgain?
    ensures Balanced(Moved(l, m))
  {
    var l' := Moved(l, m);
    forall r | r in l'.place
      ensures PlaceHeld(l', r)
    {
      if r in l.place { assert PlaceHeld(l, r); }
    }
  }

  ghost function MoveOf(s: State, a: Action): Move
    requires Enabled(s, a)
  {
    match a
    case Begin(c) => Arrive(c)
    case Reject(c, _) => ClientAnswers(c)
    case Refuse(c) => ClientAnswers(c)
    case Post(c) => Posts(c)
    case Take(w, r) => Starts(w, r)
    case FindEmpty(w) => Replies(w, Answered)
    case Reply(w) => Replies(w, AnsweredBy(w))
    case RunOff(w) => Replies(w, Answered)
    case Throw(w) => if s.workers[w].HasReplied() then RepliesAgain(w) else Replies(w, Answered)
    case Retire(w) => Finishes(w)
    case _ => Stay
  }

  lemma OweUpdated(clients: seq<Client>, workers: seq<Worker>, i: nat, p: Client, q: Worker)
    ensures i < |clients| ==> ClientsOwe(clients[i := p]) == ClientsOwe(clients)[i := p.Owes()]
    ensures i < |workers| ==> WorkersOwe(workers[i := q]) == WorkersOwe(workers)[i := q.Debt()]
    ensures i < |clients| ==> ClientsOwe(clients)[i := clients[i].Owes()] == ClientsOwe(clients)
    ensures i < |workers| ==> WorkersOwe(workers)[i := workers[i].Debt()] == WorkersOwe(workers)
  {
  }

  lemma WorkerStays(s: State, a: Action)
    requires a.OfWorker() && Enabled(s, a) && MoveOf(s, a).Stay?
    ensures LedgerOf(Next(s, a)) == LedgerOf(s)
  {
    hide Keep, Discard, RingPush, State.Free, IsTop, ClientsOwe, WorkersOwe;
    OweUpdated([], s.workers, a.w, Resting, Next(s, a).workers[a.w]);
    assert WorkerEnabled(s, a);
  }

  lemma WorkerMoves(s: State, a: Action)
    requires a.OfWorker() && Enabled(s, a) && !MoveOf(s, a).Stay?
    ensures CanMove(LedgerOf(s), MoveOf(s, a))
    ensures LedgerOf(Next(s, a)) == Moved(LedgerOf(s), MoveOf(s, a))
  {
    hide Keep, Discard, RingPush, State.Free, IsTop, ClientsOwe, WorkersOwe;
    OweUpdated([], s.workers, a.w, Resting, Next(s, a).workers[a.w]);
    assert WorkerEnabled(s, a);
  }

  lemma ClientStays(s: State, a: Action)
    requires !a.OfWorker() && Enabled(s, a) && MoveOf(s, a).Stay?
    ensures LedgerOf(Next(s, a)) == LedgerOf(s)
  {
    hide Keep, Discard, State.Free, ClientsOwe, WorkersOwe;
    OweUpdated(s.clients, [], a.c, Next(s, a).clients[a.c], Idle);
    assert ClientEnabled(s, a);
  }

  lemma ClientMoves(s: State, a: Action)
    requires !a.OfWorker() && Enabled(s, a) && !MoveOf(s, a).Stay?
    ensures CanMove(LedgerOf(s), MoveOf(s, a))
    ensures LedgerOf(Next(s, a)) == Moved(LedgerOf(s), MoveOf(s, a))
  {
    hide Keep, Discard, State.Free, ClientsOwe, WorkersOwe;
    OweUpdated(s.clients, [], a.c, Next(s, a).clients[a.c], Idle);
    assert ClientEnabled(s, a);
  }

  lemma StepIsMove(s: State, a: Action)
    requires Enabled(s, a)
    ensures CanMove(LedgerOf(s), MoveOf(s, a))
    ensures LedgerOf(Next(s, a)) == Moved(LedgerOf(s), MoveOf(s, a))
  {
    hide Next, LedgerOf, WorkerEnabled, ClientEnabled;
    if a.OfWorker() {
      if MoveOf(s, a).Stay? { WorkerStays(s, a); } else { WorkerMoves(s, a); }
    } else {
      if MoveOf(s, a).Stay? { ClientStays(s, a); } else { ClientMoves(s, a); }
    }
  }

  /** Every step, exceptions included, keeps the ledger balanced. */
  lemma KeepsBalance(s: State, a: Action)
    requires Balanced(LedgerOf(s)) && Enabled(s, a)
    ensures Balanced(LedgerOf(Next(s, a)))
  {
    hide Next, LedgerOf, Balanced, WorkerEnabled, ClientEnabled;
    StepIsMove(s, a);
    var m := MoveOf(s, a);
    if m.Arrive? {
      ArrivalBalanced(LedgerOf(s), m);
    } else if m.Starts? {
      StartBalanced(LedgerOf(s), m);
    } else if m.Replies? {
      ReplyBalanced(LedgerOf(s), m);
    } else if m.Finishes? {
      FinishBalanced(LedgerOf(s), m);
    } else if m.RepliesAgain? {
      LateReplyBalanced(LedgerOf(s), m);
    } else if m.Posts? {
      PostBalanced(LedgerOf(s), m);
    } else if !m.Stay? {
      ClientAnswerBalanced(LedgerOf(s), m);
    }
  }
}

/** Accepted jobs are partitioned into queued, in progress, completed, removed, and lost to exceptions. */
module JobBook {
  import opened Wrappers
  import opened JobQueue
  import opened Scheduler

  /** The scheduler as seen by its jobs: what each pool thread holds and whether it has entered it
      in the active set, what each request thread has constructed, and the job containers. */
  datatype Book = Book(held: seq<Option<Job>>, entered: seq<bool>, pending: seq<Option<Job>>, jobs: set<Job>,
                       active: set<Job>, completed: seq<Job>, stage: map<Job, Stage>, nextId: nat)

  function HeldJobs(workers: seq<Worker>): (held: seq<Option<Job>>)
    ensures |held| == |workers| && forall w :: 0 <= w < |workers| ==> held[w] == workers[w].Job()
  {
    seq(|workers|, w requires 0 <= w < |workers| => workers[w].Job())
  }

  function Entered(workers: seq<Worker>): (entered: seq<bool>)
    ensures |entered| == |workers| && forall w :: 0 <= w < |workers| ==> entered[w] == workers[w].IsActive()
  {
    seq(|workers|, w requires 0 <= w < |workers| => workers[w].IsActive())
  }

  function PendingJobs(clients: seq<Client>): (pending: seq<Option<Job>>)
    ensures |pending| == |clients| && forall c :: 0 <= c < |clients| ==> pending[c] == clients[c].Pending()
  {
    seq(|clients|, c requires 0 <= c < |clients| => clients[c].Pending())
  }

  function BookOf(s: State): Book {
    Book(HeldJobs(s.workers), Entered(s.workers), PendingJobs(s.clients),
         s.jobs, s.active, s.completed, s.stage, s.nextId)
  }

  ghost predicate StageHeld(b: Book, j: Job)
    requires j in b.stage && |b.entered| == |b.held|
  {
    match b.stage[j]
    case Queued => j in b.jobs
    case InProgress(w) => w < |b.held| && b.held[w] == Some(j) && (b.entered[w] ==> j in b.active)
    case Completed => true
    case Removed => true
    case Lost => true
  }

  /** Active jobs are in progress, or were when an exception struck. */
  ghost predicate ActiveHeld(b: Book, j: Job) {
    j in b.stage && match b.stage[j]
      case InProgress(w) => w < |b.entered| && b.entered[w]
      case Lost => true
      case _ => false
  }

  /** Each accepted job has one stage, and each container holds exactly the jobs of its stage. */
  ghost predicate Partitioned(b: Book) {
    && |b.entered| == |b.held|
    && (forall j :: j in b.stage ==> StageHeld(b, j))
    && (forall j :: j in b.jobs ==> j in b.stage && b.stage[j] == Queued)
    && (forall w: nat :: w < |b.held| && b.held[w].Some? ==>
         b.held[w].value in b.stage && b.stage[b.held[w].value] == InProgress(w))
    && (forall j :: j in b.active ==> ActiveHeld(b, j))
    && (forall j :: j in b.completed ==> j in b.stage && b.stage[j] == Completed)
    && (forall i, k :: 0 <= i < k < |b.completed| ==> b.completed[i] != b.completed[k])
  }

  /** Accepted jobs have distinct ids, and a job not pushed yet has an id of its own. */
  ghost predicate IdsUnique(b: Book) {
    && UniqueIds(b.stage.Keys)
    && (forall j :: j in b.stage ==> j.id < b.nextId)
    && (forall c :: 0 <= c < |b.pending| && b.pending[c].Some? ==> b.pending[c].value.id < b.nextId)
    && (forall c, j :: 0 <= c < |b.pending| && b.pending[c].Some? && j in b.stage ==> j.id != b.pending[c].value.id)
    && (forall c, d :: 0 <= c < d < |b.pending| && b.pending[c].Some? && b.pending[d].Some? ==>
         b.pending[c].value.id != b.pending[d].value.id)
  }

  /** How one step moves a job. */
  datatype Move =
    | Stay(burnt: nat)
    | Construct(c: nat, job: Job)
    | Drop(c: nat)
    | Enqueue(c: nat)
    | Dequeue(w: nat, j: Job)
    | Enter(w: nat)
    | Complete(w: nat)
    | Lose(w: nat)
    | Erase(gone: set<Job>)

  ghost predicate CanMove(b: Book, m: Move) {
    match m
    case Stay(_) => true
    case Construct(c, j) => c < |b.pending| && b.pending[c] == None && j.id == b.nextId
    case Drop(c) => c < |b.pending|
    case Enqueue(c) => c < |b.pending| && b.pending[c].Some?
    case Dequeue(w, j) => w < |b.held| == |b.entered| && b.held[w] == None && !b.entered[w] && j in b.jobs
    case Enter(w) => w < |b.held| == |b.entered| && b.held[w].Some? && !b.entered[w]
    case Complete(w) => w < |b.held| == |b.entered| && b.held[w].Some? && b.entered[w]
    case Lose(w) => w < |b.held| == |b.entered| && b.held[w].Some?
    case Erase(gone) => gone <= b.jobs
  }

  ghost function Moved(b: Book, m: Move): Book
    requires CanMove(b, m)
  {
    match m
    case Stay(burnt) => b.(nextId := b.nextId + burnt)
    case Construct(c, j) => b.(pending := b.pending[c := Some(j)], nextId := b.nextId + 1)
    case Drop(c) => b.(pending := b.pending[c := None])
    case Enqueue(c) =>
      var j := b.pending[c].value;
      b.(pending := b.pending[c := None], jobs := b.jobs + {j}, stage := b.stage[j := Queued])
    case Dequeue(w, j) => b.(held := b.held[w := Some(j)], jobs := b.jobs - {j}, stage := b.stage[j := InProgress(w)])
    case Enter(w) => b.(entered := b.entered[w := true], active := b.active + {b.held[w].value})
    case Complete(w) =>
      var j := b.held[w].value;
      b.(held := b.held[w := None], entered := b.entered[w := false], active := b.active - {j},
         completed := RingPush(b.completed, j), stage := b.stage[j := Completed])
    case Lose(w) =>
      b.(held := b.held[w := None], entered := b.entered[w := false], stage := b.stage[b.held[w].value := Lost])
    case Erase(gone) => b.(jobs := b.jobs - gone, stage := Discard(b.stage, gone))
  }

  lemma MoveKeepsIds(b: Book, m: Move)
    requires Partitioned(b) && IdsUnique(b) && CanMove(b, m)
    ensures IdsUnique(Moved(b, m))
    ensures b.stage.Keys <= Moved(b, m).stage.Keys
  {
    hide StageHeld, ActiveHeld, RingPush;
    if m.Enqueue? || m.Construct? || m.Drop? { PendingKeepsIds(b, m); } else { OtherKeepsIds(b, m); }
  }

  lemma PendingKeepsIds(b: Book, m: Move)
    requires Partitioned(b) && IdsUnique(b) && CanMove(b, m) && (m.Enqueue? || m.Construct? || m.Drop?)
    ensures IdsUnique(Moved(b, m)) && b.stage.Keys <= Moved(b, m).stage.Keys
  {
    hide StageHeld, ActiveHeld, RingPush, Partitioned;
  }

  lemma OtherKeepsIds(b: Book, m: Move)
    requires Partitioned(b) && IdsUnique(b) && CanMove(b, m) && !m.Enqueue? && !m.Construct? && !m.Drop?
    ensures IdsUnique(Moved(b, m)) && b.stage.Keys <= Moved(b, m).stage.Keys
  {
    hide StageHeld, ActiveHeld, RingPush, IdsUnique;
    assert Moved(b, m).stage.Keys == b.stage.Keys;
    SameIds(b, Moved(b, m));
  }

  lemma SameIds(b: Book, b': Book)
    requires IdsUnique(b) && b'.stage.Keys == b.stage.Keys && b'.nextId >= b.nextId && b'.pending == b.pending
    ensures IdsUnique(b')
  {
    assert forall j :: j in b'.stage <==> j in b.stage.Keys;
  }

  lemma QueueMovePartitioned(b: Book, m: Move)
    requires Partitioned(b) && IdsUnique(b) && CanMove(b, m)
    requires m.Enqueue? || m.Dequeue? || m.Erase?
    ensures Partitioned(Moved(b, m))
  {
    var b' := Moved(b, m);
    forall j | j in b'.stage
      ensures StageHeld(b', j)
    {
      if j in b.stage { assert StageHeld(b, j); }
    }
  }

  lemma ThreadMovePartitioned(b: Book, m: Move)
    requires Partitioned(b) && CanMove(b, m)
    requires m.Enter? || m.Complete? || m.Lose? || m.Stay? || m.Construct? || m.Drop?
    ensures Partitioned(Moved(b, m))
  {
    var b' := Moved(b, m);
    forall j | j in b'.stage
      ensures StageHeld(b', j)
    {
      if j in b.stage { assert StageHeld(b, j); }
    }
  }

  ghost function MoveOf(s: State, a: Action): Move
    requires Enabled(s, a)
  {
    match a
    case Pop(w, j) => Dequeue(w, j)
    case Insert(w) => Enter(w)
    case Retire(w) => Complete(w)
    case RunOff(w) => Lose(w)
    case Throw(w) => Lose(w)
    case Reject(_, usedId) => Stay(if usedId then 1 else 0)
    case Parse(c, priority, root) => Construct(c, Job(s.nextId, priority, root))
    case Push(c) => if |s.jobs| < s.limit then Enqueue(c) else Drop(c)
    case Cancel(c) => Erase(s.jobs - Keep(s.jobs, s.clients[c].root))
    case Clear(_) => Erase(s.jobs)
    case _ => Stay(0)
  }

  lemma WorkersUpdated(workers: seq<Worker>, w: nat, p: Worker)
    requires w < |workers|
    ensures HeldJobs(workers[w := p]) == HeldJobs(workers)[w := p.Job()]
    ensures Entered(workers[w := p]) == Entered(workers)[w := p.IsActive()]
    ensures HeldJobs(workers)[w := workers[w].Job()] == HeldJobs(workers)
    ensures Entered(workers)[w := workers[w].IsActive()] == Entered(workers)
  {
  }

  lemma ClientsUpdated(clients: seq<Client>, c: nat, p: Client)
    requires c < |clients|
    ensures PendingJobs(clients[c := p]) == PendingJobs(clients)[c := p.Pending()]
    ensures PendingJobs(clients)[c := clients[c].Pending()] == PendingJobs(clients)
  {
  }

  lemma WorkerStepIsMove(s: State, a: Action)
    requires a.OfWorker() && Enabled(s, a)
    ensures CanMove(BookOf(s), MoveOf(s, a))
    ensures BookOf(Next(s, a)) == Moved(BookOf(s), MoveOf(s, a))
  {
    hide Keep, Discard, RingPush, State.Free, HeldJobs, Entered, PendingJobs;
    WorkersUpdated(s.workers, a.w, Next(s, a).workers[a.w]);
    assert WorkerEnabled(s, a);
  }

  lemma ErasureIsMove(s: State, a: Action)
    requires (a.Cancel? || a.Clear?) && Enabled(s, a)
    ensures CanMove(BookOf(s), MoveOf(s, a))
    ensures BookOf(Next(s, a)) == Moved(BookOf(s), MoveOf(s, a))
  {
    ClientsUpdated(s.clients, a.c, Next(s, a).clients[a.c]);
    if a.Cancel? {
      assert s.jobs - (s.jobs - Keep(s.jobs, s.clients[a.c].root)) == Keep(s.jobs, s.clients[a.c].root);
    } else {
      assert s.jobs - s.jobs == {};
    }
  }

  lemma SubmitIsMove(s: State, a: Action)
    requires (a.Reject? || a.Parse?) && Enabled(s, a)
    ensures CanMove(BookOf(s), MoveOf(s, a))
    ensures BookOf(Next(s, a)) == Moved(BookOf(s), MoveOf(s, a))
  {
    hide Keep, Discard, State.Free, HeldJobs, Entered, PendingJobs;
    ClientsUpdated(s.clients, a.c, Next(s, a).clients[a.c]);
    assert ClientEnabled(s, a);
  }

  lemma PushIsMove(s: State, a: Action)
    requires a.Push? && Enabled(s, a)
    ensures CanMove(BookOf(s), MoveOf(s, a))
    ensures BookOf(Next(s, a)) == Moved(BookOf(s), MoveOf(s, a))
  {
    hide Keep, Discard, State.Free, HeldJobs, Entered, PendingJobs;
    ClientsUpdated(s.clients, a.c, Next(s, a).clients[a.c]);
    assert ClientEnabled(s, a);
    if |s.jobs| < s.limit {
      assert Next(s, a).jobs == s.jobs + {s.clients[a.c].job};
    } else {
      assert Next(s, a).jobs == s.jobs;
    }
  }

  lemma ClientStays(s: State, a: Action)
    requires !a.OfWorker() && !a.Cancel? && !a.Clear? && !a.Reject? && !a.Parse? && !a.Push? && Enabled(s, a)
    ensures BookOf(Next(s, a)) == BookOf(s)
  {
    hide Keep, Discard, State.Free, HeldJobs, Entered, PendingJobs;
    ClientsUpdated(s.clients, a.c, Next(s, a).clients[a.c]);
    assert ClientEnabled(s, a);
  }

  lemma ClientStepIsMove(s: State, a: Action)
    requires !a.OfWorker() && !a.Cancel? && !a.Clear? && Enabled(s, a)
    ensures CanMove(BookOf(s), MoveOf(s, a))
    ensures BookOf(Next(s, a)) == Moved(BookOf(s), MoveOf(s, a))
  {
    if a.Push? {
      PushIsMove(s, a);
    } else if a.Reject? || a.Parse? {
      SubmitIsMove(s, a);
    } else {
      ClientStays(s, a);
    }
    hide ClientNext, BookOf;
  }

  lemma StepIsMove(s: State, a: Action)
    requires Enabled(s, a)
    ensures CanMove(BookOf(s), MoveOf(s, a))
    ensures BookOf(Next(s, a)) == Moved(BookOf(s), MoveOf(s, a))
  {
    if a.OfWorker() {
      WorkerStepIsMove(s, a);
    } else if a.Cancel? || a.Clear? {
      ErasureIsMove(s, a);
    } else {
      ClientStepIsMove(s, a);
    }
  }

  lemma KeepsPartition(s: State, a: Action)
    requires Partitioned(BookOf(s)) && IdsUnique(BookOf(s)) && Enabled(s, a)
    ensures Partitioned(BookOf(Next(s, a))) && IdsUnique(BookOf(Next(s, a)))
    ensures s.stage.Keys <= Next(s, a).stage.Keys
  {
    StepIsMove(s, a);
    var m := MoveOf(s, a);
    MoveKeepsIds(BookOf(s), m);
    if m.Enqueue? || m.Dequeue? || m.Erase? {
      QueueMovePartitioned(BookOf(s), m);
    } else {
      ThreadMovePartitioned(BookOf(s), m);
    }
  }
}
