/** The work handler as a protocol: request threads that submit, cancel, clear and inspect, and a
    thread pool with one thread per device, interleaved at every lock, exchange and post. A mutex
    is held by the thread whose program point lies between its lock and its unlock. */
module Scheduler {
  import opened Wrappers
  import opened JobQueue

  datatype Mutex = JobsMutex | ActiveMutex | CompletedMutex

  datatype Thread = PoolThread(w: nat) | RequestThread(c: nat)

  /** Program points of a pool thread. `req` is the request whose handler it will call;
      the job it works on is whichever left the queue first. */
  datatype Worker =
    | Idle
    | WaitPop(req: nat)
    | Popping(req: nat)
    | Scanning(req: nat, job: Job, index: nat)
    | Acquired(req: nat, job: Job, device: nat)
    | Inserting(req: nat, job: Job, device: nat)
    | Working(req: nat, job: Job, device: nat)
    | Replied(req: nat, job: Job, device: nat)
    | Released(req: nat, job: Job)
    | HalfLocked(req: nat, job: Job)
    | Retiring(req: nat, job: Job)
  {
    predicate Holds(m: Mutex) {
      match m
      case JobsMutex => Popping?
      case ActiveMutex => Inserting? || HalfLocked? || Retiring?
      case CompletedMutex => Retiring?
    }

    function Wants(): Option<Mutex> {
      match this
      case WaitPop(_) => Some(JobsMutex)
      case Acquired(_, _, _) => Some(ActiveMutex)
      case Released(_, _) => Some(ActiveMutex)
      case HalfLocked(_, _) => Some(CompletedMutex)
      case _ => None
    }

    /** The point after the wanted mutex is granted. */
    function Granted(): Worker {
      match this
      case WaitPop(r) => Popping(r)
      case Acquired(r, j, d) => Inserting(r, j, d)
      case Released(r, j) => HalfLocked(r, j)
      case HalfLocked(r, j) => Retiring(r, j)
      case _ => this
    }

    /** How far along the device list the thread is: the index scanned or the device held. */
    function Position(): int {
      match this
      case Scanning(_, _, i) => i
      case Acquired(_, _, d) => d
      case Inserting(_, _, d) => d
      case Working(_, _, d) => d
      case Replied(_, _, d) => d
      case _ => -1
    }

    predicate HasDevice() { Acquired? || Inserting? || Working? || Replied? }

    predicate Starting() { WaitPop? || Popping? }

    function Job(): Option<Job> {
      match this
      case Idle => None
      case WaitPop(_) => None
      case Popping(_) => None
      case _ => Some(job)
    }

    /** The thread's job is in the active set. */
    predicate IsActive() { Working? || Replied? || Released? || HalfLocked? || Retiring? }

    /** The request has been answered, and the job is still to be retired. */
    predicate HasReplied() { Replied? || Released? || HalfLocked? || Retiring? }

    /** A statement that can throw is next, after the device was acquired. */
    predicate CanThrow() { HasDevice() || Released? || HalfLocked? }

    function Debt(): Debt {
      if Idle? then Nothing else if HasReplied() then Settled(req) else Owing(req)
    }
  }

  /** What a pool thread has to do with a request: answer it, or finish after having answered it. */
  datatype Debt = Nothing | Owing(req: nat) | Settled(req: nat)

  /** Program points of a request thread. */
  datatype Client =
    | Resting
    | Parsing(req: nat)
    | WaitPush(req: nat, job: Job)
    | Pushing(req: nat, job: Job)
    | Pushed(req: nat)
    | Refused(req: nat)
    | WaitCancel(root: nat)
    | Cancelling(root: nat)
    | WaitClear
    | Clearing
    | SnapStart
    | SnapJobs
    | SnapActive
    | SnapAll
    | SnapCopied(queued: set<Job>)
  {
    predicate Holds(m: Mutex) {
      match m
      case JobsMutex => Pushing? || Cancelling? || Clearing? || SnapJobs? || SnapActive? || SnapAll?
      case ActiveMutex => SnapActive? || SnapAll? || SnapCopied?
      case CompletedMutex => SnapAll? || SnapCopied?
    }

    function Wants(): Option<Mutex> {
      match this
      case WaitPush(_, _) => Some(JobsMutex)
      case WaitCancel(_) => Some(JobsMutex)
      case WaitClear => Some(JobsMutex)
      case SnapStart => Some(JobsMutex)
      case SnapJobs => Some(ActiveMutex)
      case SnapActive => Some(CompletedMutex)
      case _ => None
    }

    function Granted(): Client {
      match this
      case WaitPush(r, j) => Pushing(r, j)
      case WaitCancel(root) => Cancelling(root)
      case WaitClear => Clearing
      case SnapStart => SnapJobs
      case SnapJobs => SnapActive
      case SnapActive => SnapAll
      case _ => this
    }

    function Owes(): Option<nat> {
      match this
      case Parsing(r) => Some(r)
      case WaitPush(r, _) => Some(r)
      case Pushing(r, _) => Some(r)
      case Pushed(r) => Some(r)
      case Refused(r) => Some(r)
      case _ => None
    }

    /** A job constructed by this thread and not yet pushed. */
    function Pending(): Option<Job> {
      match this
      case WaitPush(_, j) => Some(j)
      case Pushing(_, j) => Some(j)
      case _ => None
    }
  }

  /** Where an accepted job is. `Lost` is the fate of a job whose pool task was cut short by an exception. */
  datatype Stage = Queued | InProgress(w: nat) | Completed | Removed | Lost

  /** Who is going to answer a request. Once answered, its pool thread may still be retiring the job,
      and an exception there answers it again. */
  datatype Place = AtClient(c: nat) | InPool | AtWorker(w: nat) | AnsweredBy(w: nat) | Answered | AnsweredTwice

  datatype Snapshot = Snapshot(queued: set<Job>, active: set<Job>, completed: seq<Job>)

  const RING_CAPACITY: nat := 128

  /** The shared state, the threads, and a record of what happened: the stage of every accepted
      job, the place of every request, the answers sent and the snapshots shown. */
  datatype State = State(
    busy: seq<bool>, workers: seq<Worker>, clients: seq<Client>,
    jobs: set<Job>, tasks: set<nat>, active: set<Job>, completed: seq<Job>,
    limit: nat, nextId: nat, nextReq: nat,
    stage: map<Job, Stage>, place: map<nat, Place>, answers: multiset<nat>,
    snapshots: seq<Snapshot>)
  {
    predicate IsThread(t: Thread) {
      match t
      case PoolThread(w) => w < |workers|
      case RequestThread(c) => c < |clients|
    }

    predicate Holds(t: Thread, m: Mutex)
      requires IsThread(t)
    {
      match t
      case PoolThread(w) => workers[w].Holds(m)
      case RequestThread(c) => clients[c].Holds(m)
    }

    function Wants(t: Thread): Option<Mutex>
      requires IsThread(t)
    {
      match t
      case PoolThread(w) => workers[w].Wants()
      case RequestThread(c) => clients[c].Wants()
    }

    ghost predicate Free(m: Mutex) {
      forall t :: IsThread(t) ==> !Holds(t, m)
    }

    function Worker(w: nat, p: Worker): State
      requires w < |workers|
    {
      this.(workers := workers[w := p])
    }

    function Client(c: nat, p: Client): State
      requires c < |clients|
    {
      this.(clients := clients[c := p])
    }

    function Answer(r: nat, p: Place): State {
      this.(answers := answers + multiset{r}, place := place[r := p])
    }
  }

  datatype Action =
    // pool threads
    | Take(w: nat, req: nat)
    | LockWorker(w: nat)
    | FindEmpty(w: nat)
    | Pop(w: nat, job: Job)
    | Probe(w: nat)
    | RunOff(w: nat)
    | Insert(w: nat)
    | Reply(w: nat)
    | Release(w: nat)
    | Retire(w: nat)
    | Throw(w: nat)
    // request threads
    | Begin(c: nat)
    | Reject(c: nat, usedId: bool)
    | Parse(c: nat, priority: nat, root: nat)
    | LockClient(c: nat)
    | Push(c: nat)
    | Post(c: nat)
    | Refuse(c: nat)
    | BeginCancel(c: nat, root: nat)
    | Cancel(c: nat)
    | BeginClear(c: nat)
    | Clear(c: nat)
    | BeginSnapshot(c: nat)
    | CopyJobs(c: nat)
    | Show(c: nat)
  {
    /** A new request of some kind arrives. */
    predicate IsArrival() { Begin? || BeginCancel? || BeginClear? || BeginSnapshot? }

    /** An exception cuts a pool task short. */
    predicate IsException() { Throw? || RunOff? }

    predicate OfWorker() {
      || Take? || LockWorker? || FindEmpty? || Pop? || Probe? || RunOff?
      || Insert? || Reply? || Release? || Retire? || Throw?
    }
  }

  ghost predicate Enabled(s: State, a: Action) {
    if a.OfWorker() then a.w < |s.workers| && WorkerEnabled(s, a) else a.c < |s.clients| && ClientEnabled(s, a)
  }

  ghost predicate WorkerEnabled(s: State, a: Action)
    requires a.OfWorker() && a.w < |s.workers|
  {
    var p := s.workers[a.w];
    match a
    case Take(_, r) => p.Idle? && r in s.tasks
    case LockWorker(_) => p.Wants().Some? && s.Free(p.Wants().value)
    case FindEmpty(_) => p.Popping? && s.jobs == {}
    case Pop(_, j) => p.Popping? && IsTop(s.jobs, j)
    case Probe(_) => p.Scanning? && p.index < |s.busy|
    case RunOff(_) => p.Scanning? && p.index >= |s.busy|
    case Insert(_) => p.Inserting?
    case Reply(_) => p.Working?
    case Release(_) => p.Replied?
    case Retire(_) => p.Retiring?
    case Throw(_) => p.CanThrow()
  }

  ghost predicate ClientEnabled(s: State, a: Action)
    requires !a.OfWorker() && a.c < |s.clients|
  {
    var p := s.clients[a.c];
    match a
    case Begin(_) => p.Resting?
    case Reject(_, _) => p.Parsing?
    case Parse(_, _, _) => p.Parsing? && |s.busy| > 0
    case LockClient(_) => p.Wants().Some? && s.Free(p.Wants().value)
    case Push(_) => p.Pushing?
    case Post(_) => p.Pushed?
    case Refuse(_) => p.Refused?
    case BeginCancel(_, _) => p.Resting?
    case Cancel(_) => p.Cancelling?
    case BeginClear(_) => p.Resting?
    case Clear(_) => p.Clearing?
    case BeginSnapshot(_) => p.Resting?
    case CopyJobs(_) => p.SnapAll?
    case Show(_) => p.SnapCopied?
  }

  ghost function Next(s: State, a: Action): State
    requires Enabled(s, a)
  {
    if a.OfWorker() then WorkerNext(s, a) else ClientNext(s, a)
  }

  ghost function WorkerNext(s: State, a: Action): State
    requires a.OfWorker() && a.w < |s.workers| && WorkerEnabled(s, a)
  {
    var w := a.w;
    var p := s.workers[w];
    match a
    case Take(_, r) => s.Worker(w, WaitPop(r)).(tasks := s.tasks - {r}, place := s.place[r := AtWorker(w)])
    case LockWorker(_) => s.Worker(w, p.Granted())
    case FindEmpty(_) => s.Worker(w, Idle).Answer(p.req, Answered)
    case Pop(_, j) =>
      s.Worker(w, Scanning(p.req, j, 0)).(jobs := s.jobs - {j}, stage := s.stage[j := InProgress(w)])
    case Probe(_) =>
      // the flag is exchanged for true; a device that was free now belongs to this thread
      s.Worker(w, if s.busy[p.index] then Scanning(p.req, p.job, p.index + 1) else Acquired(p.req, p.job, p.index))
       .(busy := s.busy[p.index := true])
    case RunOff(_) => s.Worker(w, Idle).Answer(p.req, Answered).(stage := s.stage[p.job := Lost])
    case Insert(_) => s.Worker(w, Working(p.req, p.job, p.device)).(active := s.active + {p.job})
    case Reply(_) => s.Worker(w, Replied(p.req, p.job, p.device)).Answer(p.req, AnsweredBy(w))
    case Release(_) =>
      s.Worker(w, Released(p.req, p.job))
       .(busy := if p.device < |s.busy| then s.busy[p.device := false] else s.busy)
    case Retire(_) =>
      s.Worker(w, Idle).(active := s.active - {p.job}, completed := RingPush(s.completed, p.job),
                         stage := s.stage[p.job := Completed], place := s.place[p.req := Answered])
    case Throw(_) =>
      // the catch handler answers, whether or not that was done before; the busy flag and the
      // active set stay as they are
      s.Worker(w, Idle).Answer(p.req, if p.HasReplied() then AnsweredTwice else Answered)
       .(stage := s.stage[p.job := Lost])
  }

  ghost function ClientNext(s: State, a: Action): State
    requires !a.OfWorker() && a.c < |s.clients| && ClientEnabled(s, a)
  {
    var c := a.c;
    var p := s.clients[c];
    match a
    case Begin(_) =>
      s.Client(c, Parsing(s.nextReq)).(nextReq := s.nextReq + 1, place := s.place[s.nextReq := AtClient(c)])
    case Reject(_, usedId) =>
      s.Client(c, Resting).Answer(p.req, Answered).(nextId := s.nextId + if usedId then 1 else 0)
    case Parse(_, priority, root) =>
      s.Client(c, WaitPush(p.req, Job(s.nextId, priority, root))).(nextId := s.nextId + 1)
    case LockClient(_) => s.Client(c, p.Granted())
    case Push(_) =>
      if |s.jobs| < s.limit then
        s.Client(c, Pushed(p.req)).(jobs := s.jobs + {p.job}, stage := s.stage[p.job := Queued])
      else s.Client(c, Refused(p.req))
    case Post(_) => s.Client(c, Resting).(tasks := s.tasks + {p.req}, place := s.place[p.req := InPool])
    case Refuse(_) => s.Client(c, Resting).Answer(p.req, Answered)
    case BeginCancel(_, root) => s.Client(c, WaitCancel(root))
    case Cancel(_) =>
      s.Client(c, Resting)
       .(jobs := Keep(s.jobs, p.root), stage := Discard(s.stage, s.jobs - Keep(s.jobs, p.root)))
    case BeginClear(_) => s.Client(c, WaitClear)
    case Clear(_) => s.Client(c, Resting).(jobs := {}, stage := Discard(s.stage, s.jobs))
    case BeginSnapshot(_) => s.Client(c, SnapStart)
    case CopyJobs(_) => s.Client(c, SnapCopied(s.jobs))
    case Show(_) => s.Client(c, Resting).(snapshots := s.snapshots + [Snapshot(p.queued, s.active, s.completed)])
  }

  /** The ring keeps the most recent entries. */
  function RingPush(ring: seq<Job>, j: Job): seq<Job> {
    (if |ring| >= RING_CAPACITY then ring[1..] else ring) + [j]
  }

  ghost function Discard(stage: map<Job, Stage>, gone: set<Job>): map<Job, Stage> {
    map j | j in stage.Keys :: if j in gone then Removed else stage[j]
  }

  function Initial(devices: nat, requestThreads: nat, limit: nat): State {
    State(seq(devices, _ => false), seq(devices, _ => Idle), seq(requestThreads, _ => Resting),
          {}, {}, {}, [], limit, 1, 0, map[], map[], multiset{}, [])
  }

  ghost predicate Legal(s: State, acts: seq<Action>)
    decreases |acts|
  {
    acts == [] || (Enabled(s, acts[0]) && Legal(Next(s, acts[0]), acts[1..]))
  }

  ghost function Exec(s: State, acts: seq<Action>): State
    requires Legal(s, acts)
    decreases |acts|
  {
    if acts == [] then s else Exec(Next(s, acts[0]), acts[1..])
  }
}
