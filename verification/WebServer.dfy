/** HTTP pipelining: a session reads ahead while responses wait their turn to be written. */
module HttpPipeline {

  type Response = string

  const LIMIT: nat := 8

  /** One connection: the queued responses, the outstanding reads, and a record of every reply in
      request order, of the writes started and of how many of them are done. */
  datatype Session = Session(items: seq<Response>, reading: nat, live: bool,
                             answers: seq<Response>, started: seq<Response>, completed: nat)

  /** A read completes with a request that is answered at once, or a write completes; a response that
      must end the connection closes it. */
  datatype Event = Received(response: Response) | Written(close: bool)

  predicate IsFull(items: seq<Response>) { |items| >= LIMIT }

  function Initial(): Session { Session([], 1, true, [], [], 0) }

  /** Only outstanding operations complete. */
  ghost predicate Enabled(s: Session, e: Event) {
    s.live && match e case Received(_) => s.reading > 0 case Written(_) => |s.started| > s.completed
  }

  function Next(s: Session, e: Event): Session
    requires e.Received? ==> s.reading > 0
  {
    match e
    case Received(r) =>
      var items := s.items + [r];
      s.(items := items, answers := s.answers + [r],
         started := if |items| == 1 then s.started + [items[0]] else s.started,
         reading := if IsFull(items) then s.reading - 1 else s.reading)
    case Written(close) =>
      if close || s.items == [] then s.(live := false, completed := s.completed + 1)
      else
        var items := s.items[1..];
        s.(items := items, completed := s.completed + 1,
           started := if items != [] then s.started + [items[0]] else s.started,
           reading := if IsFull(s.items) then s.reading + 1 else s.reading)
  }

  /** Responses are started in request order, and while the connection lives, at most eight are queued,
      exactly one write is outstanding when any are, exactly one read when there is room, and what is
      queued is exactly what is not yet written. */
  ghost predicate Invariant(s: Session) {
    && |s.started| <= |s.answers| && s.started == s.answers[..|s.started|] && s.completed <= |s.started|
    && (s.live ==>
         && |s.items| <= LIMIT
         && s.items == s.answers[s.completed..]
         && |s.started| - s.completed == (if s.items == [] then 0 else 1)
         && s.reading == (if IsFull(s.items) then 0 else 1))
  }

  lemma ReceivingKeepsInvariant(s: Session, r: Response)
    requires Invariant(s) && Enabled(s, Received(r))
    ensures Invariant(Next(s, Received(r)))
  {
    var s' := Next(s, Received(r));
    assert s'.answers[..|s.started|] == s.answers[..|s.started|];
    assert s'.answers[s.completed..] == s.answers[s.completed..] + [r];
  }

  lemma WritingKeepsInvariant(s: Session, close: bool)
    requires Invariant(s) && Enabled(s, Written(close))
    ensures Invariant(Next(s, Written(close)))
  {
    assert s.items[0] == s.answers[s.completed];
    assert s.items[1..] == s.answers[s.completed + 1..];
    if |s.items| > 1 {
      assert s.answers[s.completed + 1] == s.items[1];
      assert s.answers[..|s.started| + 1] == s.answers[..|s.started|] + [s.answers[|s.started|]];
    }
  }

  lemma KeepsInvariant(s: Session, e: Event)
    requires Invariant(s) && Enabled(s, e)
    ensures Invariant(Next(s, e))
  {
    hide Invariant, Next;
    match e {
      case Received(r) => ReceivingKeepsInvariant(s, r);
      case Written(close) => WritingKeepsInvariant(s, close);
    }
  }

  ghost predicate Legal(s: Session, es: seq<Event>)
    decreases |es|
  {
    es == [] || (Enabled(s, es[0]) && Legal(Next(s, es[0]), es[1..]))
  }

  ghost function Exec(s: Session, es: seq<Event>): Session
    requires Legal(s, es)
    decreases |es|
  {
    if es == [] then s else Exec(Next(s, es[0]), es[1..])
  }

  function Reply(e: Event): seq<Response> {
    if e.Received? then [e.response] else []
  }

  /** The replies a run produces, in the order of the requests. */
  ghost function Replies(es: seq<Event>): seq<Response> {
    if es == [] then [] else Reply(es[0]) + Replies(es[1..])
  }

  lemma NextAnswers(s: Session, e: Event)
    requires Enabled(s, e)
    ensures Next(s, e).answers == s.answers + Reply(e)
  {
  }

  lemma Regroup(a: seq<Response>, b: seq<Response>, c: seq<Response>)
    ensures a + b + c == a + (b + c)
  {
  }

  lemma {:induction false} RunsKeepAnswers(s: Session, es: seq<Event>)
    requires Invariant(s) && Legal(s, es)
    ensures Invariant(Exec(s, es)) && Exec(s, es).answers == s.answers + Replies(es)
    decreases |es|
  {
    hide Invariant, Next, Reply;
    if es == [] {
      assert s.answers + [] == s.answers;
    } else {
      KeepsInvariant(s, es[0]);
      RunsKeepAnswers(Next(s, es[0]), es[1..]);
      NextAnswers(s, es[0]);
      Regroup(s.answers, Reply(es[0]), Replies(es[1..]));
    }
  }

  /** Whole runs: what has been written is a prefix of the replies in request order; while the connection lives,
      at most eight responses are queued, and these are the replies not yet written; a write is outstanding
      exactly when one is queued, a read exactly when fewer than eight are. */
  lemma RunsKeepOrder(es: seq<Event>)
    requires Legal(Initial(), es)
    ensures var s := Exec(Initial(), es);
      && Invariant(s) && s.started <= Replies(es)
      && (s.live ==>
           && |s.items| <= 8 && s.completed <= |Replies(es)| && s.items == Replies(es)[s.completed..]
           && |s.started| - s.completed == (if |s.items| > 0 then 1 else 0)
           && s.reading == (if |s.items| < 8 then 1 else 0))
  {
    RunsKeepAnswers(Initial(), es);
    assert [] + Replies(es) == Replies(es);
  }

  /** The connection is closed by the first write that asks for it and by nothing else. */
  lemma ClosedExactly(es: seq<Event>)
    requires Legal(Initial(), es)
    ensures Exec(Initial(), es).live <==> forall i :: 0 <= i < |es| ==> es[i] != Written(true)
  {
    LivesUntilClosed(Initial(), es);
  }

  lemma {:induction false} LivesUntilClosed(s: Session, es: seq<Event>)
    requires Invariant(s) && Legal(s, es)
    ensures Exec(s, es).live <==> s.live && forall i :: 0 <= i < |es| ==> es[i] != Written(true)
    decreases |es|
  {
    if es != [] {
      KeepsInvariant(s, es[0]);
      LivesUntilClosed(Next(s, es[0]), es[1..]);
      assert Next(s, es[0]).live <==> es[0] != Written(true);
      assert forall i :: 0 <= i < |es[1..]| ==> es[1..][i] == es[i + 1];
      assert forall i :: 1 <= i < |es| ==> es[i] == es[1..][i - 1];
    }
  }

  /** A live connection is never stuck: something is outstanding. */
  lemma AlwaysSomethingOutstanding(s: Session)
    requires Invariant(s) && s.live
    ensures (exists e :: Enabled(s, e) && e.Received?) || (exists e :: Enabled(s, e) && e.Written?)
  {
    if IsFull(s.items) {
      assert Enabled(s, Written(false));
    } else {
      assert Enabled(s, Received(""));
    }
  }

  // ---------- the session ----------

  class HttpSession {
    var items: seq<Response>
    ghost var reading: nat
    ghost var live: bool
    ghost var answers: seq<Response>
    ghost var started: seq<Response>
    ghost var completed: nat

    ghost function View(): Session
      reads this
    {
      Session(items, reading, live, answers, started, completed)
    }

    /** The first read is under way. */
    constructor ()
      ensures View() == Initial() && Invariant(View())
    {
      items, reading, live, answers, started, completed := [], 0, true, [], [], 0;
      new;
      Read();
    }

    method Read()
      modifies this`reading
      ensures reading == old(reading) + 1
    {
      reading := reading + 1;
    }

    method StartWrite()
      requires items != []
      modifies this`started
      ensures started == old(started) + [items[0]]
    {
      started := started + [items[0]];
    }

    /** Queues a response, and starts it if nothing was queued before. */
    method Send(r: Response)
      modifies this`items, this`started, this`answers
      ensures items == old(items) + [r] && answers == old(answers) + [r]
      ensures started == if |items| == 1 then old(started) + [items[0]] else old(started)
    {
      items := items + [r];
      answers := answers + [r];
      if |items| == 1 { StartWrite(); }
    }

    method OnRead(response: Response)
      requires Invariant(View()) && Enabled(View(), Received(response))
      modifies this
      ensures View() == Next(old(View()), Received(response)) && Invariant(View())
    {
      KeepsInvariant(View(), Received(response));
      reading := reading - 1;
      Send(response);
      if !(|items| >= LIMIT) { Read(); }
    }

    /** Drops the response just written and starts the next; tells whether there was no room before. */
    method QueueOnWrite() returns (wasFull: bool)
      requires items != []
      modifies this`items, this`started
      ensures items == old(items)[1..] && wasFull == IsFull(old(items))
      ensures started == if items != [] then old(started) + [items[0]] else old(started)
    {
      wasFull := |items| >= LIMIT;
      items := items[1..];
      if items != [] { StartWrite(); }
    }

    method OnWrite(close: bool)
      requires Invariant(View()) && Enabled(View(), Written(close))
      modifies this
      ensures View() == Next(old(View()), Written(close)) && Invariant(View())
    {
      KeepsInvariant(View(), Written(close));
      completed := completed + 1;
      if close {
        live := false;
        return;
      }
      var wasFull := QueueOnWrite();
      if wasFull { Read(); }
    }
  }
}

/** A WebSocket connection: its send queue and its keep-alive timer. */
module WebSocket {

  type Message = string

  // ---------- the send queue ----------

  /** Messages not yet written, writes outstanding, all messages posted, and for every write completed
      whether it failed. */
  datatype Sending = Sending(queue: seq<Message>, writing: nat, posted: seq<Message>, failures: seq<bool>)

  datatype SendEvent = Post(message: Message) | Written(error: bool)

  const IDLE: Sending := Sending([], 0, [], [])

  predicate CanHappen(q: Sending, e: SendEvent) { e.Written? ==> q.writing > 0 && q.queue != [] }

  function SendNext(q: Sending, e: SendEvent): Sending
    requires CanHappen(q, e)
  {
    match e
    case Post(m) =>
      // a write is started only when nothing was queued
      Sending(q.queue + [m], if q.queue == [] then q.writing + 1 else q.writing, q.posted + [m], q.failures)
    case Written(error) =>
      // after an error the messages behind the failed one stay where they are
      Sending(q.queue[1..], if !error && q.queue[1..] != [] then q.writing else q.writing - 1,
              q.posted, q.failures + [error])
  }

  predicate SendLegal(q: Sending, es: seq<SendEvent>)
    decreases |es|
  {
    es == [] || (CanHappen(q, es[0]) && SendLegal(SendNext(q, es[0]), es[1..]))
  }

  function SendExec(q: Sending, es: seq<SendEvent>): Sending
    requires SendLegal(q, es)
    decreases |es|
  {
    if es == [] then q else SendExec(SendNext(q, es[0]), es[1..])
  }

  /** Messages are queued and none of them is being written. */
  predicate Stalled(q: Sending) { q.queue != [] && q.writing == 0 }

  /** Nothing is lost or reordered, and one write is outstanding exactly when messages are queued, unless
      they are stalled. */
  ghost predicate SendFits(q: Sending) {
    && |q.failures| <= |q.posted| && q.queue == q.posted[|q.failures|..]
    && (!Stalled(q) ==> q.writing == if q.queue == [] then 0 else 1)
  }

  lemma KeepsSendFits(q: Sending, e: SendEvent)
    requires SendFits(q) && CanHappen(q, e)
    ensures SendFits(SendNext(q, e))
    ensures Stalled(SendNext(q, e)) <==> Stalled(q) || (e == Written(true) && |q.queue| > 1)
  {
  }

  /** Some write of the run completes with an error while other messages are queued. */
  predicate FailsWithMore(q: Sending, es: seq<SendEvent>)
    requires SendLegal(q, es)
    decreases |es|
  {
    es != [] && ((es[0] == Written(true) && |q.queue| > 1) || FailsWithMore(SendNext(q, es[0]), es[1..]))
  }

  lemma {:induction false} StallsExactly(q: Sending, es: seq<SendEvent>)
    requires SendFits(q) && SendLegal(q, es)
    ensures SendFits(SendExec(q, es))
    ensures Stalled(SendExec(q, es)) <==> Stalled(q) || FailsWithMore(q, es)
    decreases |es|
  {
    if es != [] {
      KeepsSendFits(q, es[0]);
      StallsExactly(SendNext(q, es[0]), es[1..]);
    }
  }

  function Posts(es: seq<SendEvent>): seq<Message> {
    if es == [] then [] else (if es[0].Post? then [es[0].message] else []) + Posts(es[1..])
  }

  lemma {:induction false} PostsArrive(q: Sending, es: seq<SendEvent>)
    requires SendLegal(q, es)
    ensures SendExec(q, es).posted == q.posted + Posts(es)
    decreases |es|
  {
    if es != [] { PostsArrive(SendNext(q, es[0]), es[1..]); }
  }

  /** In every run from the start: the messages are written in the order posted, and the queue holds those
      whose write is not completed. It is stalled if and only if some write completed with an error while
      other messages were queued; otherwise one write is outstanding exactly when messages are queued. */
  lemma SendRuns(es: seq<SendEvent>)
    requires SendLegal(IDLE, es)
    ensures var q := SendExec(IDLE, es);
      && q.posted == Posts(es) && |q.failures| <= |q.posted| && q.queue == q.posted[|q.failures|..]
      && (Stalled(q) <==> FailsWithMore(IDLE, es))
      && (!Stalled(q) ==> q.writing == if q.queue == [] then 0 else 1)
  {
    StallsExactly(IDLE, es);
    PostsArrive(IDLE, es);
    assert [] + Posts(es) == Posts(es);
  }

  /** A stalled queue stays stalled: whatever happens from then on, no write completes or is started, and
      everything posted is left in the queue. */
  lemma {:induction false} StalledForGood(q: Sending, es: seq<SendEvent>)
    requires Stalled(q) && SendLegal(q, es)
    ensures var end := SendExec(q, es);
      Stalled(end) && end.failures == q.failures && end.queue == q.queue + Posts(es)
    ensures forall k :: 0 <= k < |es| ==> es[k].Post?
    decreases |es|
  {
    if es != [] {
      StalledForGood(SendNext(q, es[0]), es[1..]);
      forall k | 0 <= k < |es|
        ensures es[k].Post?
      {
        if k > 0 { assert es[k] == es[1..][k - 1]; }
      }
    }
  }

  /** Two messages are posted and the first write fails. */
  lemma StallWitness(a: Message, b: Message)
    ensures var es := [Post(a), Post(b), Written(true)];
      SendLegal(IDLE, es) && FailsWithMore(IDLE, es) && Stalled(SendExec(IDLE, es)) && SendExec(IDLE, es).queue == [b]
  {
    var es := [Post(a), Post(b), Written(true)];
    var q1 := SendNext(IDLE, es[0]);
    var q2 := SendNext(q1, es[1]);
    var q3 := SendNext(q2, es[2]);
    assert q1 == Sending([a], 1, [a], []) && q2 == Sending([a, b], 1, [a, b], []);
    assert q3 == Sending([b], 0, [a, b], [true]);
    assert es[1..] == [es[1], es[2]] && es[1..][1..] == [es[2]] && es[1..][1..][1..] == [];
    assert SendLegal(q3, []) && SendExec(q3, []) == q3;
    assert SendLegal(q2, es[1..][1..]) && SendExec(q2, es[1..][1..]) == q3 && FailsWithMore(q2, es[1..][1..]);
    assert SendLegal(q1, es[1..]) && SendExec(q1, es[1..]) == q3 && FailsWithMore(q1, es[1..]);
  }

  function Failures(es: seq<SendEvent>): nat {
    if es == [] then 0 else (if es[0] == Written(true) then 1 else 0) + Failures(es[1..])
  }

  lemma {:induction false} NoFailures(q: Sending, es: seq<SendEvent>)
    requires SendLegal(q, es) && Failures(es) == 0
    ensures !FailsWithMore(q, es)
    decreases |es|
  {
    if es != [] { NoFailures(SendNext(q, es[0]), es[1..]); }
  }

  ghost predicate FlowsUpTo(k: nat) {
    forall es :: SendLegal(IDLE, es) && Failures(es) <= k ==> !Stalled(SendExec(IDLE, es))
  }

  /** The queue keeps flowing in all runs with up to `k` failed writes if and only if `k` is zero. */
  lemma FailuresExactly(k: nat)
    ensures FlowsUpTo(k) <==> k == 0
  {
    if k == 0 {
      forall es | SendLegal(IDLE, es) && Failures(es) <= 0
        ensures !Stalled(SendExec(IDLE, es))
      {
        SendRuns(es);
        NoFailures(IDLE, es);
      }
    } else {
      var es := [Post(""), Post(""), Written(true)];
      StallWitness("", "");
      assert es[1..][1..] == [es[2]] && es[1..][1..][1..] == [];
      assert Failures(es) == 1;
    }
  }

  class SendQueue {
    var queue: seq<Message>
    ghost var writing: nat
    ghost var posted: seq<Message>
    ghost var failures: seq<bool>

    ghost function View(): Sending
      reads this
    {
      Sending(queue, writing, posted, failures)
    }

    constructor ()
      ensures View() == IDLE
    {
      queue, writing, posted, failures := [], 0, [], [];
    }

    method WriteResponse(message: Message)
      requires SendFits(View())
      modifies this
      ensures View() == SendNext(old(View()), Post(message)) && SendFits(View())
    {
      KeepsSendFits(View(), Post(message));
      var writeInProgress := queue != [];
      queue := queue + [message];
      posted := posted + [message];
      if !writeInProgress { WriteQueuedMessages(); }
    }

    /** The message at the front is written. */
    method WriteQueuedMessages()
      requires queue != [] && writing == 0
      modifies this`writing
      ensures writing == 1
    {
      writing := writing + 1;
    }

    method OnWritten(error: bool)
      requires SendFits(View()) && CanHappen(View(), Written(error))
      modifies this
      ensures View() == SendNext(old(View()), Written(error)) && SendFits(View())
    {
      KeepsSendFits(View(), Written(error));
      writing := writing - 1;
      queue := queue[1..];
      failures := failures + [error];
      if !error {
        if queue != [] { WriteQueuedMessages(); }
      }
    }
  }

  // ---------- the keep-alive timer ----------

  const INTERVAL: nat := 15

  /** The keep-alive state, times in seconds. `last` is the time of the last activity of the peer, or
      of the start of the handshake. */
  datatype KeepAlive = KeepAlive(pingState: nat, expiry: int, open: bool, closed: bool, last: int, now: int)

  datatype Event = Opened | Activity | Timer | PingSent

  function Started(now: int): KeepAlive {
    KeepAlive(0, now + INTERVAL, false, false, now, now)
  }

  /** What an event at time `now` does. */
  function Step(k: KeepAlive, e: Event, now: int): KeepAlive {
    var t := k.(now := now);
    match e
    case Opened => t.(open := true)
    case Activity => t.(pingState := 0, expiry := now + INTERVAL, last := now)
    case PingSent => if k.pingState == 1 then t.(pingState := 2) else t
    case Timer =>
      if k.expiry > now then t
      else if k.open && k.pingState == 0 then t.(pingState := 1, expiry := now + INTERVAL)
      else t.(closed := true)
  }

  /** Before a ping the deadline is 15 seconds after the last activity, afterwards at least 30. */
  ghost predicate DeadlineFits(k: KeepAlive) {
    && (k.pingState == 0 ==> k.expiry == k.last + INTERVAL)
    && (k.pingState != 0 ==> k.open && k.expiry >= k.last + 2 * INTERVAL)
    && k.last <= k.now
    && (k.closed ==> k.now >= k.last + if k.open then 2 * INTERVAL else INTERVAL)
  }

  lemma KeepsDeadline(k: KeepAlive, e: Event, now: int)
    requires DeadlineFits(k) && !k.closed && k.now <= now
    ensures DeadlineFits(Step(k, e, now))
  {
  }

  ghost predicate InOrder(k: KeepAlive, es: seq<(Event, int)>)
    decreases |es|
  {
    es == [] || (!k.closed && k.now <= es[0].1 && InOrder(Step(k, es[0].0, es[0].1), es[1..]))
  }

  ghost function Exec(k: KeepAlive, es: seq<(Event, int)>): KeepAlive
    decreases |es|
  {
    if es == [] then k else Exec(Step(k, es[0].0, es[0].1), es[1..])
  }

  /** No activity of the peer at or after a time. */
  ghost predicate QuietSince(es: seq<(Event, int)>, from: int) {
    forall i :: 0 <= i < |es| && es[i].0.Activity? ==> es[i].1 <= from
  }

  lemma {:induction false} LastIsLast(k: KeepAlive, es: seq<(Event, int)>)
    requires InOrder(k, es) && k.last <= k.now
    ensures QuietSince(es, Exec(k, es).last) && k.last <= Exec(k, es).last
    decreases |es|
  {
    if es != [] {
      var next := Step(k, es[0].0, es[0].1);
      LastIsLast(next, es[1..]);
      forall i | 0 <= i < |es| && es[i].0.Activity?
        ensures es[i].1 <= Exec(k, es).last
      {
        if i > 0 { assert es[i] == es[1..][i - 1]; }
      }
    }
  }

  lemma {:induction false} RunKeepsDeadline(k: KeepAlive, es: seq<(Event, int)>)
    requires DeadlineFits(k) && InOrder(k, es)
    ensures DeadlineFits(Exec(k, es))
    decreases |es|
  {
    if es != [] {
      KeepsDeadline(k, es[0].0, es[0].1);
      RunKeepsDeadline(Step(k, es[0].0, es[0].1), es[1..]);
    }
  }

  ghost predicate Opens(es: seq<(Event, int)>) {
    exists i :: 0 <= i < |es| && es[i].0.Opened?
  }

  lemma {:induction false} OpenExactly(k: KeepAlive, es: seq<(Event, int)>)
    requires InOrder(k, es)
    ensures Exec(k, es).open <==> k.open || Opens(es)
    decreases |es|
  {
    if es != [] {
      OpenExactly(Step(k, es[0].0, es[0].1), es[1..]);
      if i :| 0 <= i < |es| && es[i].0.Opened? {
        if i > 0 { assert es[1..][i - 1].0.Opened?; }
      }
    }
  }

  lemma {:induction false} NowIsLatest(k: KeepAlive, es: seq<(Event, int)>)
    requires InOrder(k, es) && es != []
    ensures Exec(k, es).now == es[|es| - 1].1
    decreases |es|
  {
    if |es| > 1 { NowIsLatest(Step(k, es[0].0, es[0].1), es[1..]); }
  }

  /** In every run, the timer closes a connection whose handshake has completed only at least 30 seconds after
      its start and after each activity of the peer, and one still in its handshake only after at least 15. */
  lemma ClosesOnlyTheSilent(start: int, es: seq<(Event, int)>)
    requires InOrder(Started(start), es) && Exec(Started(start), es).closed
    ensures es != []
    ensures var end, silence := es[|es| - 1].1, if Opens(es) then 30 else 15;
      end >= start + silence && forall i :: 0 <= i < |es| && es[i].0.Activity? ==> end >= es[i].1 + silence
  {
    RunKeepsDeadline(Started(start), es);
    LastIsLast(Started(start), es);
    OpenExactly(Started(start), es);
    NowIsLatest(Started(start), es);
  }

  ghost predicate DueAt(es: seq<(Event, int)>, i: int, time: int) {
    0 <= i < |es| && es[i].0.Timer? && es[i].1 >= time
  }

  /** The timer goes off at or after `time`, and again at least 15 seconds later. */
  ghost predicate DueTwice(es: seq<(Event, int)>, i: int, j: int, time: int) {
    i < j && DueAt(es, i, time) && DueAt(es, j, es[i].1 + 15)
  }

  lemma {:induction false} TimesAscend(k: KeepAlive, es: seq<(Event, int)>)
    requires InOrder(k, es)
    ensures forall i :: 0 <= i < |es| ==> k.now <= es[i].1
    decreases |es|
  {
    if es != [] {
      TimesAscend(Step(k, es[0].0, es[0].1), es[1..]);
      forall i | 0 <= i < |es|
        ensures k.now <= es[i].1
      {
        if i > 0 { assert es[i] == es[1..][i - 1]; }
      }
    }
  }

  lemma DueLater(es: seq<(Event, int)>, i: int, time: int)
    requires es != []
    ensures DueAt(es[1..], i, time) <==> i >= 0 && DueAt(es, i + 1, time)
  {
  }

  /** After a ping was sent or is under way, an open connection whose peer stays silent is closed in a run
      if and only if the timer goes off at or after the deadline. */
  lemma {:induction false} PingedIsClosed(k: KeepAlive, es: seq<(Event, int)>)
    requires k.open && !k.closed && k.pingState != 0 && InOrder(k, es)
    requires forall i :: 0 <= i < |es| ==> !es[i].0.Activity?
    ensures Exec(k, es).closed <==> exists i :: DueAt(es, i, k.expiry)
    decreases |es|
  {
    if es != [] {
      var next := Step(k, es[0].0, es[0].1);
      if next.closed {
        assert es[1..] == [] && DueAt(es, 0, k.expiry);
      } else {
        PingedIsClosed(next, es[1..]);
        if i :| DueAt(es[1..], i, k.expiry) { DueLater(es, i, k.expiry); }
        if i :| DueAt(es, i, k.expiry) { DueLater(es, i - 1, k.expiry); }
      }
    }
  }

  /** A silent open connection is closed in a run, whatever pings and early timer events it has, if and only
      if the timer goes off at or after the deadline, and again 15 seconds after that or later. */
  lemma {:induction false} SilentIsClosed(k: KeepAlive, es: seq<(Event, int)>)
    requires k.open && !k.closed && k.pingState == 0 && InOrder(k, es)
    requires forall i :: 0 <= i < |es| ==> !es[i].0.Activity?
    ensures Exec(k, es).closed <==>
      exists i, j :: DueTwice(es, i, j, k.expiry)
    decreases |es|
  {
    if es != [] {
      var next := Step(k, es[0].0, es[0].1);
      if next.pingState != 0 {
        PingedIsClosed(next, es[1..]);
        TimesAscend(next, es[1..]);
        assert DueAt(es, 0, k.expiry);
        if j :| DueAt(es[1..], j, next.expiry) {
          DueLater(es, j, es[0].1 + 15);
          assert DueTwice(es, 0, j + 1, k.expiry);
        }
        if i, j :| DueTwice(es, i, j, k.expiry) {
          assert es[i].1 >= es[0].1 by { if i > 0 { assert es[i] == es[1..][i - 1]; } }
          DueLater(es, j - 1, es[0].1 + 15);
        }
      } else {
        SilentIsClosed(next, es[1..]);
        if i, j :| DueTwice(es[1..], i, j, k.expiry) {
          DueLater(es, i, k.expiry);
          DueLater(es, j, es[i + 1].1 + 15);
          assert DueTwice(es, i + 1, j + 1, k.expiry);
        }
        if i, j :| DueTwice(es, i, j, k.expiry) {
          DueLater(es, i - 1, k.expiry);
          DueLater(es, j - 1, es[i].1 + 15);
          assert DueTwice(es[1..], i - 1, j - 1, k.expiry);
        }
      }
    }
  }

  /** The last activity of an open connection, and silence after it: the connection is closed if and only if the
      timer goes off 15 seconds after the activity or later, and again 15 seconds after that or later. */
  lemma SilentSinceActivity(k: KeepAlive, time: int, es: seq<(Event, int)>, due: int)
    requires k.open && InOrder(k, [(Activity, time)] + es) && due == time + 15
    requires forall i :: 0 <= i < |es| ==> !es[i].0.Activity?
    ensures Exec(k, [(Activity, time)] + es).closed <==> exists i, j :: DueTwice(es, i, j, due)
  {
    ActivityFirst(k, time, es);
    hide Exec, InOrder, DueTwice;
    SilentIsClosed(Step(k, Activity, time), es);
  }

  lemma ActivityFirst(k: KeepAlive, time: int, es: seq<(Event, int)>)
    requires InOrder(k, [(Activity, time)] + es)
    ensures !k.closed && InOrder(Step(k, Activity, time), es)
    ensures Exec(k, [(Activity, time)] + es) == Exec(Step(k, Activity, time), es)
  {
    var all := [(Activity, time)] + es;
    assert all[0] == (Activity, time) && all[1..] == es;
  }

  class KeepAliveTimer {
    var pingState: nat
    var expiry: int
    var open: bool
    var closed: bool
    ghost var last: int
    ghost var now: int

    ghost function View(): KeepAlive
      reads this
    {
      KeepAlive(pingState, expiry, open, closed, last, now)
    }

    /** The handshake starts. */
    constructor (time: int)
      ensures View() == Started(time)
    {
      pingState, expiry, open, closed, last, now := 0, time + INTERVAL, false, false, time, time;
    }

    method OnTimer(time: int)
      requires DeadlineFits(View()) && !closed && now <= time
      modifies this
      ensures View() == Step(old(View()), Timer, time) && DeadlineFits(View())
      ensures closed && open ==> time >= last + 30
    {
      KeepsDeadline(View(), Timer, time);
      now := time;
      if expiry <= time {
        if open && pingState == 0 {
          pingState := 1;
          expiry := time + INTERVAL;
        } else {
          closed := true;
        }
      }
    }

    method OnActivity(time: int)
      requires DeadlineFits(View()) && !closed && now <= time
      modifies this
      ensures View() == Step(old(View()), Activity, time) && DeadlineFits(View())
    {
      now, last := time, time;
      pingState := 0;
      expiry := time + INTERVAL;
    }

    method OnPing(time: int)
      requires DeadlineFits(View()) && !closed && now <= time
      modifies this
      ensures View() == Step(old(View()), PingSent, time) && DeadlineFits(View())
    {
      now := time;
      if pingState == 1 { pingState := 2; }
    }

    method OnAccept(time: int)
      requires DeadlineFits(View()) && !closed && now <= time
      modifies this
      ensures View() == Step(old(View()), Opened, time) && DeadlineFits(View())
    {
      now := time;
      open := true;
    }
  }
}
