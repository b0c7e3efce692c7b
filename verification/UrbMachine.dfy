/**
 * The URB handler (server/urb_handler.c) as a transition system. Two threads run it: the session thread
 * that submits, unlinks, reaps and stops, and the worker. An atomic step is one locked queue region, one
 * event operation, or one access to the running flag, so an entry on its way from one queue to the other
 * is held by a thread and is in neither queue.
 */
module UrbMachine {
  import opened Bytes
  import opened Seqs
  import opened Structs
  import opened Urbs

  /** Where the worker is in `urb_worker_thread`, with the entry it holds. */
  datatype Worker = NotStarted | Checking | Popping | Waiting | Executing(urb: Urb) | Completing(urb: Urb) | Exited

  /** Where the session thread is, with the entry it holds. */
  datatype Session = Idle | Signalling | Unlinking(urb: Urb) | Answering(urb: Urb)
                   | StopSignalling | Joining | CancelPopping | Cancelling(urb: Urb) | Closed

  /**
   * What has happened so far: accepted requests, the ids passed to the device with the outcome of each, and
   * the cancelled ids, in order; the entries freed after an answer attempt, those freed by clean-up from each
   * queue, the answers sent (with the position of the answered entry among the freed ones), and the session's
   * byte counter.
   */
  datatype History = History(requests: seq<Request>, executed: seq<nat>, outcomes: seq<DeviceResult>,
                             cancelled: seq<nat>, freed: seq<Urb>, droppedPending: seq<Urb>,
                             droppedCompleted: seq<Urb>, answered: seq<nat>, replies: seq<Reply>, bytesSent: nat)

  /** The shared state, the two threads, and the history. */
  datatype State = State(pending: seq<Urb>, completed: seq<Urb>, event: bool, running: bool,
                         worker: Worker, session: Session, h: History)

  const UINT64: nat := 0x1_0000_0000_0000_0000

  /** A total as a 64-bit counter holds it. */
  function Wrapped(total: nat): nat {
    if total < UINT64 then total else Wrapped(total - UINT64)
  }

  function Init(): State {
    State([], [], false, false, NotStarted, Idle, History([], [], [], [], [], [], [], [], [], 0))
  }

  // ---- Queue operations ----

  /** The position of the first entry with a sequence number, or the length if there is none. */
  function FirstMatch(q: seq<Urb>, seqnum: uint32): (i: nat)
    ensures i <= |q|
    ensures i < |q| ==> q[i].seqnum == seqnum
    ensures forall j | 0 <= j < i :: q[j].seqnum != seqnum
  {
    if q == [] || q[0].seqnum == seqnum then 0 else 1 + FirstMatch(q[1..], seqnum)
  }

  // ---- Steps ----

  /** How a wait on the event ends: consuming the signal, by the 100 ms watchdog, or by an error. */
  datatype WaitResult = Signalled | Timeout | WaitFailed

  datatype Action =
    // session thread
    | Start
    | Submit(request: Request) | Signal
    | FindUnlink(seqnum: uint32) | PushUnlinked
    | Reap | Answer(sent: bool)
    | ClearRunning | SignalStop | Join | PopCancel | PushCancelled
    | Cleanup
    // worker thread
    | Check | Pop | Wait(result: WaitResult) | Transfer(outcome: DeviceResult) | PushDone

  predicate WorkerGone(w: Worker) {
    w.NotStarted? || w.Exited?
  }

  /** A wait can only end by a signal that is there, or by a time-out without one. */
  predicate CanEnd(s: State, r: WaitResult) {
    if s.event then !r.Timeout? else !r.Signalled?
  }

  predicate Enabled(s: State, a: Action) {
    match a
    case Start => s.session.Idle? && !s.running && WorkerGone(s.worker)
    case Submit(r) => s.session.Idle? && r.Valid()
    case Signal => s.session.Signalling?
    case FindUnlink(_) => s.session.Idle?
    case PushUnlinked => s.session.Unlinking?
    case Reap => s.session.Idle?
    case Answer(_) => s.session.Answering? && Answerable(s.session.urb)
    case ClearRunning => s.session.Idle? && s.running
    case SignalStop => s.session.StopSignalling?
    case Join => s.session.Joining? && s.worker.Exited?
    case PopCancel => s.session.CancelPopping?
    case PushCancelled => s.session.Cancelling?
    case Cleanup => s.session.Idle? && !s.running
    case Check => s.worker.Checking?
    case Pop => s.worker.Popping?
    case Wait(r) => s.worker.Waiting? && CanEnd(s, r)
    case Transfer(r) => s.worker.Executing? && Fits(s.worker.urb, r)
    case PushDone => s.worker.Completing?
  }

  function DoSubmit(s: State, r: Request): State
    requires r.Valid()
  {
    s.(pending := s.pending + [Create(|s.h.requests|, r)], session := Signalling,
       h := s.h.(requests := s.h.requests + [r]))
  }

  /** The session thread takes a pending entry out and marks it cancelled. */
  function DoCancel(s: State, i: nat, unlinking: bool): State
    requires i < |s.pending|
  {
    var u := Cancel(s.pending[i]);
    s.(pending := Without(s.pending, i), session := if unlinking then Unlinking(u) else Cancelling(u),
       h := s.h.(cancelled := s.h.cancelled + [u.id]))
  }

  function DoFindUnlink(s: State, seqnum: uint32): State {
    var i := FirstMatch(s.pending, seqnum);
    if i == |s.pending| then s else DoCancel(s, i, true)
  }

  function DoPopCancel(s: State): State {
    if s.pending == [] then s.(session := Idle) else DoCancel(s, 0, false)
  }

  function DoReap(s: State): State {
    if s.completed == [] then s else s.(completed := s.completed[1..], session := Answering(s.completed[0]))
  }

  function DoPop(s: State): State {
    if s.pending == [] then s.(worker := Waiting)
    else s.(pending := s.pending[1..], worker := Executing(s.pending[0]))
  }

  function DoAnswer(s: State, sent: bool): State
    requires s.session.Answering? && Answerable(s.session.urb)
  {
    var u := s.session.urb;
    var h := s.h.(freed := s.h.freed + [u]);
    s.(session := Idle,
       h := if !sent then h
            else h.(answered := h.answered + [|s.h.freed|], replies := h.replies + [ReplyFor(u)],
                    bytesSent := Wrapped(h.bytesSent + |ReplyFor(u).payload|)))
  }

  /** A held entry enters the completed queue. */
  function DoComplete(s: State, u: Urb, worker: Worker, session: Session): State {
    s.(completed := s.completed + [u], worker := worker, session := session)
  }

  function DoCleanup(s: State): State {
    s.(pending := [], completed := [], session := Closed,
       h := s.h.(droppedPending := s.pending, droppedCompleted := s.completed))
  }

  function DoTransfer(s: State, r: DeviceResult): State
    requires s.worker.Executing? && Fits(s.worker.urb, r)
  {
    s.(worker := Completing(Execute(s.worker.urb, r)),
       h := s.h.(executed := s.h.executed + [s.worker.urb.id], outcomes := s.h.outcomes + [r]))
  }

  function DoWait(s: State, r: WaitResult): State {
    if r.WaitFailed? then s.(worker := Exited) else s.(event := false, worker := Checking)
  }

  function Apply(s: State, a: Action): State
    requires Enabled(s, a)
  {
    match a
    case Start => s.(running := true, worker := Checking)
    case Submit(r) => DoSubmit(s, r)
    case Signal => s.(event := true, session := Idle)
    case FindUnlink(seqnum) => DoFindUnlink(s, seqnum)
    case PushUnlinked => DoComplete(s, s.session.urb, s.worker, Idle)
    case Reap => DoReap(s)
    case Answer(sent) => DoAnswer(s, sent)
    case ClearRunning => s.(running := false, session := StopSignalling)
    case SignalStop => s.(event := true, session := Joining)
    case Join => s.(session := CancelPopping)
    case PopCancel => DoPopCancel(s)
    case PushCancelled => DoComplete(s, s.session.urb, s.worker, CancelPopping)
    case Cleanup => DoCleanup(s)
    case Check => s.(worker := if s.running then Popping else Exited)
    case Pop => DoPop(s)
    case Wait(r) => DoWait(s, r)
    case Transfer(r) => DoTransfer(s, r)
    case PushDone => DoComplete(s, s.worker.urb, Checking, s.session)
  }

  /** The state after a sequence of steps, if each is enabled when its turn comes. */
  function Run(s: State, actions: seq<Action>): Option<State>
    decreases |actions|
  {
    if actions == [] then Some(s)
    else if !Enabled(s, actions[0]) then None
    else Run(Apply(s, actions[0]), actions[1..])
  }

  ghost predicate Reachable(s: State) {
    exists actions :: Run(Init(), actions) == Some(s)
  }

  // ---- The invariant ----

  function Ids(q: seq<Urb>): (ids: seq<nat>)
    ensures |ids| == |q| && forall i | 0 <= i < |q| :: ids[i] == q[i].id
  {
    seq(|q|, i requires 0 <= i < |q| => q[i].id)
  }

  /** The ids of the entries of a queue that were not cancelled, in queue order. */
  function Live(q: seq<Urb>): seq<nat> {
    if q == [] then []
    else Live(q[..|q| - 1]) + if q[|q| - 1].cancelled then [] else [q[|q| - 1].id]
  }

  /** The ids of the entries of a queue that were cancelled, in queue order. */
  function Dead(q: seq<Urb>): seq<nat> {
    if q == [] then []
    else Dead(q[..|q| - 1]) + if q[|q| - 1].cancelled then [q[|q| - 1].id] else []
  }

  /** The numbers below n in increasing order, without the cancelled ones. */
  function Uncancelled(n: nat, cancelled: seq<nat>): seq<nat> {
    if n == 0 then [] else Uncancelled(n - 1, cancelled) + if n - 1 in cancelled then [] else [n - 1]
  }

  function InFlight(s: State): seq<Urb> {
    if s.worker.Executing? then [s.worker.urb] else []
  }

  function Executed(s: State): seq<Urb> {
    if s.worker.Completing? then [s.worker.urb] else []
  }

  function UnderAnswer(s: State): seq<Urb> {
    if s.session.Answering? then [s.session.urb] else []
  }

  function UnderCancel(s: State): seq<Urb> {
    if s.session.Unlinking? || s.session.Cancelling? then [s.session.urb] else []
  }

  /** Entries not yet passed to the device, oldest first. */
  function Ahead(s: State): seq<Urb> {
    InFlight(s) + s.pending + s.h.droppedPending
  }

  /** Settled entries in the order they entered the completed queue. */
  function Behind(s: State): seq<Urb> {
    s.h.freed + UnderAnswer(s) + s.completed + s.h.droppedCompleted
  }

  /** What goes to the device is the submission order without the cancelled requests. */
  predicate Order(s: State) {
    s.h.executed + Ids(Ahead(s)) == Uncancelled(|s.h.requests|, s.h.cancelled)
  }

  /** What was not cancelled is settled in the order of execution. */
  predicate ReapOrder(s: State) {
    Live(Behind(s)) + Ids(Executed(s)) == s.h.executed
  }

  /** What was cancelled is settled in the order of cancellation. */
  predicate CancelOrder(s: State) {
    Dead(Behind(s)) + Ids(UnderCancel(s)) == s.h.cancelled
  }

  /** Cancelled ids are ids of accepted requests, each cancelled once. */
  predicate CancelledOnce(s: State) {
    && (forall i | 0 <= i < |s.h.cancelled| :: s.h.cancelled[i] < |s.h.requests|)
    && (forall i, j | 0 <= i < j < |s.h.cancelled| :: s.h.cancelled[i] != s.h.cancelled[j])
  }

  predicate Fresh(s: State, u: Urb) {
    u.id < |s.h.requests| && s.h.requests[u.id].Valid() && u == Create(u.id, s.h.requests[u.id])
  }

  /** An entry as the k-th execution left it. */
  predicate ExecutedAs(s: State, u: Urb, k: nat)
    requires u.id < |s.h.requests| && s.h.requests[u.id].Valid()
  {
    var made := Create(u.id, s.h.requests[u.id]);
    && k < |s.h.executed| && k < |s.h.outcomes| && s.h.executed[k] == u.id
    && Fits(made, s.h.outcomes[k]) && u == Execute(made, s.h.outcomes[k])
  }

  /** An entry is as its request was created, then either cancelled or executed. */
  predicate Settled(s: State, u: Urb) {
    && u.id < |s.h.requests| && s.h.requests[u.id].Valid()
    && (if u.cancelled then u == Cancel(Create(u.id, s.h.requests[u.id]))
        else exists k: nat | k < |s.h.executed| :: ExecutedAs(s, u, k))
  }

  predicate AllFresh(s: State, q: seq<Urb>) {
    forall i | 0 <= i < |q| :: Fresh(s, q[i])
  }

  predicate AllSettled(s: State, q: seq<Urb>) {
    forall i | 0 <= i < |q| :: Settled(s, q[i])
  }

  /** Each execution has one outcome. */
  predicate Parallel(s: State) {
    |s.h.outcomes| == |s.h.executed|
  }

  /** Entries ahead of the device are as created. */
  predicate AheadFresh(s: State) {
    AllFresh(s, Ahead(s))
  }

  /** Entries behind it, or on their way there, have a final status. */
  predicate BehindSettled(s: State) {
    AllSettled(s, Executed(s)) && AllSettled(s, UnderCancel(s)) && AllSettled(s, Behind(s))
  }

  /** A thread moving an entry to the completed queue holds a cancelled one exactly if it is the session thread. */
  predicate Marks(s: State) {
    && (s.worker.Completing? ==> !s.worker.urb.cancelled)
    && (s.session.Unlinking? || s.session.Cancelling? ==> s.session.urb.cancelled)
  }

  /** A worker that waits, or is about to, has or will get the signal for anything it must react to. */
  predicate Wake(s: State) {
    && (s.worker.Waiting? && s.pending != [] ==> s.event || s.session.Signalling?)
    && ((s.worker.Popping? || s.worker.Waiting?) && !s.running ==> s.event || s.session.StopSignalling?)
  }

  predicate Stopping(session: Session) {
    session.StopSignalling? || session.Joining? || session.CancelPopping? || session.Cancelling?
  }

  /** Which combinations of program points and the running flag occur. */
  predicate Control(s: State) {
    && (Stopping(s.session) || s.session.Closed? ==> !s.running)
    && (s.session.StopSignalling? || s.session.Joining? ==> !s.worker.NotStarted?)
    && (s.session.CancelPopping? || s.session.Cancelling? ==> s.worker.Exited?)
    && (!s.running && !s.session.StopSignalling? && !s.session.Joining? ==> WorkerGone(s.worker))
    && (s.running ==> !s.worker.NotStarted?)
    && (!s.session.Closed? ==> s.h.droppedPending == [] && s.h.droppedCompleted == [])
    && (s.session.Closed? ==> s.pending == [] && s.completed == [])
  }

  function PayloadBytes(replies: seq<Reply>): nat {
    if replies == [] then 0 else PayloadBytes(replies[..|replies| - 1]) + |replies[|replies| - 1].payload|
  }

  /** Each answer has its own freed entry, in order. */
  predicate AnswerPositions(s: State) {
    && |s.h.answered| == |s.h.replies|
    && (forall k | 0 <= k < |s.h.answered| :: s.h.answered[k] < |s.h.freed|)
    && (forall j, k | 0 <= j < k < |s.h.answered| :: s.h.answered[j] < s.h.answered[k])
  }

  predicate IsReplyFor(reply: Reply, u: Urb) {
    Answerable(u) && reply == ReplyFor(u)
  }

  /** Each answer is the one for its entry. */
  predicate AnswerContents(s: State) {
    forall k | 0 <= k < |s.h.answered| && k < |s.h.replies| && s.h.answered[k] < |s.h.freed| ::
      IsReplyFor(s.h.replies[k], s.h.freed[s.h.answered[k]])
  }

  /** The byte counter sums the data sent, in 64 bits. */
  predicate Counter(s: State) {
    s.h.bytesSent == Wrapped(PayloadBytes(s.h.replies))
  }

  predicate Inv(s: State) {
    && Order(s) && ReapOrder(s) && CancelOrder(s) && CancelledOnce(s) && Parallel(s) && AheadFresh(s)
    && BehindSettled(s) && Marks(s) && Wake(s) && Control(s) && AnswerPositions(s)
    && AnswerContents(s) && Counter(s)
  }

  // ---- Sequences of ids ----

  lemma IdsConcat(p: seq<Urb>, q: seq<Urb>)
    ensures Ids(p + q) == Ids(p) + Ids(q)
  {
  }

  lemma {:induction false} UncancelledProperties(n: nat, cancelled: seq<nat>)
    ensures forall i | 0 <= i < |Uncancelled(n, cancelled)| ::
      Uncancelled(n, cancelled)[i] < n && Uncancelled(n, cancelled)[i] !in cancelled
    ensures forall i, j | 0 <= i < j < |Uncancelled(n, cancelled)| ::
      Uncancelled(n, cancelled)[i] < Uncancelled(n, cancelled)[j]
  {
    if n > 0 {
      UncancelledProperties(n - 1, cancelled);
      var front := Uncancelled(n - 1, cancelled);
      assert Uncancelled(n, cancelled) == front + if n - 1 in cancelled then [] else [n - 1];
    }
  }

  lemma {:induction false} UncancelledComplete(n: nat, cancelled: seq<nat>, k: nat)
    requires k < n && k !in cancelled
    ensures k in Uncancelled(n, cancelled)
  {
    var front := Uncancelled(n - 1, cancelled);
    var last := if n - 1 in cancelled then [] else [n - 1];
    if k < n - 1 {
      UncancelledComplete(n - 1, cancelled, k);
    } else {
      assert k in last;
    }
    assert k in front + last;
    assert Uncancelled(n, cancelled) == front + last;
  }

  lemma UncancelledNext(n: nat, cancelled: seq<nat>)
    ensures Uncancelled(n + 1, cancelled) == Uncancelled(n, cancelled) + if n in cancelled then [] else [n]
  {
  }

  /** Cancelling one of the numbers below n leaves n itself as it was. */
  lemma CancelEarlier(n: nat, cancelled: seq<nat>, i: nat)
    requires i < |Uncancelled(n, cancelled)| && Uncancelled(n, cancelled)[i] < n
    requires Uncancelled(n, cancelled + [Uncancelled(n, cancelled)[i]]) == Without(Uncancelled(n, cancelled), i)
    ensures
      var s := Uncancelled(n + 1, cancelled);
      i < |s| && s[i] == Uncancelled(n, cancelled)[i] && Uncancelled(n + 1, cancelled + [s[i]]) == Without(s, i)
  {
    var front := Uncancelled(n, cancelled);
    UncancelledNext(n, cancelled);
    UncancelledNext(n, cancelled + [front[i]]);
    assert n in cancelled + [front[i]] <==> n in cancelled;
    WithoutInFront(front, if n in cancelled then [] else [n], i);
  }

  lemma CancelLatest(n: nat, cancelled: seq<nat>)
    requires n !in cancelled
    ensures
      var s, i := Uncancelled(n + 1, cancelled), |Uncancelled(n, cancelled)|;
      i < |s| && s[i] == n && Uncancelled(n + 1, cancelled + [n]) == Without(s, i)
  {
    UncancelledNext(n, cancelled);
    UncancelledNext(n, cancelled + [n]);
    CancelAbove(n, cancelled, n);
    WithoutLast(Uncancelled(n, cancelled), n);
  }

  /** Cancelling one number drops just that number from the sequence. */
  lemma {:induction false} CancelOne(n: nat, cancelled: seq<nat>, i: nat)
    requires i < |Uncancelled(n, cancelled)|
    ensures
      var s := Uncancelled(n, cancelled);
      Uncancelled(n, cancelled + [s[i]]) == Without(s, i)
  {
    UncancelledNext(n - 1, cancelled);
    if i < |Uncancelled(n - 1, cancelled)| {
      CancelOne(n - 1, cancelled, i);
      UncancelledProperties(n - 1, cancelled);
      CancelEarlier(n - 1, cancelled, i);
    } else {
      CancelLatest(n - 1, cancelled);
    }
  }

  lemma {:induction false} CancelAbove(n: nat, cancelled: seq<nat>, k: nat)
    requires k >= n
    ensures Uncancelled(n, cancelled + [k]) == Uncancelled(n, cancelled)
  {
    if n > 0 {
      CancelAbove(n - 1, cancelled, k);
    }
  }
}
