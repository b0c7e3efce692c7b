/** What the URB handler guarantees in every interleaving of its two threads. */
module UrbTheorems {
  import opened Bytes
  import opened Seqs
  import opened Urbs
  import opened UrbMachine
  import opened UrbInvariant

  // ---- Conservation ----

  function Bagged(ids: seq<nat>): multiset<nat> {
    multiset(ids)
  }

  function Bag(q: seq<Urb>): multiset<nat> {
    Bagged(Ids(q))
  }

  /** The numbers below n, once each. */
  function Below(n: nat): (m: multiset<nat>)
    ensures forall k: nat :: m[k] == if k < n then 1 else 0
  {
    if n == 0 then multiset{} else Below(n - 1) + multiset{n - 1}
  }

  function WorkerHolds(s: State): seq<Urb> {
    InFlight(s) + Executed(s)
  }

  function SessionHolds(s: State): seq<Urb> {
    UnderCancel(s) + UnderAnswer(s)
  }

  /** Every place an entry can be, with multiplicity. */
  function Census(s: State): multiset<nat> {
    Bag(s.pending) + Bag(WorkerHolds(s)) + Bag(SessionHolds(s)) + Bag(s.completed)
    + Bag(s.h.freed) + Bag(s.h.droppedPending) + Bag(s.h.droppedCompleted)
  }

  lemma BagConcat(p: seq<Urb>, q: seq<Urb>)
    ensures Bag(p + q) == Bag(p) + Bag(q)
  {
    IdsConcat(p, q);
  }

  lemma {:induction false} LiveAndDead(q: seq<Urb>)
    ensures Bag(q) == Bagged(Live(q)) + Bagged(Dead(q))
  {
    if q == [] {
      assert Ids(q) == [];
    } else {
      var front, u := q[..|q| - 1], q[|q| - 1];
      LiveAndDead(front);
      assert q == front + [u];
      BagConcat(front, [u]);
      assert Ids([u]) == [u.id];
    }
  }

  lemma {:induction false} DistinctCount(s: seq<nat>, k: nat)
    requires forall i, j | 0 <= i < j < |s| :: s[i] != s[j]
    ensures Bagged(s)[k] == if k in s then 1 else 0
  {
    if s != [] {
      var front, last := s[..|s| - 1], s[|s| - 1];
      assert s == front + [last];
      DistinctCount(front, k);
    }
  }

  /** The uncancelled and the cancelled numbers together are all numbers below n. */
  lemma LineIsComplete(n: nat, cancelled: seq<nat>)
    requires forall i | 0 <= i < |cancelled| :: cancelled[i] < n
    requires forall i, j | 0 <= i < j < |cancelled| :: cancelled[i] != cancelled[j]
    ensures Bagged(Uncancelled(n, cancelled)) + Bagged(cancelled) == Below(n)
  {
    var line := Uncancelled(n, cancelled);
    UncancelledProperties(n, cancelled);
    forall k: nat ensures Bagged(line)[k] + Bagged(cancelled)[k] == Below(n)[k] {
      DistinctCount(line, k);
      DistinctCount(cancelled, k);
      if k < n && k !in cancelled {
        UncancelledComplete(n, cancelled, k);
      }
    }
  }

  lemma CensusByParts(s: State)
    ensures Census(s) == Bag(Ahead(s)) + Bag(Executed(s)) + Bag(UnderCancel(s)) + Bag(Behind(s))
  {
    BagConcat(InFlight(s), Executed(s));
    BagConcat(UnderCancel(s), UnderAnswer(s));
    BagConcat(InFlight(s) + s.pending, s.h.droppedPending);
    BagConcat(InFlight(s), s.pending);
    BagConcat(s.h.freed + UnderAnswer(s) + s.completed, s.h.droppedCompleted);
    BagConcat(s.h.freed + UnderAnswer(s), s.completed);
    BagConcat(s.h.freed, UnderAnswer(s));
  }

  lemma InvConserves(s: State)
    requires Order(s) && ReapOrder(s) && CancelOrder(s) && CancelledOnce(s)
    ensures Census(s) == Below(|s.h.requests|)
  {
    CensusByParts(s);
    LiveAndDead(Behind(s));
    LineIsComplete(|s.h.requests|, s.h.cancelled);
  }

  /**
   * Conservation: at every point of every interleaving each accepted submission is in exactly one place:
   * pending, held by the worker, held by the session thread, completed, or freed.
   */
  lemma Conservation(s: State)
    requires Reachable(s)
    ensures Census(s) == Below(|s.h.requests|)
  {
    ReachableInv(s);
    InvConserves(s);
  }

  // ---- Order and exclusion ----

  /**
   * What has been passed to the device is an initial part of the submission order without the cancelled
   * requests, so nothing is executed twice or out of order and nothing cancelled is executed. What has been
   * answered without being cancelled is an initial part of that, and cancelled requests are settled in the
   * order they were cancelled.
   */
  lemma OrderAndExclusion(s: State)
    requires Reachable(s)
    ensures s.h.executed <= Uncancelled(|s.h.requests|, s.h.cancelled)
    ensures forall i, j | 0 <= i < j < |s.h.executed| :: s.h.executed[i] < s.h.executed[j]
    ensures forall id | id in s.h.executed :: id !in s.h.cancelled
    ensures Live(s.h.freed) <= s.h.executed
    ensures Dead(s.h.freed) <= s.h.cancelled
  {
    ReachableInv(s);
    ExecutedInLine(s);
    AnsweredInOrder(s);
  }

  lemma ExecutedInLine(s: State)
    requires Order(s)
    ensures s.h.executed <= Uncancelled(|s.h.requests|, s.h.cancelled)
    ensures forall i, j | 0 <= i < j < |s.h.executed| :: s.h.executed[i] < s.h.executed[j]
    ensures forall id | id in s.h.executed :: id !in s.h.cancelled
  {
    var line := Uncancelled(|s.h.requests|, s.h.cancelled);
    UncancelledProperties(|s.h.requests|, s.h.cancelled);
    assert s.h.executed <= line;
    forall i | 0 <= i < |s.h.executed| ensures s.h.executed[i] == line[i] {
    }
  }

  lemma AnsweredInOrder(s: State)
    requires ReapOrder(s) && CancelOrder(s)
    ensures Live(s.h.freed) <= s.h.executed
    ensures Dead(s.h.freed) <= s.h.cancelled
  {
    var rest := UnderAnswer(s) + s.completed + s.h.droppedCompleted;
    assert Behind(s) == s.h.freed + rest;
    LivePrefix(s.h.freed, rest);
  }

  lemma {:induction false} LivePrefix(p: seq<Urb>, q: seq<Urb>)
    ensures Live(p) <= Live(p + q) && Dead(p) <= Dead(p + q)
    decreases |q|
  {
    if q == [] {
      assert p + q == p;
    } else {
      var front := q[..|q| - 1];
      assert (p + q)[..|p + q| - 1] == p + front;
      LivePrefix(p, front);
    }
  }

  /** The device is given each request exactly as it was submitted. */
  lemma DeviceGetsTheRequest(s: State, r: DeviceResult)
    requires Reachable(s) && Enabled(s, Transfer(r))
    ensures
      var u := s.worker.urb;
      && u.id < |s.h.requests| && s.h.requests[u.id].Valid()
      && u == Create(u.id, s.h.requests[u.id]) && AsSubmitted(u, s.h.requests[u.id])
  {
    ReachableInv(s);
    var u := s.worker.urb;
    assert Ahead(s)[0] == u && Fresh(s, u);
    CreatedAsSubmitted(u.id, s.h.requests[u.id]);
  }

  // ---- Wake-up ----

  /** A worker that is waiting, or about to, while there is something to do, has the event set or coming. */
  lemma NoLostWakeup(s: State)
    requires Reachable(s)
    ensures s.worker.Waiting? && s.pending != [] ==> s.event || s.session.Signalling?
    ensures (s.worker.Popping? || s.worker.Waiting?) && !s.running ==> s.event || s.session.StopSignalling?
  {
    ReachableInv(s);
  }

  /** The worker's next step when no wait times out or fails, for a device that behaves as `device` says. */
  function WorkerNext(s: State, device: Urb -> DeviceResult): (a: Option<Action>)
    requires forall u :: Fits(u, device(u))
    ensures a.Some? ==> Enabled(s, a.value)
  {
    match s.worker
    case Checking => Some(Check)
    case Popping => Some(Pop)
    case Waiting => if s.event then Some(Wait(Signalled)) else None
    case Executing(u) => Some(Transfer(device(u)))
    case Completing(_) => Some(PushDone)
    case _ => None
  }

  function Rank(w: Worker): nat {
    match w
    case Executing(_) => 5
    case Completing(_) => 4
    case Checking => 3
    case Popping => 2
    case Waiting => 1
    case _ => 0
  }

  /** The worker running on its own until it blocks or exits; its steps are bounded. */
  function WorkerRun(s: State, device: Urb -> DeviceResult): State
    requires forall u :: Fits(u, device(u))
    decreases |s.pending|, s.event, Rank(s.worker)
  {
    var a := WorkerNext(s, device);
    if a.None? then s else WorkerRun(Apply(s, a.value), device)
  }

  predicate WorkerBlocked(s: State) {
    WorkerGone(s.worker) || (s.worker.Waiting? && !s.event)
  }

  /** What the worker's own steps leave alone. */
  predicate SameSession(s: State, t: State) {
    && t.session == s.session && t.running == s.running
    && t.h.cancelled == s.h.cancelled && t.h.requests == s.h.requests
    && (s.running && !WorkerGone(s.worker) ==> !WorkerGone(t.worker))
  }

  lemma WorkerStep(s: State, device: Urb -> DeviceResult)
    requires (forall u :: Fits(u, device(u))) && WorkerNext(s, device).Some?
    ensures SameSession(s, Apply(s, WorkerNext(s, device).value))
  {
  }

  lemma WorkerStopsBlocked(s: State, device: Urb -> DeviceResult)
    requires (forall u :: Fits(u, device(u))) && WorkerNext(s, device).None?
    ensures WorkerBlocked(s)
  {
  }

  lemma {:induction false} WorkerRunReachable(s: State, device: Urb -> DeviceResult)
    requires Reachable(s) && forall u :: Fits(u, device(u))
    ensures Reachable(WorkerRun(s, device))
    decreases |s.pending|, s.event, Rank(s.worker)
  {
    var a := WorkerNext(s, device);
    if a.Some? {
      ReachableNext(s, a.value);
      WorkerRunReachable(Apply(s, a.value), device);
    }
  }

  lemma {:induction false} WorkerRunEnds(s: State, device: Urb -> DeviceResult)
    requires forall u :: Fits(u, device(u))
    ensures SameSession(s, WorkerRun(s, device)) && WorkerBlocked(WorkerRun(s, device))
    decreases |s.pending|, s.event, Rank(s.worker)
  {
    var a := WorkerNext(s, device);
    if a.Some? {
      WorkerStep(s, device);
      WorkerRunEnds(Apply(s, a.value), device);
    } else {
      WorkerStopsBlocked(s, device);
    }
  }

  /**
   * The worker needs no watchdog: whenever the session thread is between calls or joining, the worker on its
   * own, with every wait ended only by a signal, either executes all that is left and parks on an empty
   * queue, or, once the running flag is cleared, exits, so the join returns.
   */
  lemma WorkerNeedsNoWatchdog(s: State, device: Urb -> DeviceResult)
    requires Reachable(s) && (s.session.Idle? || s.session.Joining?)
    requires forall u :: Fits(u, device(u))
    ensures
      var t := WorkerRun(s, device);
      && (s.running && !WorkerGone(s.worker) ==>
            t.worker.Waiting? && t.pending == [] && t.h.executed == Uncancelled(|s.h.requests|, s.h.cancelled))
      && (!s.running ==> WorkerGone(t.worker))
      && (s.session.Joining? ==> Enabled(t, Join))
  {
    ReachableInv(s);
    WorkerRunReachable(s, device);
    WorkerRunEnds(s, device);
    var t := WorkerRun(s, device);
    ReachableInv(t);
    if t.worker.Waiting? {
      assert t.pending == [] && t.running;
      assert Ahead(t) == [] && Ids(Ahead(t)) == [];
    }
  }

  // ---- Stopping ----

  lemma SettledInCompleted(s: State, i: nat)
    requires BehindSettled(s) && i < |s.completed|
    ensures Settled(s, s.completed[i])
  {
    var before := s.h.freed + UnderAnswer(s);
    assert Behind(s) == before + (s.completed + s.h.droppedCompleted);
    assert Behind(s)[|before| + i] == s.completed[i];
  }

  lemma NothingElsewhere(s: State)
    requires Control(s) && s.pending == [] && WorkerGone(s.worker) && s.session.Idle?
    ensures Census(s) == Bag(s.completed) + Bag(s.h.freed)
  {
    assert WorkerHolds(s) == [] && SessionHolds(s) == [] && s.h.droppedPending == [] && s.h.droppedCompleted == [];
    assert Ids([]) == [];
  }

  /** The session thread is between calls, the handler does not run and nothing is left to cancel. */
  predicate Stopped(s: State) {
    s.session.Idle? && !s.running && s.pending == []
  }

  /** No worker is left, and all that was accepted is executed or cancelled, and answered or completed. */
  predicate Drained(s: State) {
    && WorkerGone(s.worker)
    && Bag(s.completed) + Bag(s.h.freed) == Below(|s.h.requests|)
    && s.h.executed == Uncancelled(|s.h.requests|, s.h.cancelled)
    && AllSettled(s, s.completed)
  }

  /**
   * Whenever the handler is stopped, no worker is left, and every accepted submission has been answered or
   * is in the completed queue; whatever was not cancelled has been executed, and each entry in the completed
   * queue is what its request became: executed with the recorded outcome or, exactly if it was cancelled,
   * cancelled.
   */
  lemma StoppedIsDrained(s: State)
    requires Reachable(s) && Stopped(s)
    ensures Drained(s)
  {
    ReachableInv(s);
    InvConserves(s);
    NothingElsewhere(s);
    assert Ahead(s) == [] && Ids(Ahead(s)) == [];
    forall i | 0 <= i < |s.completed| ensures Settled(s, s.completed[i]) {
      SettledInCompleted(s, i);
    }
  }

  /** `urb_handler_stop` returns with the worker exited and the handler stopped. */
  lemma StopDrains(s: State)
    requires Reachable(s) && s.session.CancelPopping? && s.pending == []
    ensures
      var t := Apply(s, PopCancel);
      Reachable(t) && Stopped(t) && t.worker.Exited? && Drained(t)
  {
    ReachableInv(s);
    ReachableNext(s, PopCancel);
    StoppedIsDrained(Apply(s, PopCancel));
  }

  lemma CleanupLeavesNothing(s: State)
    requires Control(s) && Enabled(s, Cleanup)
    ensures
      var t := Apply(s, Cleanup);
      && t.pending == [] && t.completed == [] && WorkerHolds(t) == [] && SessionHolds(t) == []
      && Bag([]) == multiset{}
  {
    assert Ids([]) == [];
  }

  /** After clean-up every accepted submission has been freed exactly once, and no thread holds any. */
  lemma CleanupFreesOnce(s: State)
    requires Reachable(s) && Enabled(s, Cleanup)
    ensures
      var t := Apply(s, Cleanup);
      && t.pending == [] && t.completed == [] && WorkerHolds(t) == [] && SessionHolds(t) == []
      && Bag(t.h.freed) + Bag(t.h.droppedPending) + Bag(t.h.droppedCompleted) == Below(|t.h.requests|)
  {
    ReachableInv(s);
    CleanupLeavesNothing(s);
    ReachableNext(s, Cleanup);
    Conservation(Apply(s, Cleanup));
  }

  // ---- Answers ----

  /** The id of the request that the k-th answer settles. */
  function AnsweredId(s: State, k: nat): nat
    requires AnswerPositions(s) && k < |s.h.replies|
  {
    s.h.freed[s.h.answered[k]].id
  }

  /** The outcome recorded for an id, none if it was not executed. */
  function Lookup(ids: seq<nat>, outcomes: seq<DeviceResult>, id: nat): Option<DeviceResult>
    requires |ids| == |outcomes|
  {
    if ids == [] then None
    else if ids[0] == id then Some(outcomes[0]) else Lookup(ids[1..], outcomes[1..], id)
  }

  lemma {:induction false} LookupAt(ids: seq<nat>, outcomes: seq<DeviceResult>, k: nat)
    requires |ids| == |outcomes| && k < |ids| && forall i, j | 0 <= i < j < |ids| :: ids[i] < ids[j]
    ensures Lookup(ids, outcomes, ids[k]) == Some(outcomes[k])
  {
    if k > 0 {
      LookupAt(ids[1..], outcomes[1..], k - 1);
    }
  }

  lemma {:induction false} LookupNothing(ids: seq<nat>, outcomes: seq<DeviceResult>, id: nat)
    requires |ids| == |outcomes|
    ensures Lookup(ids, outcomes, id) == None <==> id !in ids
  {
    if ids != [] {
      LookupNothing(ids[1..], outcomes[1..], id);
    }
  }

  /** What the device did with a request, none if it was never given it. */
  function OutcomeOf(h: History, id: nat): Option<DeviceResult>
    requires |h.outcomes| == |h.executed|
  {
    Lookup(h.executed, h.outcomes, id)
  }

  lemma {:induction false} DeadHas(q: seq<Urb>, i: nat)
    requires i < |q| && q[i].cancelled
    ensures q[i].id in Dead(q)
  {
    var front := q[..|q| - 1];
    if i < |front| {
      DeadHas(front, i);
    }
  }

  lemma CancelledIsRecorded(s: State, i: nat)
    requires CancelOrder(s) && i < |Behind(s)| && Behind(s)[i].cancelled
    ensures Behind(s)[i].id in s.h.cancelled
  {
    DeadHas(Behind(s), i);
  }

  /** A settled entry is what its request became by the recorded outcome. */
  lemma SettledByOutcome(s: State, i: nat)
    requires Order(s) && CancelOrder(s) && Parallel(s) && BehindSettled(s) && i < |Behind(s)|
    ensures
      var u := Behind(s)[i];
      var outcome := OutcomeOf(s.h, u.id);
      && u.id < |s.h.requests| && s.h.requests[u.id].Valid()
      && (outcome.Some? ==> Fits(Create(u.id, s.h.requests[u.id]), outcome.value))
      && u == Settle(u.id, s.h.requests[u.id], outcome)
      && (outcome == None <==> u.id in s.h.cancelled)
  {
    var u := Behind(s)[i];
    assert Settled(s, u);
    ExecutedInLine(s);
    LookupNothing(s.h.executed, s.h.outcomes, u.id);
    if u.cancelled {
      CancelledIsRecorded(s, i);
    } else {
      var k: nat :| k < |s.h.executed| && ExecutedAs(s, u, k);
      LookupAt(s.h.executed, s.h.outcomes, k);
    }
  }

  /** What is, or would be, sent for a settled entry answers the request it settles. */
  predicate Answered(s: State, u: Urb)
    requires Parallel(s)
  {
    && u.id < |s.h.requests| && s.h.requests[u.id].Valid() && Answerable(u)
    && AnswersRequest(ReplyFor(u), s.h.requests[u.id], OutcomeOf(s.h, u.id))
    && (OutcomeOf(s.h, u.id) == None <==> u.id in s.h.cancelled)
  }

  lemma SettledIsAnswered(s: State, i: nat)
    requires Reachable(s) && i < |Behind(s)|
    ensures Parallel(s) && Answered(s, Behind(s)[i])
  {
    ReachableInv(s);
    SettledByOutcome(s, i);
    var u := Behind(s)[i];
    ReplyAnswersRequest(u.id, s.h.requests[u.id], OutcomeOf(s.h, u.id));
  }

  /** Each entry the session thread has freed is another one. */
  lemma FreedOnce(s: State, i: nat, j: nat)
    requires Reachable(s) && i < j < |s.h.freed|
    ensures s.h.freed[i].id != s.h.freed[j].id
  {
    Conservation(s);
    assert Bag(s.h.freed) <= Census(s);
    DistinctIds(s.h.freed, |s.h.requests|, i, j);
  }

  lemma TwiceCounted(ids: seq<nat>, i: nat, j: nat)
    requires i < j < |ids| && ids[i] == ids[j]
    ensures Bagged(ids)[ids[i]] >= 2
  {
    var front, back := ids[..j], ids[j..];
    assert ids == front + back;
    assert front[i] == ids[i] && back[0] == ids[i];
  }

  lemma DistinctIds(q: seq<Urb>, n: nat, i: nat, j: nat)
    requires Bag(q) <= Below(n) && i < j < |q|
    ensures q[i].id != q[j].id
  {
    if q[i].id == q[j].id {
      TwiceCounted(Ids(q), i, j);
    }
  }

  /** The k-th answer answers the request it settles. */
  predicate Matched(s: State, k: nat)
    requires AnswerPositions(s) && Parallel(s) && k < |s.h.replies|
  {
    var id := AnsweredId(s, k);
    && id < |s.h.requests| && s.h.requests[id].Valid()
    && AnswersRequest(s.h.replies[k], s.h.requests[id], OutcomeOf(s.h, id))
    && (OutcomeOf(s.h, id) == None <==> id in s.h.cancelled)
  }

  /**
   * Reply matching: every RET_SUBMIT ever sent settles an earlier accepted submission of its own, whose
   * sequence number, device, set-up packet and isochronous fields it repeats; the endpoint and direction
   * agree exactly when they fit the fields that keep them. Its status, length and data are those of what the
   * device did with this very request: 0 or -EIO as it succeeded or failed, and the bytes it moved for an IN
   * transfer; the status is -ECANCELED exactly for cancelled requests. The byte counter is the total sent,
   * in 64 bits.
   */
  lemma ReplyMatching(s: State)
    requires Reachable(s)
    ensures AnswerPositions(s) && Parallel(s)
    ensures forall k: nat | k < |s.h.replies| :: Matched(s, k)
    ensures forall j: nat, k: nat | j < k < |s.h.replies| :: AnsweredId(s, j) != AnsweredId(s, k)
    ensures s.h.bytesSent == Wrapped(PayloadBytes(s.h.replies))
  {
    ReachableInv(s);
    InvConserves(s);
    forall k: nat | k < |s.h.replies| ensures Matched(s, k) {
      AnswerOf(s, k);
    }
    forall j: nat, k: nat | j < k < |s.h.replies| ensures AnsweredId(s, j) != AnsweredId(s, k) {
      assert Bag(s.h.freed) <= Census(s);
      DistinctIds(s.h.freed, |s.h.requests|, s.h.answered[j], s.h.answered[k]);
    }
  }

  // ---- What is recorded as sent ----

  /** What a step says about an answer: whether it was sent. */
  function SentBy(a: Action): seq<bool> {
    if a.Answer? then [a.sent] else []
  }

  /** Whether the answers made in a run were sent, in order. */
  function Sends(actions: seq<Action>): seq<bool> {
    if actions == [] then [] else SentBy(actions[0]) + Sends(actions[1..])
  }

  /** The positions of those that were. */
  function Successes(sends: seq<bool>): seq<nat> {
    if sends == [] then []
    else Successes(sends[..|sends| - 1]) + if sends[|sends| - 1] then [|sends| - 1] else []
  }

  /** Each answer made frees one entry, and those sent are the ones recorded. */
  predicate Recorded(h: History, sends: seq<bool>) {
    |h.freed| == |sends| && h.answered == Successes(sends) && |h.replies| == |h.answered|
  }

  lemma StepRecorded(s: State, a: Action, sends: seq<bool>)
    requires Recorded(s.h, sends) && Enabled(s, a)
    ensures Recorded(Apply(s, a).h, sends + SentBy(a))
  {
    if a.Answer? {
      assert (sends + [a.sent])[..|sends|] == sends;
    } else {
      OnlyAnswersRecord(s, a);
      assert sends + [] == sends;
    }
  }

  lemma {:induction false} RunRecorded(s: State, actions: seq<Action>, sends: seq<bool>)
    requires Recorded(s.h, sends)
    ensures Run(s, actions).Some? ==> Recorded(Run(s, actions).value.h, sends + Sends(actions))
    decreases |actions|
  {
    if actions == [] {
      assert sends + [] == sends;
    } else if Enabled(s, actions[0]) {
      StepRecorded(s, actions[0], sends);
      RunRecorded(Apply(s, actions[0]), actions[1..], sends + SentBy(actions[0]));
      Associative(sends, SentBy(actions[0]), Sends(actions[1..]));
    }
  }

  /** In every run one entry is freed for each answer made, and the answers recorded are exactly those sent. */
  lemma RecordedAreSent(actions: seq<Action>)
    requires Run(Init(), actions).Some?
    ensures
      var h := Run(Init(), actions).value.h;
      && |h.freed| == |Sends(actions)| && |h.replies| == |h.answered| && h.answered == Successes(Sends(actions))
  {
    RunRecorded(Init(), actions, []);
    assert [] + Sends(actions) == Sends(actions);
  }

  /** The byte counter is a remainder: 64 bits. */
  lemma {:induction false} WrappedIsRemainder(total: nat)
    ensures Wrapped(total) == total % 0x1_0000_0000_0000_0000
  {
    if total >= UINT64 {
      WrappedIsRemainder(total - UINT64);
    }
  }

  // ---- What an unlink does ----

  /** What is left of an entry that has been cancelled: its status tells so, and it is marked twice. */
  predicate CancelledFrom(u: Urb, v: Urb) {
    v == u.(status := -105, cancelled := true, completed := true)
  }

  /** An unlink of a sequence number that nothing pending has changes nothing. */
  lemma UnlinkOfNothing(s: State, seqnum: uint32)
    requires s.session.Idle? && forall k | 0 <= k < |s.pending| :: s.pending[k].seqnum != seqnum
    ensures Apply(s, FindUnlink(seqnum)) == s
  {
  }

  /**
   * Otherwise the oldest pending entry with that number leaves the queue, marked cancelled, for the session thread
   * to complete; the others keep their order, and nothing else changes.
   */
  lemma UnlinkTakesOldest(s: State, seqnum: uint32, i: nat)
    requires s.session.Idle? && i < |s.pending| && s.pending[i].seqnum == seqnum
    requires forall k | 0 <= k < i :: s.pending[k].seqnum != seqnum
    ensures
      var t := Apply(s, FindUnlink(seqnum));
      && t.pending == s.pending[..i] + s.pending[i + 1..]
      && t.session.Unlinking? && CancelledFrom(s.pending[i], t.session.urb)
      && t == s.(pending := t.pending, session := t.session,
                 h := s.h.(cancelled := s.h.cancelled + [s.pending[i].id]))
  {
    var j := FirstMatch(s.pending, seqnum);
    assert j == i;
  }

  // ---- How the two threads go on ----

  /** A step of the worker from one program point of `urb_worker_thread` to the next, and what it changes. */
  predicate WorkerGoesOn(s: State, a: Action, t: State) {
    match a
    case Check =>
      s.worker.Checking? && t == s.(worker := t.worker) && if s.running then t.worker.Popping? else t.worker.Exited?
    case Pop =>
      && s.worker.Popping?
      && (if s.pending == [] then t == s.(worker := t.worker) && t.worker.Waiting?
          else t == s.(worker := t.worker, pending := s.pending[1..])
               && t.worker.Executing? && t.worker.urb == s.pending[0])
    case Wait(result) =>
      && s.worker.Waiting?
      && (if result.WaitFailed? then t == s.(worker := t.worker) && t.worker.Exited?
          else t == s.(worker := t.worker, event := false) && t.worker.Checking?)
    case Transfer(_) => s.worker.Executing? && t == s.(worker := t.worker, h := t.h) && t.worker.Completing?
    case PushDone =>
      && s.worker.Completing? && t.worker.Checking?
      && t == s.(worker := t.worker, completed := s.completed + [s.worker.urb])
    case _ => false
  }

  lemma WorkerFlow(s: State, a: Action)
    requires Enabled(s, a) && OfWorker(a)
    ensures WorkerGoesOn(s, a, Apply(s, a))
  {
  }

  lemma AnswerOf(s: State, k: nat)
    requires Order(s) && CancelOrder(s) && Parallel(s) && BehindSettled(s)
    requires AnswerPositions(s) && AnswerContents(s) && k < |s.h.replies|
    ensures Matched(s, k)
  {
    var u := s.h.freed[s.h.answered[k]];
    assert Behind(s)[s.h.answered[k]] == u;
    SettledByOutcome(s, s.h.answered[k]);
    assert IsReplyFor(s.h.replies[k], u);
    ReplyAnswersRequest(u.id, s.h.requests[u.id], OutcomeOf(s.h, u.id));
  }
}
