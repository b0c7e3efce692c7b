/**
 * The session of an attached client (server/main.c:168-228) from end to end: the messages it receives, what
 * becomes of them in the URB handler, whose worker runs at the same time, and the bytes it writes.
 */
module Attached {
  import opened Bytes
  import opened Seqs
  import opened Structs
  import opened Urbs
  import S = Session
  import M = UrbMachine
  import I = UrbInvariant
  import T = UrbTheorems
  import R = Replies

  /** Where the session thread is; the handler's state says how far a call into it has got. */
  datatype Phase = Receiving | Submitting(m: S.Message) | Draining | Finding(m: S.Message) | Returning(m: S.Message)
                 | Ended

  /**
   * What has happened: the messages received; the positions among them of the submissions that were accepted
   * and refused, of the unlinks that found an entry and of those that were answered; and all sends.
   */
  datatype Log = Log(delivered: seq<S.Message>, accepted: seq<nat>, refused: seq<nat>, found: seq<nat>,
                     returned: seq<nat>, attempts: seq<R.Attempt>)

  datatype State = State(unread: seq<byte>, phase: Phase, handler: M.State, log: Log)

  datatype Event =
    | Receive(fits: bool) | HangUp
    // a submission, and the loop over completed entries
    | Submit(fits: bool) | Signal | Reap | Send(cut: nat)
    // an unlink
    | FindUnlink | PushUnlinked | Return(cut: nat)
    // the worker thread
    | Work(action: M.Action)

  /** The session begins with a handler that has just been started. */
  function Begin(stream: seq<byte>): State {
    State(stream, Receiving, M.Apply(M.Init(), M.Start), Log([], [], [], [], [], []))
  }

  function AsRequest(m: S.Message): Request {
    Request(m.header, m.payload)
  }

  /** The answer to a completed entry. */
  function AnswerTo(u: Urb): S.Message
    requires Answerable(u)
  {
    R.AsMessage(ReplyFor(u))
  }

  function ReturnTo(m: S.Message): S.Message {
    R.UnlinkReturn(m.header.seqnum, m.header.devid)
  }

  /** The step of the handler that an event is, if any. */
  function HandlerStep(s: State, e: Event): Option<M.Action> {
    match e
    case Submit(fits) => if fits && s.phase.Submitting? then Some(M.Submit(AsRequest(s.phase.m))) else None
    case Signal => Some(M.Signal)
    case Reap => Some(M.Reap)
    case Send(cut) =>
      if s.handler.session.Answering? && Answerable(s.handler.session.urb)
      then Some(M.Answer(cut == S.Size(AnswerTo(s.handler.session.urb)))) else None
    case FindUnlink =>
      if s.phase.Finding? && s.phase.m.header.Valid() then Some(M.FindUnlink(s.phase.m.header.arm[0])) else None
    case PushUnlinked => Some(M.PushUnlinked)
    case Work(a) => Some(a)
    case _ => None
  }

  /** The event fits the program point of the session thread. */
  predicate InPhase(s: State, e: Event) {
    var session := s.handler.session;
    match e
    case Receive(fits) =>
      var r := S.Parse(s.unread, S.Server);
      s.phase.Receiving? && r.Some? && (fits || r.value.0.payload == [])
    case HangUp => s.phase.Receiving?
    case Submit(_) => s.phase.Submitting?
    case Signal => s.phase.Draining? && session.Signalling?
    case Reap => s.phase.Draining? && session.Idle?
    case Send(cut) =>
      s.phase.Draining? && session.Answering? && Answerable(session.urb) && cut <= S.Size(AnswerTo(session.urb))
    case FindUnlink => s.phase.Finding? && s.phase.m.header.Valid()
    case PushUnlinked => s.phase.Returning? && session.Unlinking?
    case Return(cut) => s.phase.Returning? && session.Idle? && cut <= S.Size(ReturnTo(s.phase.m))
    case Work(a) => I.OfWorker(a)
  }

  predicate Enabled(s: State, e: Event) {
    InPhase(s, e) && (HandlerStep(s, e).Some? ==> M.Enabled(s.handler, HandlerStep(s, e).value))
  }

  /** The position of the message being served. */
  function Current(log: Log): nat {
    if log.delivered == [] then 0 else |log.delivered| - 1
  }

  /** What becomes of the submission being served. */
  function Noted(log: Log, fits: bool): Log {
    if fits then log.(accepted := log.accepted + [Current(log)]) else log.(refused := log.refused + [Current(log)])
  }

  function NextPhase(s: State, e: Event): Phase
    requires InPhase(s, e)
  {
    match e
    case Receive(_) =>
      var m := S.Parse(s.unread, S.Server).value.0;
      if m.header.command == USBIP_CMD_SUBMIT then Submitting(m)
      else if m.header.command == USBIP_CMD_UNLINK then Finding(m) else Receiving
    case HangUp => Ended
    case Submit(_) => Draining
    case Reap => if s.handler.completed == [] then Receiving else Draining
    case Send(cut) => if cut == S.Size(AnswerTo(s.handler.session.urb)) then Draining else Receiving
    case FindUnlink => Returning(s.phase.m)
    case Return(_) => Receiving
    case _ => s.phase
  }

  function NextLog(s: State, e: Event): Log
    requires Enabled(s, e)
  {
    var log := s.log;
    match e
    case Receive(_) => log.(delivered := log.delivered + [S.Parse(s.unread, S.Server).value.0])
    case Submit(fits) => Noted(log, fits)
    case Send(cut) => log.(attempts := log.attempts + [R.Attempt(AnswerTo(s.handler.session.urb), cut)])
    case FindUnlink =>
      if NextHandler(s, e).session.Unlinking? then log.(found := log.found + [Current(log)]) else log
    case Return(cut) =>
      log.(returned := log.returned + [Current(log)], attempts := log.attempts + [R.Attempt(ReturnTo(s.phase.m), cut)])
    case _ => log
  }

  function NextHandler(s: State, e: Event): M.State
    requires Enabled(s, e)
  {
    var step := HandlerStep(s, e);
    if step.None? then s.handler else M.Apply(s.handler, step.value)
  }

  function Apply(s: State, e: Event): State
    requires Enabled(s, e)
  {
    State(if e.Receive? then S.Parse(s.unread, S.Server).value.1 else s.unread, NextPhase(s, e), NextHandler(s, e),
          NextLog(s, e))
  }

  function Run(s: State, events: seq<Event>): Option<State>
    decreases |events|
  {
    if events == [] then Some(s)
    else if !Enabled(s, events[0]) then None
    else Run(Apply(s, events[0]), events[1..])
  }

  ghost predicate Reached(stream: seq<byte>, s: State) {
    exists events :: Run(Begin(stream), events) == Some(s)
  }

  // ---- The invariant ----

  /** The messages received are the first of those the client has sent. */
  predicate InputKept(stream: seq<byte>, s: State) {
    S.ParseAll(stream, S.Server) == s.log.delivered + S.ParseAll(s.unread, S.Server)
  }

  predicate IsCurrent(s: State, m: S.Message) {
    s.log.delivered != [] && m == s.log.delivered[|s.log.delivered| - 1] && m.header.Valid()
  }

  /** Which calls into the handler can be under way at which point. */
  predicate PhaseOk(s: State) {
    var session := s.handler.session;
    match s.phase
    case Submitting(m) => session.Idle? && IsCurrent(s, m) && m.header.command == USBIP_CMD_SUBMIT
    case Draining => session.Idle? || session.Signalling? || session.Answering?
    case Finding(m) => session.Idle? && IsCurrent(s, m) && m.header.command == USBIP_CMD_UNLINK
    case Returning(m) =>
      (session.Idle? || session.Unlinking?) && IsCurrent(s, m) && m.header.command == USBIP_CMD_UNLINK
    case _ => session.Idle?
  }

  /** The k-th request of the handler is the submission received at this position. */
  predicate IsSubmission(s: State, k: nat)
    requires k < |s.log.accepted| && k < |s.handler.h.requests|
  {
    var i := s.log.accepted[k];
    && i < |s.log.delivered| && s.log.delivered[i].header.command == USBIP_CMD_SUBMIT
    && s.handler.h.requests[k].header == s.log.delivered[i].header
    && s.handler.h.requests[k].data == s.log.delivered[i].payload
  }

  /** The handler's requests are the accepted submissions, in the order in which they were received. */
  predicate RequestsReceived(s: State) {
    && |s.handler.h.requests| == |s.log.accepted|
    && (forall k: nat | k < |s.log.accepted| :: IsSubmission(s, k))
    && (forall j, k | 0 <= j < k < |s.log.accepted| :: s.log.accepted[j] < s.log.accepted[k])
    && (s.phase.Submitting? ==> forall k | 0 <= k < |s.log.accepted| :: s.log.accepted[k] < Current(s.log))
  }

  /** A message received is dealt with, or is the one being served. */
  predicate DealtWith(s: State, i: nat)
    requires i < |s.log.delivered|
  {
    var command := s.log.delivered[i].header.command;
    && (command == USBIP_CMD_SUBMIT ==>
          i in s.log.accepted || i in s.log.refused || (s.phase.Submitting? && i == Current(s.log)))
    && (command == USBIP_CMD_UNLINK ==>
          i in s.log.returned || ((s.phase.Finding? || s.phase.Returning?) && i == Current(s.log)))
  }

  predicate NoneForgotten(s: State) {
    forall i: nat | i < |s.log.delivered| :: DealtWith(s, i)
  }

  predicate IsAnswerFor(m: S.Message, u: Urb) {
    Answerable(u) && m == AnswerTo(u)
  }

  /** Each entry the session has freed was answered once, in order. */
  predicate AnswersMade(s: State) {
    var answers := R.Answers(s.log.attempts);
    && |answers| == |s.handler.h.freed|
    && forall k: nat | k < |answers| && k < |s.handler.h.freed| :: IsAnswerFor(answers[k], s.handler.h.freed[k])
  }

  /** The answers to unlinks among the attempts, in order. */
  function Returns(attempts: seq<R.Attempt>): seq<S.Message> {
    if attempts == [] then []
    else
      var m := attempts[|attempts| - 1].message;
      var front := Returns(attempts[..|attempts| - 1]);
      if m.header.command == USBIP_RET_UNLINK then front + [m] else front
  }

  /** A RET_UNLINK (command 4) for the CMD_UNLINK (2) at this position: its seqnum and devid, the rest zeros. */
  predicate IsReturnFor(m: S.Message, log: Log, i: nat) {
    && i < |log.delivered| && log.delivered[i].header.command == 2
    && m.header.command == 4
    && m.header.seqnum == log.delivered[i].header.seqnum && m.header.devid == log.delivered[i].header.devid
    && m.header.direction == 0 && m.header.ep == 0 && m.header.arm == [0, 0, 0, 0, 0]
    && m.header.setup == [0, 0, 0, 0, 0, 0, 0, 0] && m.payload == []
  }

  predicate ReturnsLogged(log: Log) {
    var made := Returns(log.attempts);
    && |made| == |log.returned|
    && forall k: nat | k < |made| && k < |log.returned| :: IsReturnFor(made[k], log, log.returned[k])
  }

  /** Each unlink was answered once, in order. */
  predicate ReturnsMade(s: State) {
    ReturnsLogged(s.log)
  }

  /** No unlink is answered twice. */
  predicate ReturnedOnce(s: State) {
    && (forall j, k | 0 <= j < k < |s.log.returned| :: s.log.returned[j] < s.log.returned[k])
    && (s.phase.Finding? || s.phase.Returning? ==>
          forall k | 0 <= k < |s.log.returned| :: s.log.returned[k] < Current(s.log))
  }

  /** The answers recorded, and counted, by the handler are the RET_SUBMIT messages that went out whole. */
  predicate RepliesSent(s: State) {
    R.AsMessages(s.handler.h.replies) == R.AnswersSent(s.log.attempts)
  }

  /** The k-th entry cancelled is that of a submission received before an unlink (command 2) that names it. */
  predicate CancelledByUnlink(s: State, k: nat)
    requires k < |s.log.found| && k < |s.handler.h.cancelled|
  {
    var i, id := s.log.found[k], s.handler.h.cancelled[k];
    && i < |s.log.delivered| && s.log.delivered[i].header.command == 2 && s.log.delivered[i].header.Valid()
    && id < |s.log.accepted| && id < |s.handler.h.requests| && s.log.accepted[id] < i
    && s.handler.h.requests[id].header.seqnum == s.log.delivered[i].header.arm[0]
  }

  /** Every entry cancelled has such an unlink of its own. */
  predicate CancelsTraced(s: State) {
    && |s.log.found| == |s.handler.h.cancelled|
    && (forall k: nat | k < |s.log.found| :: CancelledByUnlink(s, k))
    && (forall j, k | 0 <= j < k < |s.log.found| :: s.log.found[j] < s.log.found[k])
    && (s.phase.Finding? ==> forall k | 0 <= k < |s.log.found| :: s.log.found[k] < Current(s.log))
  }

  ghost predicate Inv(stream: seq<byte>, s: State) {
    && InputKept(stream, s) && PhaseOk(s) && RequestsReceived(s) && NoneForgotten(s) && AnswersMade(s)
    && RepliesSent(s) && CancelsTraced(s) && ReturnsMade(s) && ReturnedOnce(s) && R.AllValid(s.log.attempts)
    && M.Reachable(s.handler)
  }

  // ---- Single steps ----

  lemma OneMoreReceived(stream: seq<byte>, delivered: seq<S.Message>, unread: seq<byte>, m: S.Message, rest: seq<byte>)
    requires S.ParseAll(stream, S.Server) == delivered + S.ParseAll(unread, S.Server)
    requires S.Parse(unread, S.Server) == Some((m, rest))
    ensures S.ParseAll(stream, S.Server) == delivered + [m] + S.ParseAll(rest, S.Server)
  {
    S.ParseAllStep(unread, m, rest, S.Server);
    Associative(delivered, [m], S.ParseAll(rest, S.Server));
  }

  lemma InputStaysKept(stream: seq<byte>, s: State, e: Event)
    requires InputKept(stream, s) && Enabled(s, e)
    ensures InputKept(stream, Apply(s, e))
  {
    if e.Receive? {
      var (m, rest) := S.Parse(s.unread, S.Server).value;
      OneMoreReceived(stream, s.log.delivered, s.unread, m, rest);
    }
  }

  lemma WorkerKeepsSession(s: M.State, a: M.Action)
    requires M.Enabled(s, a) && I.OfWorker(a)
    ensures M.Apply(s, a).session == s.session
  {
  }

  lemma ReceivedIsValid(s: State)
    requires InPhase(s, Receive(true)) || InPhase(s, Receive(false))
    ensures S.Parse(s.unread, S.Server).value.0.header.Valid()
  {
  }

  lemma PhaseStaysOk(s: State, e: Event)
    requires PhaseOk(s) && Enabled(s, e)
    ensures PhaseOk(Apply(s, e))
  {
    if e.Work? {
      WorkerKeepsSession(s.handler, e.action);
    }
  }

  /** Only submissions add requests. */
  lemma OnlySubmitRequests(s: M.State, a: M.Action)
    requires M.Enabled(s, a) && !a.Submit?
    ensures M.Apply(s, a).h.requests == s.h.requests
  {
  }

  lemma OthersRequestNothing(s: State, e: Event)
    requires Enabled(s, e) && e != Submit(true)
    ensures NextHandler(s, e).h.requests == s.handler.h.requests && NextLog(s, e).accepted == s.log.accepted
    ensures s.log.delivered <= NextLog(s, e).delivered
  {
    var step := HandlerStep(s, e);
    if step.Some? {
      OnlySubmitRequests(s.handler, step.value);
    }
  }

  /** Every accepted submission was received before the one being submitted. */
  lemma AcceptedEarlier(s: State, k: nat)
    requires RequestsReceived(s) && k < |s.log.accepted|
    ensures s.log.accepted[k] < |s.log.delivered|
  {
    assert IsSubmission(s, k);
  }

  lemma SubmissionStays(s: State, t: State, k: nat)
    requires k < |s.log.accepted| && k < |s.handler.h.requests| && IsSubmission(s, k)
    requires s.log.accepted <= t.log.accepted && s.handler.h.requests <= t.handler.h.requests
    requires s.log.delivered <= t.log.delivered
    ensures IsSubmission(t, k)
  {
    var i := s.log.accepted[k];
    assert t.log.delivered[i] == s.log.delivered[i];
  }

  lemma OthersKeepRequests(s: State, e: Event)
    requires RequestsReceived(s) && PhaseOk(s) && Enabled(s, e) && e != Submit(true)
    ensures RequestsReceived(Apply(s, e))
  {
    var t := Apply(s, e);
    OthersRequestNothing(s, e);
    forall k: nat | k < |t.log.accepted| ensures IsSubmission(t, k) {
      SubmissionStays(s, t, k);
    }
    if t.phase.Submitting? {
      forall k: nat | k < |t.log.accepted| ensures t.log.accepted[k] < Current(t.log) {
        AcceptedEarlier(s, k);
        assert e.Receive? || e.Work?;
      }
    }
  }

  lemma SubmitKeepsRequests(s: State)
    requires RequestsReceived(s) && PhaseOk(s) && Enabled(s, Submit(true))
    ensures RequestsReceived(Apply(s, Submit(true)))
  {
    var t := Apply(s, Submit(true));
    assert t.handler.h.requests == s.handler.h.requests + [AsRequest(s.phase.m)];
    assert t.log.accepted == s.log.accepted + [Current(s.log)] && t.log.delivered == s.log.delivered;
    forall k: nat | k < |t.log.accepted| ensures IsSubmission(t, k) {
      if k < |s.log.accepted| {
        SubmissionStays(s, t, k);
      }
    }
  }

  lemma RequestsStayReceived(s: State, e: Event)
    requires RequestsReceived(s) && PhaseOk(s) && Enabled(s, e)
    ensures RequestsReceived(Apply(s, e))
  {
    if e == Submit(true) {
      SubmitKeepsRequests(s);
    } else {
      OthersKeepRequests(s, e);
    }
  }

  lemma LogsGrow(s: State, e: Event)
    requires Enabled(s, e)
    ensures
      var log := NextLog(s, e);
      s.log.accepted <= log.accepted && s.log.refused <= log.refused && s.log.returned <= log.returned
  {
  }

  lemma NoneIsForgotten(s: State, e: Event)
    requires NoneForgotten(s) && PhaseOk(s) && Enabled(s, e)
    ensures NoneForgotten(Apply(s, e))
  {
    var t := Apply(s, e);
    LogsGrow(s, e);
    forall i: nat | i < |t.log.delivered| ensures DealtWith(t, i) {
      if i < |s.log.delivered| {
        assert DealtWith(s, i);
        assert t.log.delivered[i] == s.log.delivered[i];
      }
    }
  }

  lemma AttemptsOf(attempts: seq<R.Attempt>, a: R.Attempt)
    ensures R.Answers(attempts + [a]) ==
      if a.message.header.command == USBIP_RET_SUBMIT then R.Answers(attempts) + [a.message] else R.Answers(attempts)
    ensures Returns(attempts + [a]) ==
      if a.message.header.command == USBIP_RET_UNLINK then Returns(attempts) + [a.message] else Returns(attempts)
  {
    assert (attempts + [a])[..|attempts|] == attempts;
  }

  /** Only answers to completed entries free them. */
  lemma OthersFreeNothing(s: State, e: Event)
    requires Enabled(s, e) && !e.Send?
    ensures NextHandler(s, e).h.freed == s.handler.h.freed
    ensures R.Answers(NextLog(s, e).attempts) == R.Answers(s.log.attempts)
  {
    var step := HandlerStep(s, e);
    if step.Some? {
      I.OnlyAnswersRecord(s.handler, step.value);
    }
    if e.Return? {
      AttemptsOf(s.log.attempts, R.Attempt(ReturnTo(s.phase.m), e.cut));
    }
  }

  lemma AnswersStayMade(s: State, e: Event)
    requires AnswersMade(s) && Enabled(s, e)
    ensures AnswersMade(Apply(s, e))
  {
    if e.Send? {
      var u := s.handler.session.urb;
      AttemptsOf(s.log.attempts, R.Attempt(AnswerTo(u), e.cut));
      assert NextHandler(s, e).h.freed == s.handler.h.freed + [u];
      assert IsAnswerFor(AnswerTo(u), u);
    } else {
      OthersFreeNothing(s, e);
    }
  }

  lemma OthersReplyNothing(s: State, e: Event)
    requires Enabled(s, e) && !e.Send?
    ensures NextHandler(s, e).h.replies == s.handler.h.replies
    ensures R.AnswersSent(NextLog(s, e).attempts) == R.AnswersSent(s.log.attempts)
  {
    var step := HandlerStep(s, e);
    if step.Some? {
      I.OnlyAnswersRecord(s.handler, step.value);
    }
    if e.Return? {
      R.AnswersSentNext(s.log.attempts, R.Attempt(ReturnTo(s.phase.m), e.cut));
    }
  }

  lemma RepliesStaySent(s: State, e: Event)
    requires RepliesSent(s) && Enabled(s, e)
    ensures RepliesSent(Apply(s, e))
  {
    if e.Send? {
      var u := s.handler.session.urb;
      R.AnswersSentNext(s.log.attempts, R.Attempt(AnswerTo(u), e.cut));
      R.AsMessagesNext(s.handler.h.replies, ReplyFor(u));
    } else {
      OthersReplyNothing(s, e);
    }
  }

  /** In a session only unlinks cancel. */
  lemma OnlyUnlinksCancel(s: State, e: Event)
    requires Enabled(s, e) && !e.FindUnlink?
    ensures NextHandler(s, e).h.cancelled == s.handler.h.cancelled && NextLog(s, e).found == s.log.found
  {
  }

  lemma CancelStaysTraced(s: State, t: State, k: nat)
    requires k < |s.log.found| && k < |s.handler.h.cancelled| && CancelledByUnlink(s, k)
    requires s.log.found <= t.log.found && s.handler.h.cancelled <= t.handler.h.cancelled
    requires s.log.delivered <= t.log.delivered && s.log.accepted <= t.log.accepted
    requires s.handler.h.requests <= t.handler.h.requests
    ensures k < |t.log.found| && k < |t.handler.h.cancelled| && CancelledByUnlink(t, k)
  {
    var i, id := s.log.found[k], s.handler.h.cancelled[k];
    assert t.log.delivered[i] == s.log.delivered[i] && t.log.accepted[id] == s.log.accepted[id];
  }

  lemma HistoryAndLogGrow(s: State, e: Event)
    requires Enabled(s, e)
    ensures s.log.delivered <= NextLog(s, e).delivered && s.log.accepted <= NextLog(s, e).accepted
    ensures s.handler.h.requests <= NextHandler(s, e).h.requests
  {
    if e != Submit(true) {
      OthersRequestNothing(s, e);
    }
  }

  lemma OthersKeepTraces(s: State, e: Event)
    requires CancelsTraced(s) && PhaseOk(s) && Enabled(s, e) && !e.FindUnlink?
    ensures CancelsTraced(Apply(s, e))
  {
    var t := Apply(s, e);
    OnlyUnlinksCancel(s, e);
    HistoryAndLogGrow(s, e);
    forall k: nat | k < |t.log.found| ensures CancelledByUnlink(t, k) {
      CancelStaysTraced(s, t, k);
    }
    if t.phase.Finding? {
      forall k: nat | k < |t.log.found| ensures t.log.found[k] < Current(t.log) {
        assert CancelledByUnlink(s, k);
        assert e.Receive? || e.Work?;
      }
    }
  }

  /** What an unlink takes is the entry of an accepted submission with the sequence number it names. */
  lemma UnlinkTaken(s: M.State, seqnum: uint32)
    requires M.Reachable(s) && s.session.Idle? && M.DoFindUnlink(s, seqnum).session.Unlinking?
    ensures
      var t := M.DoFindUnlink(s, seqnum);
      && |t.h.cancelled| == |s.h.cancelled| + 1 && s.h.cancelled <= t.h.cancelled && t.h.requests == s.h.requests
      && var id := t.h.cancelled[|s.h.cancelled|];
         id < |s.h.requests| && s.h.requests[id].header.seqnum == seqnum
  {
    var i := M.FirstMatch(s.pending, seqnum);
    I.ReachableInv(s);
    var k := |M.InFlight(s)| + i;
    assert M.Ahead(s)[k] == s.pending[i] && M.Fresh(s, M.Ahead(s)[k]);
  }

  lemma UnlinkKeepsTraces(s: State)
    requires CancelsTraced(s) && RequestsReceived(s) && PhaseOk(s) && M.Reachable(s.handler) && Enabled(s, FindUnlink)
    ensures CancelsTraced(Apply(s, FindUnlink))
  {
    var t := Apply(s, FindUnlink);
    forall k: nat | k < |s.log.found|
      ensures k < |t.log.found| && k < |t.handler.h.cancelled| && CancelledByUnlink(t, k) {
      assert CancelledByUnlink(s, k);
    }
    if t.handler.session.Unlinking? {
      UnlinkTaken(s.handler, s.phase.m.header.arm[0]);
      var id := t.handler.h.cancelled[|s.handler.h.cancelled|];
      AcceptedEarlier(s, id);
      assert IsSubmission(s, id) && s.log.accepted[id] != Current(s.log);
    }
  }

  lemma OthersReturnNothing(s: State, e: Event)
    requires Enabled(s, e) && !e.Return?
    ensures NextLog(s, e).returned == s.log.returned && s.log.delivered <= NextLog(s, e).delivered
    ensures Returns(NextLog(s, e).attempts) == Returns(s.log.attempts)
  {
    if e.Send? {
      AttemptsOf(s.log.attempts, R.Attempt(AnswerTo(s.handler.session.urb), e.cut));
    }
  }

  lemma ReturnsStayLogged(log: Log, next: Log)
    requires ReturnsLogged(log) && log.delivered <= next.delivered
    requires next.returned == log.returned && Returns(next.attempts) == Returns(log.attempts)
    ensures ReturnsLogged(next)
  {
    var made := Returns(log.attempts);
    forall k: nat | k < |made| ensures IsReturnFor(made[k], next, log.returned[k]) {
      assert IsReturnFor(made[k], log, log.returned[k]);
    }
  }

  lemma ReturnLogged(log: Log, m: S.Message, cut: nat)
    requires ReturnsLogged(log) && IsReturnFor(ReturnTo(m), log, Current(log))
    ensures ReturnsLogged(log.(returned := log.returned + [Current(log)],
                               attempts := log.attempts + [R.Attempt(ReturnTo(m), cut)]))
  {
    AttemptsOf(log.attempts, R.Attempt(ReturnTo(m), cut));
    var made := Returns(log.attempts);
    forall k: nat | k < |made| ensures IsReturnFor(made[k], log, log.returned[k]) {
    }
  }

  lemma ReturnsStayMade(s: State, e: Event)
    requires ReturnsMade(s) && PhaseOk(s) && Enabled(s, e)
    ensures ReturnsMade(Apply(s, e))
  {
    if e.Return? {
      assert IsCurrent(s, s.phase.m);
      ReturnLogged(s.log, s.phase.m, e.cut);
    } else {
      OthersReturnNothing(s, e);
      ReturnsStayLogged(s.log, NextLog(s, e));
    }
  }

  lemma StaysReturnedOnce(s: State, e: Event)
    requires ReturnsMade(s) && ReturnedOnce(s) && PhaseOk(s) && Enabled(s, e)
    ensures ReturnedOnce(Apply(s, e))
  {
    forall k: nat | k < |s.log.returned| ensures s.log.returned[k] < |s.log.delivered| {
      assert IsReturnFor(Returns(s.log.attempts)[k], s.log, s.log.returned[k]);
    }
  }

  /** The entry about to be answered has an answer that is framed for the client. */
  lemma AnswerIsFramed(s: M.State)
    requires M.Reachable(s) && s.session.Answering?
    ensures Answerable(s.session.urb) && S.WellFormed(AnswerTo(s.session.urb), S.Client)
  {
    var u := s.session.urb;
    assert M.Behind(s)[|s.h.freed|] == u;
    T.SettledIsAnswered(s, |s.h.freed|);
    R.AnswerWellFormed(ReplyFor(u), s.h.requests[u.id], T.OutcomeOf(s.h, u.id));
  }

  lemma AttemptsStayValid(s: State, e: Event)
    requires R.AllValid(s.log.attempts) && M.Reachable(s.handler) && Enabled(s, e)
    ensures R.AllValid(NextLog(s, e).attempts)
  {
    if e.Send? {
      AnswerIsFramed(s.handler);
    }
  }

  lemma HandlerStaysReachable(s: State, e: Event)
    requires M.Reachable(s.handler) && Enabled(s, e)
    ensures M.Reachable(NextHandler(s, e))
  {
    var step := HandlerStep(s, e);
    if step.Some? {
      I.ReachableNext(s.handler, step.value);
    }
  }

  // ---- All runs ----

  lemma InvKept(stream: seq<byte>, s: State, e: Event)
    requires Inv(stream, s) && Enabled(s, e)
    ensures Inv(stream, Apply(s, e))
  {
    InputStaysKept(stream, s, e);
    PhaseStaysOk(s, e);
    RequestsStayReceived(s, e);
    NoneIsForgotten(s, e);
    AnswersStayMade(s, e);
    RepliesStaySent(s, e);
    if e.FindUnlink? {
      UnlinkKeepsTraces(s);
    } else {
      OthersKeepTraces(s, e);
    }
    ReturnsStayMade(s, e);
    StaysReturnedOnce(s, e);
    AttemptsStayValid(s, e);
    HandlerStaysReachable(s, e);
  }

  lemma BeginInv(stream: seq<byte>)
    ensures Inv(stream, Begin(stream))
  {
    assert M.Run(M.Init(), []) == Some(M.Init());
    I.ReachableNext(M.Init(), M.Start);
    assert [] + S.ParseAll(stream, S.Server) == S.ParseAll(stream, S.Server);
  }

  lemma {:induction false} RunKeepsInv(stream: seq<byte>, s: State, events: seq<Event>)
    requires Inv(stream, s)
    ensures Run(s, events).Some? ==> Inv(stream, Run(s, events).value)
    decreases |events|
  {
    if events != [] && Enabled(s, events[0]) {
      InvKept(stream, s, events[0]);
      RunKeepsInv(stream, Apply(s, events[0]), events[1..]);
    }
  }

  lemma ReachedInv(stream: seq<byte>, s: State)
    requires Reached(stream, s)
    ensures Inv(stream, s)
  {
    var events :| Run(Begin(stream), events) == Some(s);
    BeginInv(stream);
    RunKeepsInv(stream, Begin(stream), events);
  }

  // ---- What the client gets ----

  /** The submission, by its position among the messages received, that the k-th answer is for. */
  function SubmissionOf(s: State, k: nat): Option<nat> {
    if k < |s.handler.h.freed| && s.handler.h.freed[k].id < |s.log.accepted|
    then Some(s.log.accepted[s.handler.h.freed[k].id]) else None
  }

  /** The k-th answer is the answer to an accepted submission, by what the device did with that one. */
  predicate AnswersSubmission(s: State, k: nat)
    requires M.Parallel(s.handler) && k < |R.Answers(s.log.attempts)|
  {
    var m, i := R.Answers(s.log.attempts)[k], SubmissionOf(s, k);
    && i.Some? && i.value < |s.log.delivered| && s.log.delivered[i.value].header.Valid()
    && s.log.delivered[i.value].header.command == USBIP_CMD_SUBMIT
    && AnswersRequest(Reply(m.header, m.payload), AsRequest(s.log.delivered[i.value]),
                      T.OutcomeOf(s.handler.h, s.handler.h.freed[k].id))
  }

  lemma AnswerOfSubmission(stream: seq<byte>, s: State, k: nat)
    requires Inv(stream, s) && M.Parallel(s.handler) && k < |R.Answers(s.log.attempts)|
    ensures AnswersSubmission(s, k)
  {
    var u := s.handler.h.freed[k];
    assert IsAnswerFor(R.Answers(s.log.attempts)[k], u);
    assert M.Behind(s.handler)[k] == u;
    T.SettledIsAnswered(s.handler, k);
    assert IsSubmission(s, u.id);
  }

  lemma AnsweredOnce(stream: seq<byte>, s: State, j: nat, k: nat)
    requires Inv(stream, s) && M.Parallel(s.handler) && j < k < |R.Answers(s.log.attempts)|
    ensures SubmissionOf(s, j) != SubmissionOf(s, k)
  {
    AnswerOfSubmission(stream, s, j);
    AnswerOfSubmission(stream, s, k);
    T.FreedOnce(s.handler, j, k);
    var x, y := s.handler.h.freed[j].id, s.handler.h.freed[k].id;
    assert x < y ==> s.log.accepted[x] < s.log.accepted[y];
    assert y < x ==> s.log.accepted[y] < s.log.accepted[x];
  }

  /**
   * End to end, for every stream the client sends and every interleaving with the worker: what is received is
   * an initial part of the client's messages; each answer is for one submission among them, a different one
   * each, and tells what the device did with it; the answers the handler has on record, whose data it counts in 64
   * bits, are exactly those sent whole, in order; each entry cancelled is one that an unlink of its own, received
   * later, names; each unlink is answered once, in order; and a reader of the message format on the other end finds
   * exactly what was sent whole, if and only if nothing was torn.
   */
  lemma EndToEnd(stream: seq<byte>, s: State)
    requires Reached(stream, s)
    ensures s.log.delivered <= S.ParseAll(stream, S.Server)
    ensures M.Parallel(s.handler)
    ensures forall k: nat | k < |R.Answers(s.log.attempts)| :: AnswersSubmission(s, k)
    ensures forall j: nat, k: nat | j < k < |R.Answers(s.log.attempts)| :: SubmissionOf(s, j) != SubmissionOf(s, k)
    ensures R.AsMessages(s.handler.h.replies) == R.AnswersSent(s.log.attempts)
    ensures s.handler.h.bytesSent == R.DataBytes(R.AnswersSent(s.log.attempts)) % 0x1_0000_0000_0000_0000
    ensures CancelsTraced(s) && ReturnsMade(s) && ReturnedOnce(s) && NoneForgotten(s)
    ensures R.AllValid(s.log.attempts)
    ensures R.ReadsExactly(R.Written(s.log.attempts), R.Sent(s.log.attempts)) <==> R.NoneTorn(s.log.attempts)
  {
    ReachedInv(stream, s);
    I.ReachableInv(s.handler);
    forall k: nat | k < |R.Answers(s.log.attempts)| ensures AnswersSubmission(s, k) {
      AnswerOfSubmission(stream, s, k);
    }
    forall j: nat, k: nat | j < k < |R.Answers(s.log.attempts)| ensures SubmissionOf(s, j) != SubmissionOf(s, k) {
      AnsweredOnce(stream, s, j, k);
    }
    R.DataOfReplies(s.handler.h.replies);
    T.WrappedIsRemainder(M.PayloadBytes(s.handler.h.replies));
    R.ReadsSentIff(s.log.attempts);
  }

  /**
   * The loop over completed entries goes on exactly while there is one to take and, after taking it, exactly if its
   * answer of 48 bytes and the data went out whole.
   */
  lemma DrainingGoesOnIff(s: State, e: Event)
    requires Enabled(s, e) && (e.Reap? || e.Send?)
    ensures
      var t := Apply(s, e);
      && (t.phase.Draining? || t.phase.Receiving?)
      && (e.Reap? ==> (t.phase.Draining? <==> s.handler.completed != []))
      && (e.Send? ==> (t.phase.Draining? <==> e.cut == 48 + |ReplyFor(s.handler.session.urb).payload|))
  {
  }

  /**
   * An unlink received takes the oldest pending entry with the sequence number in its first word, marked cancelled;
   * with no such entry the handler stays as it is.
   */
  lemma UnlinkServed(s: State, i: nat)
    requires s.phase.Finding? && s.phase.m.header.Valid() && s.handler.session.Idle?
    requires
      var pending, seqnum := s.handler.pending, s.phase.m.header.arm[0];
      && i <= |pending| && (i < |pending| ==> pending[i].seqnum == seqnum)
      && forall k | 0 <= k < i :: pending[k].seqnum != seqnum
    ensures
      && Enabled(s, FindUnlink)
      && var h, t := s.handler, Apply(s, FindUnlink).handler;
         if i == |h.pending| then t == h
         else
           && t.pending == h.pending[..i] + h.pending[i + 1..] && t.completed == h.completed && t.worker == h.worker
           && t.session.Unlinking? && T.CancelledFrom(h.pending[i], t.session.urb)
  {
    var seqnum := s.phase.m.header.arm[0];
    if i == |s.handler.pending| {
      T.UnlinkOfNothing(s.handler, seqnum);
    } else {
      T.UnlinkTakesOldest(s.handler, seqnum, i);
    }
  }

  /** A step the session thread can take at its program point, with sends that fail at once. */
  function OwnStep(s: State): (e: Event)
    ensures !e.Work?
  {
    var session := s.handler.session;
    match s.phase
    case Receiving => HangUp
    case Submitting(_) => Submit(false)
    case Draining => if session.Answering? then Send(0) else if session.Signalling? then Signal else Reap
    case Finding(_) => FindUnlink
    case Returning(_) => if session.Unlinking? then PushUnlinked else Return(0)
    case Ended => HangUp
  }

  lemma OwnStepEnabled(s: State)
    requires PhaseOk(s) && !s.phase.Ended? && (s.handler.session.Answering? ==> Answerable(s.handler.session.urb))
    ensures Enabled(s, OwnStep(s))
  {
  }

  /** The session thread never waits for the worker: until it ends, it always has a step of its own. */
  lemma NeverStuck(stream: seq<byte>, s: State)
    requires Reached(stream, s) && !s.phase.Ended?
    ensures Enabled(s, OwnStep(s))
  {
    ReachedInv(stream, s);
    if s.handler.session.Answering? {
      AnswerIsFramed(s.handler);
    }
    OwnStepEnabled(s);
  }

  // ---- The steps one by one ----

  lemma {:induction false} RunOneMore(s: State, events: seq<Event>, e: Event)
    requires Run(s, events).Some? && Enabled(Run(s, events).value, e)
    ensures Run(s, events + [e]) == Some(Apply(Run(s, events).value, e))
    decreases |events|
  {
    var more := events + [e];
    if events == [] {
      assert Run(Apply(s, e), more[1..]) == Some(Apply(s, e));
    } else {
      RunOneMore(Apply(s, events[0]), events[1..], e);
      assert more[1..] == events[1..] + [e];
    }
  }

  lemma ReachedNext(stream: seq<byte>, s: State, e: Event)
    requires Reached(stream, s) && Enabled(s, e)
    ensures Reached(stream, Apply(s, e))
  {
    var events :| Run(Begin(stream), events) == Some(s);
    RunOneMore(Begin(stream), events, e);
  }

  lemma Begins(stream: seq<byte>)
    ensures Reached(stream, Begin(stream))
  {
    assert Run(Begin(stream), []) == Some(Begin(stream));
  }

  lemma Received(stream: seq<byte>, s: State, m: S.Message, rest: seq<byte>, fits: bool) returns (t: State)
    requires Reached(stream, s) && s.phase.Receiving? && S.Parse(s.unread, S.Server) == Some((m, rest))
    requires fits || m.payload == []
    ensures Reached(stream, t) && t.unread == rest && t.handler == s.handler
    ensures t.log == s.log.(delivered := s.log.delivered + [m])
    ensures t.handler.session.Idle? && m.header.Valid()
    ensures t.phase == if m.header.command == USBIP_CMD_SUBMIT then Submitting(m)
                       else if m.header.command == USBIP_CMD_UNLINK then Finding(m) else Receiving
  {
    t := Apply(s, Receive(fits));
    ReachedNext(stream, s, Receive(fits));
    ReachedInv(stream, t);
  }

  lemma HungUp(stream: seq<byte>, s: State) returns (t: State)
    requires Reached(stream, s) && s.phase.Receiving?
    ensures Reached(stream, t) && t == s.(phase := Ended)
  {
    t := Apply(s, HangUp);
    ReachedNext(stream, s, HangUp);
  }

  lemma Submitted(stream: seq<byte>, s: State, fits: bool) returns (t: State)
    requires Reached(stream, s) && s.phase.Submitting? && s.handler.session.Idle? && s.phase.m.header.Valid()
    ensures Reached(stream, t) && t.phase == Draining && t.unread == s.unread && t.log == Noted(s.log, fits)
    ensures t.handler == if fits then M.DoSubmit(s.handler, AsRequest(s.phase.m)) else s.handler
  {
    t := Apply(s, Submit(fits));
    ReachedNext(stream, s, Submit(fits));
  }

  lemma Signalled(stream: seq<byte>, s: State) returns (t: State)
    requires Reached(stream, s) && s.phase.Draining? && s.handler.session.Signalling?
    ensures Reached(stream, t) && t == s.(handler := s.handler.(event := true, session := M.Idle))
  {
    t := Apply(s, Signal);
    ReachedNext(stream, s, Signal);
  }

  lemma Reaped(stream: seq<byte>, s: State) returns (t: State)
    requires Reached(stream, s) && s.phase.Draining? && s.handler.session.Idle?
    ensures Reached(stream, t) && t.unread == s.unread && t.log == s.log && t.handler == M.DoReap(s.handler)
    ensures t.phase == if s.handler.completed == [] then Receiving else Draining
    ensures t.handler.session.Answering? ==> IsFramed(t.handler.session.urb)
  {
    t := Apply(s, Reap);
    ReachedNext(stream, s, Reap);
    ReachedInv(stream, t);
    if t.handler.session.Answering? {
      AnswerIsFramed(t.handler);
    }
  }

  predicate IsFramed(u: Urb) {
    Answerable(u) && S.WellFormed(AnswerTo(u), S.Client)
  }

  lemma Replied(stream: seq<byte>, s: State, a: R.Attempt) returns (t: State)
    requires Reached(stream, s) && s.phase.Draining? && s.handler.session.Answering?
    requires IsFramed(s.handler.session.urb) && a.Valid() && a.message == AnswerTo(s.handler.session.urb)
    ensures Reached(stream, t) && t.unread == s.unread && t.log == s.log.(attempts := s.log.attempts + [a])
    ensures t.handler == M.DoAnswer(s.handler, a.Whole()) && t.phase == if a.Whole() then Draining else Receiving
  {
    t := Apply(s, Send(a.sent));
    ReachedNext(stream, s, Send(a.sent));
  }

  lemma Found(stream: seq<byte>, s: State) returns (t: State)
    requires Reached(stream, s) && s.phase.Finding? && s.handler.session.Idle? && s.phase.m.header.Valid()
    ensures Reached(stream, t) && t.unread == s.unread && t.phase == Returning(s.phase.m)
    ensures t.log == s.log.(found := t.log.found)
    ensures t.handler == M.DoFindUnlink(s.handler, s.phase.m.header.arm[0])
  {
    t := Apply(s, FindUnlink);
    ReachedNext(stream, s, FindUnlink);
  }

  lemma Pushed(stream: seq<byte>, s: State) returns (t: State)
    requires Reached(stream, s) && s.phase.Returning? && s.handler.session.Unlinking?
    ensures Reached(stream, t)
    ensures t == s.(handler := M.DoComplete(s.handler, s.handler.session.urb, s.handler.worker, M.Idle))
  {
    t := Apply(s, PushUnlinked);
    ReachedNext(stream, s, PushUnlinked);
  }

  lemma Returned(stream: seq<byte>, s: State, a: R.Attempt) returns (t: State)
    requires Reached(stream, s) && s.phase.Returning? && s.handler.session.Idle?
    requires a.Valid() && a.message == ReturnTo(s.phase.m)
    ensures Reached(stream, t) && t.unread == s.unread && t.handler == s.handler && t.phase == Receiving
    ensures t.log == s.log.(returned := s.log.returned + [Current(s.log)], attempts := s.log.attempts + [a])
  {
    t := Apply(s, Return(a.sent));
    ReachedNext(stream, s, Return(a.sent));
  }

  lemma Worked(stream: seq<byte>, s: State, a: M.Action, next: M.State) returns (t: State)
    requires Reached(stream, s) && I.OfWorker(a) && M.Enabled(s.handler, a) && next == M.Apply(s.handler, a)
    ensures Reached(stream, t) && t == s.(handler := next) && next.session == s.handler.session
    ensures next.h.requests == s.handler.h.requests
  {
    t := Apply(s, Work(a));
    ReachedNext(stream, s, Work(a));
    WorkerKeepsSession(s.handler, a);
    OnlySubmitRequests(s.handler, a);
  }
}
