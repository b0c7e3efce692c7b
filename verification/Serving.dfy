/**
 * The loop of `handle_client_session` for an attached client (server/main.c:168-228) on the objects it works on:
 * the socket, and the handler with its linked queues, whose worker moves in between. Whatever both do, the run is
 * one of `Attached`.
 */
module Serving {
  import opened Bytes
  import opened Structs
  import opened Net
  import opened Seqs
  import opened Urbs
  import opened UrbHandler
  import A = Attached
  import M = UrbMachine
  import R = Replies
  import S = Session

  /** The objects are as in a state of a run for the bytes `stream` sent by the client. */
  ghost predicate Live(handler: Handler, stream: seq<byte>, c: A.State)
    reads handler.Repr()
  {
    handler.Represents(c.handler) && A.Reached(stream, c)
  }

  // ---- The worker ----

  /** Where the worker thread is. */
  datatype Point = AtStart | AtCheck | AtPop | AtWait | AtTransfer | AtPush | Gone

  function PointOf(w: M.Worker): Point {
    match w
    case NotStarted => AtStart
    case Checking => AtCheck
    case Popping => AtPop
    case Waiting => AtWait
    case Executing(_) => AtTransfer
    case Completing(_) => AtPush
    case Exited => Gone
  }

  /** What decides the next step of the worker: how a wait ends, and what the device does. */
  datatype Move = Move(wait: M.WaitResult, outcome: DeviceResult)

  /** How a wait can end: by the signal if there is one, otherwise not by it. */
  function Possible(wait: M.WaitResult, event: bool): (r: M.WaitResult)
    ensures if event then !r.Timeout? else !r.Signalled?
    ensures (if event then !wait.Timeout? else !wait.Signalled?) ==> r == wait
  {
    if event && wait.Timeout? then M.Signalled else if !event && wait.Signalled? then M.Timeout else wait
  }

  /** What the device can do: it never moves more than the buffer holds. */
  function Bounded(outcome: DeviceResult, u: Urb): (r: DeviceResult)
    ensures Fits(u, r) && (Fits(u, outcome) ==> r == outcome)
  {
    if Fits(u, outcome) then outcome else DeviceResult(false, [])
  }

  /** The step of the worker. */
  function Moved(s: M.State, move: Move): M.State {
    match s.worker
    case Checking => s.(worker := if s.running then M.Popping else M.Exited)
    case Popping => M.DoPop(s)
    case Waiting => M.DoWait(s, Possible(move.wait, s.event))
    case Executing(u) => M.DoTransfer(s, Bounded(move.outcome, u))
    case Completing(u) => M.DoComplete(s, u, M.Checking, s.session)
    case _ => s
  }

  /** What a step of the worker leaves alone. */
  predicate WorkerStep(c: A.State, t: A.State) {
    && t == c.(handler := t.handler) && t.handler.session == c.handler.session
    && |t.handler.h.requests| == |c.handler.h.requests|
  }

  lemma CheckWorks(stream: seq<byte>, c: A.State) returns (t: A.State)
    requires A.Reached(stream, c) && c.handler.worker.Checking?
    ensures A.Reached(stream, t)
    ensures t == c.(handler := c.handler.(worker := if c.handler.running then M.Popping else M.Exited))
    ensures WorkerStep(c, t) && PointOf(t.handler.worker) == if c.handler.running then AtPop else Gone
  {
    t := A.Worked(stream, c, M.Check, M.Apply(c.handler, M.Check));
  }

  /** The loop test. */
  method CheckMove(handler: Handler, ghost stream: seq<byte>, ghost c: A.State)
    returns (next: Point, ghost t: A.State)
    requires Live(handler, stream, c) && c.handler.worker.Checking?
    modifies handler.Repr()
    ensures Live(handler, stream, t) && next == PointOf(t.handler.worker)
    ensures WorkerStep(c, t) && handler.Repr() <= old(handler.Repr())
    ensures t.handler == c.handler.(worker := if c.handler.running then M.Popping else M.Exited)
  {
    var go: bool;
    ghost var s;
    go, s := handler.Check(c.handler);
    assert go <==> c.handler.running;
    next := if go then AtPop else Gone;
    t := CheckWorks(stream, c);
  }

  lemma PopWorks(stream: seq<byte>, c: A.State) returns (t: A.State)
    requires A.Reached(stream, c) && c.handler.worker.Popping?
    ensures A.Reached(stream, t) && t == c.(handler := M.DoPop(c.handler))
    ensures WorkerStep(c, t) && PointOf(t.handler.worker) == if t.handler.worker.Executing? then AtTransfer else AtWait
  {
    t := A.Worked(stream, c, M.Pop, M.Apply(c.handler, M.Pop));
  }

  /** The attempt to take an entry. */
  method PopMove(handler: Handler, ghost stream: seq<byte>, ghost c: A.State)
    returns (next: Point, ghost t: A.State)
    requires Live(handler, stream, c) && c.handler.worker.Popping?
    modifies handler.Repr()
    ensures Live(handler, stream, t) && next == PointOf(t.handler.worker)
    ensures WorkerStep(c, t) && handler.Repr() <= old(handler.Repr())
    ensures t.handler == M.DoPop(c.handler)
  {
    var got: bool;
    ghost var s;
    got, s := handler.Pop(c.handler);
    next := if got then AtTransfer else AtWait;
    t := PopWorks(stream, c);
  }

  lemma WaitWorks(stream: seq<byte>, c: A.State, wait: M.WaitResult) returns (t: A.State)
    requires A.Reached(stream, c) && c.handler.worker.Waiting? && M.CanEnd(c.handler, wait)
    ensures A.Reached(stream, t) && t == c.(handler := M.DoWait(c.handler, wait))
    ensures WorkerStep(c, t) && PointOf(t.handler.worker) == if wait.WaitFailed? then Gone else AtCheck
  {
    t := A.Worked(stream, c, M.Wait(wait), M.Apply(c.handler, M.Wait(wait)));
  }

  /** The end of a wait. */
  method WaitMove(handler: Handler, wait: M.WaitResult, ghost stream: seq<byte>, ghost c: A.State)
    returns (next: Point, ghost t: A.State)
    requires Live(handler, stream, c) && c.handler.worker.Waiting?
    modifies handler.Repr()
    ensures Live(handler, stream, t) && next == PointOf(t.handler.worker)
    ensures WorkerStep(c, t) && handler.Repr() <= old(handler.Repr())
    ensures t.handler == M.DoWait(c.handler, Possible(wait, c.handler.event))
  {
    var result := Possible(wait, handler.store.pending.notify);
    ghost var s := handler.Wait(result, c.handler);
    next := if result.WaitFailed? then Gone else AtCheck;
    t := WaitWorks(stream, c, result);
  }

  lemma TransferWorks(stream: seq<byte>, c: A.State, outcome: DeviceResult) returns (t: A.State)
    requires A.Reached(stream, c) && c.handler.worker.Executing? && Fits(c.handler.worker.urb, outcome)
    ensures A.Reached(stream, t) && t == c.(handler := M.DoTransfer(c.handler, outcome))
    ensures WorkerStep(c, t) && PointOf(t.handler.worker) == AtPush
  {
    t := A.Worked(stream, c, M.Transfer(outcome), M.Apply(c.handler, M.Transfer(outcome)));
  }

  /** The transfer. */
  method TransferMove(handler: Handler, outcome: DeviceResult, ghost stream: seq<byte>, ghost c: A.State)
    returns (next: Point, ghost t: A.State)
    requires Live(handler, stream, c) && c.handler.worker.Executing?
    modifies handler.Repr()
    ensures Live(handler, stream, t) && next == PointOf(t.handler.worker)
    ensures WorkerStep(c, t) && handler.Repr() <= old(handler.Repr())
    ensures t.handler == M.DoTransfer(c.handler, Bounded(outcome, c.handler.worker.urb))
  {
    var result := Bounded(outcome, handler.store.workerEntry.item);
    ghost var s := handler.Transfer(result, c.handler);
    next := AtPush;
    t := TransferWorks(stream, c, result);
  }

  lemma PushWorks(stream: seq<byte>, c: A.State) returns (t: A.State)
    requires A.Reached(stream, c) && c.handler.worker.Completing?
    ensures A.Reached(stream, t)
    ensures t == c.(handler := M.DoComplete(c.handler, c.handler.worker.urb, M.Checking, c.handler.session))
    ensures WorkerStep(c, t) && PointOf(t.handler.worker) == AtCheck
  {
    t := A.Worked(stream, c, M.PushDone, M.Apply(c.handler, M.PushDone));
  }

  /** The executed entry is completed. */
  method PushMove(handler: Handler, ghost stream: seq<byte>, ghost c: A.State)
    returns (next: Point, ghost t: A.State)
    requires Live(handler, stream, c) && c.handler.worker.Completing?
    modifies handler.Repr()
    ensures Live(handler, stream, t) && next == PointOf(t.handler.worker)
    ensures WorkerStep(c, t) && handler.Repr() <= old(handler.Repr())
    ensures t.handler == M.DoComplete(c.handler, c.handler.worker.urb, M.Checking, c.handler.session)
  {
    ghost var s := handler.PushDone(c.handler);
    next := AtCheck;
    t := PushWorks(stream, c);
  }

  /** One step of the worker, wherever it is. */
  method WorkerMove(handler: Handler, at: Point, move: Move, ghost stream: seq<byte>, ghost c: A.State)
    returns (next: Point, ghost t: A.State)
    requires Live(handler, stream, c) && at == PointOf(c.handler.worker)
    modifies handler.Repr()
    ensures Live(handler, stream, t) && next == PointOf(t.handler.worker)
    ensures WorkerStep(c, t) && handler.Repr() <= old(handler.Repr())
    ensures t.handler == Moved(c.handler, move)
  {
    match at {
      case AtCheck => next, t := CheckMove(handler, stream, c);
      case AtPop => next, t := PopMove(handler, stream, c);
      case AtWait => next, t := WaitMove(handler, move.wait, stream, c);
      case AtTransfer => next, t := TransferMove(handler, move.outcome, stream, c);
      case AtPush => next, t := PushMove(handler, stream, c);
      case _ => next, t := at, c;
    }
  }

  /** Some steps of the worker. */
  method WorkerMoves(handler: Handler, at: Point, moves: seq<Move>, ghost stream: seq<byte>, ghost c: A.State)
    returns (next: Point, ghost t: A.State)
    requires Live(handler, stream, c) && at == PointOf(c.handler.worker)
    modifies handler.Repr()
    ensures Live(handler, stream, t) && next == PointOf(t.handler.worker)
    ensures WorkerStep(c, t) && handler.Repr() <= old(handler.Repr())
  {
    next, t := at, c;
    var k: nat := 0;
    while k < |moves|
      invariant Live(handler, stream, t) && next == PointOf(t.handler.worker)
      invariant k <= |moves| && WorkerStep(c, t) && handler.Repr() <= old(handler.Repr())
    {
      next, t := WorkerMove(handler, next, moves[k], stream, t);
      k := k + 1;
    }
  }

  // ---- The session thread ----

  /** What has been written since the session began, and what is still to be read unless it has ended. */
  ghost predicate Linked(sock: Socket, base: seq<byte>, c: A.State)
    reads sock
  {
    && R.AllValid(c.log.attempts) && sock.outgoing == base + R.Written(c.log.attempts)
    && (c.phase.Ended? || sock.incoming == c.unread)
  }

  /** Every send so far went through, and no call on the socket is going to fail. */
  ghost predicate Sound(sock: Socket, c: A.State)
    reads sock
  {
    Reliable(sock.script) && AllWhole(c.log.attempts)
  }

  predicate AllWhole(attempts: seq<R.Attempt>) {
    forall i | 0 <= i < |attempts| :: attempts[i].Whole()
  }

  /** The same messages received, and the same fates of submissions. */
  predicate SameIntake(log: A.Log, next: A.Log) {
    next.delivered == log.delivered && next.accepted == log.accepted && next.refused == log.refused
  }

  /** What one turn meets: memory for the data, the entry and its buffer, and the worker's steps meanwhile. */
  datatype Turn = Turn(dataFits: bool, entryFits: bool, bufferFits: bool, before: seq<Move>, between: seq<Move>,
                       meanwhile: seq<seq<Move>>)

  /** There is memory for the entry of a submission, and for its buffer if it has one. */
  predicate HasRoom(turn: Turn, m: S.Message) {
    turn.entryFits && (turn.bufferFits || (m.header.Valid() && m.header.arm[1] == 0))
  }

  /** `urb_handler_submit` up to the signal. */
  method PushMessage(handler: Handler, m: S.Message, turn: Turn, id: nat, ghost stream: seq<byte>, ghost c: A.State)
    returns (ok: bool, ghost t: A.State, ghost added: set<object>)
    requires Live(handler, stream, c) && c.phase == A.Submitting(m)
    requires c.handler.session.Idle? && m.header.Valid() && id == |c.handler.h.requests|
    modifies handler.Repr()
    ensures Live(handler, stream, t) && t.phase.Draining?
    ensures t.unread == c.unread && t.handler.worker == c.handler.worker && t.log == A.Noted(c.log, HasRoom(turn, m))
    ensures if ok then t.handler.session.Signalling? else t.handler.session.Idle?
    ensures |t.handler.h.requests| == if ok then id + 1 else id
    ensures handler.Repr() <= old(handler.Repr()) + added && fresh(added)
  {
    ghost var was, s := handler.Repr(), c.handler;
    ok, s := handler.Submit(A.AsRequest(m), id, turn.entryFits, turn.bufferFits, c.handler);
    added := handler.Repr() - was;
    t := A.Submitted(stream, c, ok);
  }

  /** `client_forward_urb`; a refused submission is ignored. The worker may move before the signal. */
  method SubmitMessage(handler: Handler, m: S.Message, turn: Turn, at: Point, id: nat, ghost stream: seq<byte>,
                       ghost c: A.State)
    returns (next: Point, count: nat, ghost t: A.State, ghost added: set<object>)
    requires Live(handler, stream, c) && c.phase == A.Submitting(m)
    requires c.handler.session.Idle? && m.header.Valid() && id == |c.handler.h.requests|
    requires at == PointOf(c.handler.worker)
    modifies handler.Repr()
    ensures Live(handler, stream, t) && t.phase.Draining?
    ensures t.handler.session.Idle? && next == PointOf(t.handler.worker) && count == |t.handler.h.requests|
    ensures t.unread == c.unread && t.log == A.Noted(c.log, HasRoom(turn, m))
    ensures handler.Repr() <= old(handler.Repr()) + added && fresh(added)
  {
    var ok;
    next, count := at, id;
    ok, t, added := PushMessage(handler, m, turn, id, stream, c);
    if ok {
      next, t := WorkerMoves(handler, at, turn.between, stream, t);
      ghost var s := handler.Signal(t.handler);
      t := A.Signalled(stream, t);
      count := id + 1;
    }
  }

  lemma ReapLeaves(s: M.State)
    requires s.session.Idle?
    ensures
      var t := M.DoReap(s);
      && t.worker == s.worker && t.h == s.h
      && (if t.session.Answering? then |t.completed| < |s.completed| else t.session.Idle? && s.completed == [])
  {
  }

  lemma AnswerLeaves(s: M.State, sent: bool)
    requires s.session.Answering? && Answerable(s.session.urb)
    ensures
      var t := M.DoAnswer(s, sent);
      t.session.Idle? && t.worker == s.worker && t.completed == s.completed && t.h.requests == s.h.requests
  {
  }

  lemma WholeNext(attempts: seq<R.Attempt>, a: R.Attempt)
    requires AllWhole(attempts) && a.Whole()
    ensures AllWhole(attempts + [a])
  {
  }

  /** One send on the socket. */
  method SendOne(sock: Socket, m: S.Message, ghost base: seq<byte>, ghost c: A.State)
    returns (ok: bool, ghost a: R.Attempt)
    requires S.WellFormed(m, S.Client) && Linked(sock, base, c)
    modifies sock`outgoing, sock`script
    ensures a.Valid() && a.message == m && (ok <==> a.Whole()) && sock.incoming == old(sock.incoming)
    ensures R.AllValid(c.log.attempts + [a]) && sock.outgoing == base + R.Written(c.log.attempts + [a])
    ensures Failed !in old(sock.script) ==> Failed !in sock.script
    ensures old(Sound(sock, c)) ==> Reliable(sock.script) && AllWhole(c.log.attempts + [a])
  {
    ghost var attempts;
    ok, attempts := R.TrySend(sock, m, base, c.log.attempts);
    LastApart(c.log.attempts, attempts);
    a := attempts[|c.log.attempts|];
    if old(Sound(sock, c)) {
      WholeNext(c.log.attempts, a);
    }
  }

  /** The same with a handler beside it. */
  method SendBeside(sock: Socket, handler: Handler, m: S.Message, ghost base: seq<byte>, ghost c: A.State)
    returns (ok: bool, ghost a: R.Attempt)
    requires handler.Represents(c.handler) && sock !in handler.Repr()
    requires S.WellFormed(m, S.Client) && Linked(sock, base, c)
    modifies sock`outgoing, sock`script
    ensures handler.Represents(c.handler) && handler.Repr() == old(handler.Repr())
    ensures a.Valid() && a.message == m && (ok <==> a.Whole()) && sock.incoming == old(sock.incoming)
    ensures R.AllValid(c.log.attempts + [a]) && sock.outgoing == base + R.Written(c.log.attempts + [a])
    ensures Failed !in old(sock.script) ==> Failed !in sock.script
    ensures old(Sound(sock, c)) ==> Reliable(sock.script) && AllWhole(c.log.attempts + [a])
  {
    ok, a := SendOne(sock, m, base, c);
  }

  /** Nothing completed is left, or the last send failed. */
  predicate Drained(c: A.State) {
    var attempts := c.log.attempts;
    c.handler.completed == [] || (attempts != [] && !attempts[|attempts| - 1].Whole())
  }

  /** At most one attempt more, and a whole one if none failed. */
  predicate OneMore(before: seq<R.Attempt>, attempts: seq<R.Attempt>, ok: bool) {
    && before <= attempts && |attempts| <= |before| + 1
    && (ok && |attempts| > |before| ==> attempts[|before|].Whole())
  }

  /** `client_send_urb_completion`. */
  method SendAnswer(sock: Socket, handler: Handler, ghost base: seq<byte>, ghost stream: seq<byte>, ghost c: A.State)
    returns (ok: bool, ghost t: A.State)
    requires Live(handler, stream, c) && c.phase.Draining?
    requires c.handler.session.Answering? && A.IsFramed(c.handler.session.urb)
    requires Linked(sock, base, c) && sock !in handler.Repr()
    modifies sock`outgoing, sock`script
    ensures handler.Represents(c.handler) && handler.Repr() == old(handler.Repr())
    ensures A.Reached(stream, t) && Linked(sock, base, t) && t.unread == c.unread
    ensures t.phase == (if ok then A.Draining else A.Receiving) && t.handler == M.DoAnswer(c.handler, ok)
    ensures SameIntake(c.log, t.log) && (ok || Drained(t))
    ensures OneMore(c.log.attempts, t.log.attempts, ok)
    ensures (Failed !in old(sock.script) ==> Failed !in sock.script) && (old(Sound(sock, c)) ==> Sound(sock, t))
  {
    ghost var a;
    var u := handler.store.sessionEntry.item;
    ok, a := SendBeside(sock, handler, A.AnswerTo(u), base, c);
    t := A.Replied(stream, c, a);
  }

  /** The answer and the freeing of the entry, whether or not the answer went out. */
  method AnswerEntry(sock: Socket, handler: Handler, ghost base: seq<byte>, ghost stream: seq<byte>, ghost c: A.State)
    returns (ok: bool, ghost t: A.State)
    requires Live(handler, stream, c) && c.phase.Draining?
    requires c.handler.session.Answering? && A.IsFramed(c.handler.session.urb)
    requires Linked(sock, base, c) && sock !in handler.Repr()
    modifies handler.Repr(), sock`outgoing, sock`script
    ensures Live(handler, stream, t) && Linked(sock, base, t)
    ensures t.unread == c.unread && t.phase == (if ok then A.Draining else A.Receiving)
    ensures t.handler == M.DoAnswer(c.handler, ok)
    ensures SameIntake(c.log, t.log) && (ok || Drained(t))
    ensures OneMore(c.log.attempts, t.log.attempts, ok)
    ensures (Failed !in old(sock.script) ==> Failed !in sock.script) && (old(Sound(sock, c)) ==> Sound(sock, t))
    ensures handler.Repr() <= old(handler.Repr())
  {
    ok, t := SendAnswer(sock, handler, base, stream, c);
    ghost var s := handler.Answered(ok, c.handler);
  }

  /** One turn of the loop over completed entries; false ends it. */
  method AnswerOne(sock: Socket, handler: Handler, ghost base: seq<byte>, ghost stream: seq<byte>, ghost c: A.State)
    returns (more: bool, ghost t: A.State)
    requires Live(handler, stream, c) && c.phase.Draining?
    requires c.handler.session.Idle? && Linked(sock, base, c) && sock !in handler.Repr()
    modifies handler.Repr(), sock`outgoing, sock`script
    ensures Live(handler, stream, t) && Linked(sock, base, t)
    ensures t.unread == c.unread && t.handler.worker == c.handler.worker && t.handler.session.Idle?
    ensures |t.handler.h.requests| == |c.handler.h.requests| && handler.Repr() <= old(handler.Repr())
    ensures if more then t.phase.Draining? && |t.handler.completed| < |c.handler.completed| else t.phase.Receiving?
    ensures SameIntake(c.log, t.log) && (more || Drained(t))
    ensures OneMore(c.log.attempts, t.log.attempts, more)
    ensures (Failed !in old(sock.script) ==> Failed !in sock.script) && (old(Sound(sock, c)) ==> Sound(sock, t))
  {
    ghost var s;
    ReapLeaves(c.handler);
    more, s := handler.Reap(c.handler);
    t := A.Reaped(stream, c);
    if more {
      AnswerLeaves(t.handler, true);
      AnswerLeaves(t.handler, false);
      more, t := AnswerEntry(sock, handler, base, stream, t);
    }
  }

  /** The loop over completed entries, while the worker may complete more. */
  method AnswerAll(sock: Socket, handler: Handler, at: Point, moves: seq<seq<Move>>, ghost base: seq<byte>,
                   ghost stream: seq<byte>, ghost c: A.State)
    returns (next: Point, ghost t: A.State)
    requires Live(handler, stream, c) && at == PointOf(c.handler.worker)
    requires c.phase.Draining? && c.handler.session.Idle? && Linked(sock, base, c) && sock !in handler.Repr()
    modifies handler.Repr(), sock`outgoing, sock`script
    ensures Live(handler, stream, t) && next == PointOf(t.handler.worker)
    ensures t.phase.Receiving? && t.handler.session.Idle? && Linked(sock, base, t) && t.unread == c.unread
    ensures |t.handler.h.requests| == |c.handler.h.requests| && handler.Repr() <= old(handler.Repr())
    ensures SameIntake(c.log, t.log) && Drained(t)
    ensures R.EndsWithFailure(c.log.attempts, t.log.attempts)
    ensures (Failed !in old(sock.script) ==> Failed !in sock.script) && (old(Sound(sock, c)) ==> Sound(sock, t))
  {
    next, t := at, c;
    var more, k: nat := true, 0;
    while more
      invariant Live(handler, stream, t) && next == PointOf(t.handler.worker)
      invariant k <= |moves| && t.phase == (if more then A.Draining else A.Receiving) && t.handler.session.Idle?
      invariant Linked(sock, base, t) && t.unread == c.unread && |t.handler.h.requests| == |c.handler.h.requests|
      invariant handler.Repr() <= old(handler.Repr()) && SameIntake(c.log, t.log) && (more || Drained(t))
      invariant (Failed !in old(sock.script) ==> Failed !in sock.script) && (old(Sound(sock, c)) ==> Sound(sock, t))
      invariant R.EndsWithFailure(c.log.attempts, t.log.attempts)
      invariant more ==> R.AllWholeAfter(c.log.attempts, t.log.attempts)
      decreases more, |moves| - k, |t.handler.completed|
    {
      if k < |moves| {
        next, t := WorkerMoves(handler, next, moves[k], stream, t);
        k := k + 1;
      }
      ghost var before := t.log.attempts;
      more, t := AnswerOne(sock, handler, base, stream, t);
      R.OneMoreAfter(c.log.attempts, before, t.log.attempts);
    }
  }

  lemma UnlinkLeaves(s: M.State, seqnum: uint32)
    requires s.session.Idle?
    ensures
      var t := M.DoFindUnlink(s, seqnum);
      (t.session.Idle? || t.session.Unlinking?) && t.worker == s.worker && t.h.requests == s.h.requests
  {
  }

  /** The search of `urb_handler_unlink`. */
  method FindMessage(handler: Handler, m: S.Message, ghost stream: seq<byte>, ghost c: A.State)
    returns (found: bool, ghost t: A.State)
    requires Live(handler, stream, c) && c.phase == A.Finding(m)
    requires c.handler.session.Idle? && m.header.Valid()
    modifies handler.Repr()
    ensures Live(handler, stream, t) && t.phase == A.Returning(m)
    ensures t.unread == c.unread && t.handler.worker == c.handler.worker && t.log == c.log.(found := t.log.found)
    ensures if found then t.handler.session.Unlinking? else t.handler.session.Idle?
    ensures |t.handler.h.requests| == |c.handler.h.requests| && handler.Repr() <= old(handler.Repr())
  {
    ghost var s;
    UnlinkLeaves(c.handler, m.header.arm[0]);
    found, s := handler.FindUnlink(m.header.arm[0], c.handler);
    t := A.Found(stream, c);
  }

  /** `urb_handler_unlink`, whose result is ignored. The worker may move before the push. */
  method Unlink(handler: Handler, m: S.Message, turn: Turn, at: Point, ghost stream: seq<byte>, ghost c: A.State)
    returns (next: Point, ghost t: A.State)
    requires Live(handler, stream, c) && c.phase == A.Finding(m)
    requires c.handler.session.Idle? && m.header.Valid() && at == PointOf(c.handler.worker)
    modifies handler.Repr()
    ensures Live(handler, stream, t) && t.phase == A.Returning(m)
    ensures t.handler.session.Idle? && next == PointOf(t.handler.worker)
    ensures t.unread == c.unread && t.log == c.log.(found := t.log.found)
    ensures |t.handler.h.requests| == |c.handler.h.requests|
    ensures handler.Repr() <= old(handler.Repr())
  {
    var found;
    next := at;
    found, t := FindMessage(handler, m, stream, c);
    if found {
      next, t := WorkerMoves(handler, at, turn.between, stream, t);
      ghost var s := handler.PushUnlinked(t.handler);
      t := A.Pushed(stream, t);
    }
  }

  /** The answer to an unlink; a failed send is ignored. */
  method ReturnUnlink(sock: Socket, handler: Handler, m: S.Message, ghost base: seq<byte>, ghost stream: seq<byte>,
                      ghost c: A.State)
    returns (ghost t: A.State)
    requires Live(handler, stream, c) && c.phase == A.Returning(m)
    requires c.handler.session.Idle? && Linked(sock, base, c) && sock !in handler.Repr()
    modifies sock`outgoing, sock`script
    ensures handler.Represents(c.handler) && handler.Repr() == old(handler.Repr())
    ensures A.Reached(stream, t) && t.phase.Receiving? && Linked(sock, base, t)
    ensures t.unread == c.unread && t.handler == c.handler
    ensures SameIntake(c.log, t.log)
    ensures (Failed !in old(sock.script) ==> Failed !in sock.script) && (old(Sound(sock, c)) ==> Sound(sock, t))
  {
    var ok;
    ghost var a;
    var reply := R.UnlinkReturn(m.header.seqnum, m.header.devid);
    ok, a := SendBeside(sock, handler, reply, base, c);
    t := A.Returned(stream, c, a);
  }

  /** An unlink and its answer. */
  method UnlinkMessage(sock: Socket, handler: Handler, m: S.Message, turn: Turn, at: Point, ghost base: seq<byte>,
                       ghost stream: seq<byte>, ghost c: A.State)
    returns (next: Point, ghost t: A.State)
    requires Live(handler, stream, c) && c.phase == A.Finding(m)
    requires c.handler.session.Idle? && m.header.Valid() && at == PointOf(c.handler.worker)
    requires Linked(sock, base, c) && sock !in handler.Repr()
    modifies handler.Repr(), sock`outgoing, sock`script
    ensures Live(handler, stream, t) && t.phase.Receiving?
    ensures t.handler.session.Idle? && next == PointOf(t.handler.worker) && Linked(sock, base, t)
    ensures t.unread == c.unread && |t.handler.h.requests| == |c.handler.h.requests|
    ensures handler.Repr() <= old(handler.Repr())
    ensures SameIntake(c.log, t.log)
    ensures (Failed !in old(sock.script) ==> Failed !in sock.script) && (old(Sound(sock, c)) ==> Sound(sock, t))
  {
    next, t := Unlink(handler, m, turn, at, stream, c);
    t := ReturnUnlink(sock, handler, m, base, stream, t);
  }

  // ---- The loop ----

  /** Where the session thread is after an attempt to receive a message. */
  function PhaseAfter(m: Option<S.Message>): A.Phase {
    if m.None? then A.Ended
    else if m.value.header.command == USBIP_CMD_SUBMIT then A.Submitting(m.value)
    else if m.value.header.command == USBIP_CMD_UNLINK then A.Finding(m.value) else A.Receiving
  }

  /** What handling it changes in the log. */
  predicate Handled(log: A.Log, next: A.Log, turn: Turn, m: Option<S.Message>) {
    var noted := m.Some? && m.value.header.command == USBIP_CMD_SUBMIT;
    SameIntake(if noted then A.Noted(log, HasRoom(turn, m.value)) else log, next)
  }

  /** What becomes of a message received, if there is one. */
  method HandleMessage(sock: Socket, handler: Handler, m: Option<S.Message>, turn: Turn, at: Point, id: nat,
                       ghost base: seq<byte>, ghost stream: seq<byte>, ghost c: A.State)
    returns (next: Point, count: nat, ghost t: A.State, ghost added: set<object>)
    requires Live(handler, stream, c) && at == PointOf(c.handler.worker)
    requires c.phase == PhaseAfter(m) && (m.Some? ==> m.value.header.Valid())
    requires c.handler.session.Idle? && id == |c.handler.h.requests|
    requires Linked(sock, base, c) && sock !in handler.Repr()
    modifies handler.Repr(), sock`outgoing, sock`script
    ensures Live(handler, stream, t) && next == PointOf(t.handler.worker)
    ensures t.phase == if m.None? then A.Ended else A.Receiving
    ensures t.handler.session.Idle? && Linked(sock, base, t) && t.unread == c.unread
    ensures count == |t.handler.h.requests| && handler.Repr() <= old(handler.Repr()) + added && fresh(added)
    ensures Handled(c.log, t.log, turn, m)
    ensures m.Some? && m.value.header.command == USBIP_CMD_SUBMIT ==> Drained(t)
    ensures m.Some? && m.value.header.command !in {USBIP_CMD_SUBMIT, USBIP_CMD_UNLINK} ==> t == c
    ensures (Failed !in old(sock.script) ==> Failed !in sock.script) && (old(Sound(sock, c)) ==> Sound(sock, t))
  {
    next, count, t, added := at, id, c, {};
    if m.None? {
      return;
    }
    if m.value.header.command == USBIP_CMD_SUBMIT {
      next, count, t, added := SubmitMessage(handler, m.value, turn, at, id, stream, c);
      next, t := AnswerAll(sock, handler, next, turn.meanwhile, base, stream, t);
    } else if m.value.header.command == USBIP_CMD_UNLINK {
      next, t := UnlinkMessage(sock, handler, m.value, turn, at, base, stream, c);
    }
  }

  function WithReceived(log: A.Log, m: Option<S.Message>): A.Log {
    if m.None? then log else log.(delivered := log.delivered + [m.value])
  }

  /** The reception of the next message, if there is one. */
  method Receive(sock: Socket, dataFits: bool, ghost stream: seq<byte>, ghost c: A.State)
    returns (m: Option<S.Message>, ghost t: A.State)
    requires A.Reached(stream, c) && c.phase.Receiving? && sock.incoming == c.unread
    modifies sock
    ensures A.Reached(stream, t) && t.handler == c.handler && t.log == WithReceived(c.log, m)
    ensures (Failed !in old(sock.script) ==> Failed !in sock.script) && (old(Sound(sock, c)) ==> Sound(sock, t))
    ensures sock.outgoing == old(sock.outgoing)
    ensures m.Some? ==> sock.incoming == t.unread && m.value.header.Valid()
    ensures m.Some? ==> dataFits || m.value.payload == []
    ensures m.None? ==> Failed in old(sock.script) || S.Stops(t.unread, dataFits)
    ensures t.phase == PhaseAfter(m)
  {
    m := S.ReceiveMessage(sock, dataFits);
    if m.Some? {
      S.BufferForPayload(c.unread, m.value, sock.incoming);
      t := A.Received(stream, c, m.value, sock.incoming, dataFits);
    } else {
      t := A.HungUp(stream, c);
    }
  }

  /** The same with a handler beside it. */
  method ReceiveBeside(sock: Socket, handler: Handler, dataFits: bool, ghost stream: seq<byte>, ghost c: A.State)
    returns (m: Option<S.Message>, ghost t: A.State)
    requires Live(handler, stream, c) && c.phase.Receiving?
    requires sock !in handler.Repr() && sock.incoming == c.unread
    modifies sock
    ensures Live(handler, stream, t) && handler.Repr() == old(handler.Repr())
    ensures A.Reached(stream, t) && t.handler == c.handler && t.log == WithReceived(c.log, m)
    ensures (Failed !in old(sock.script) ==> Failed !in sock.script) && (old(Sound(sock, c)) ==> Sound(sock, t))
    ensures sock.outgoing == old(sock.outgoing)
    ensures m.Some? ==> sock.incoming == t.unread && m.value.header.Valid()
    ensures m.Some? ==> dataFits || m.value.payload == []
    ensures m.None? ==> Failed in old(sock.script) || S.Stops(t.unread, dataFits)
    ensures t.phase == PhaseAfter(m)
  {
    m, t := Receive(sock, dataFits, stream, c);
  }

  /** The next message, if there is one, and what becomes of it. */
  method TakeMessage(sock: Socket, handler: Handler, turn: Turn, at: Point, id: nat, ghost base: seq<byte>,
                     ghost stream: seq<byte>, ghost c: A.State)
    returns (m: Option<S.Message>, next: Point, count: nat, ghost t: A.State, ghost added: set<object>)
    requires Live(handler, stream, c) && at == PointOf(c.handler.worker)
    requires c.phase.Receiving? && c.handler.session.Idle? && id == |c.handler.h.requests|
    requires Linked(sock, base, c) && sock !in handler.Repr()
    modifies handler.Repr(), sock
    ensures Live(handler, stream, t) && next == PointOf(t.handler.worker)
    ensures t.handler.session.Idle? && Linked(sock, base, t) && count == |t.handler.h.requests|
    ensures t.phase == if m.None? then A.Ended else A.Receiving
    ensures m.Some? ==> turn.dataFits || m.value.payload == []
    ensures m.None? ==> Failed in old(sock.script) || S.Stops(t.unread, turn.dataFits)
    ensures Handled(WithReceived(c.log, m), t.log, turn, m)
    ensures (Failed !in old(sock.script) ==> Failed !in sock.script) && (old(Sound(sock, c)) ==> Sound(sock, t))
    ensures handler.Repr() <= old(handler.Repr()) + added && fresh(added)
  {
    m, t := ReceiveBeside(sock, handler, turn.dataFits, stream, c);
    next, count, t, added := HandleMessage(sock, handler, m, turn, at, id, base, stream, t);
  }

  /** What arrived had a buffer for its data; submissions were accepted if there was memory, and refused otherwise. */
  predicate Fates(turns: seq<Turn>, log: A.Log) {
    && |log.delivered| <= |turns|
    && (forall i | 0 <= i < |log.delivered| :: turns[i].dataFits || log.delivered[i].payload == [])
    && (forall i | i in log.accepted :: i < |log.delivered| && HasRoom(turns[i], log.delivered[i]))
    && (forall i | i in log.refused :: i < |log.delivered| && !HasRoom(turns[i], log.delivered[i]))
  }

  lemma FatesNext(turns: seq<Turn>, log: A.Log, next: A.Log, m: Option<S.Message>)
    requires Fates(turns, log) && |log.delivered| < |turns|
    requires Handled(WithReceived(log, m), next, turns[|log.delivered|], m)
    requires m.Some? ==> turns[|log.delivered|].dataFits || m.value.payload == []
    ensures Fates(turns, next)
  {
  }

  /** The turns are used up, or the next one could not receive anything. */
  predicate Stopped(turns: seq<Turn>, c: A.State) {
    var k := |c.log.delivered|;
    k >= |turns| || S.Stops(c.unread, turns[k].dataFits)
  }

  function DataFits(turns: seq<Turn>): (fits: seq<bool>)
    ensures |fits| == |turns|
  {
    seq(|turns|, i requires 0 <= i < |turns| => turns[i].dataFits)
  }

  lemma FitsByTurns(turns: seq<Turn>, t: A.State)
    requires Fates(turns, t.log) && Stopped(turns, t)
    ensures
      var fits, k := DataFits(turns), |t.log.delivered|;
      S.Plenty(t.log.delivered, fits[..k]) && S.NoneIn(t.unread, fits[k..])
  {
  }

  lemma DeliveredAsPredicted(stream: seq<byte>, turns: seq<Turn>, t: A.State)
    requires A.Reached(stream, t) && Fates(turns, t.log) && Stopped(turns, t)
    ensures t.log.delivered == S.Delivered(stream, DataFits(turns))
  {
    A.ReachedInv(stream, t);
    var fits, k := DataFits(turns), |t.log.delivered|;
    assert fits[..k] + fits[k..] == fits;
    FitsByTurns(turns, t);
    S.DeliveredUntil(stream, fits[..k], fits[k..], t.log.delivered, t.unread);
  }

  /** At the head of the loop before turn `k`, or behind the loop. */
  ghost predicate AtHead(sock: Socket, handler: Handler, turns: seq<Turn>, k: nat, at: Point, id: nat, base: seq<byte>,
                         stream: seq<byte>, c: A.State)
    reads sock, handler.Repr()
  {
    && Live(handler, stream, c) && Linked(sock, base, c) && c.handler.session.Idle?
    && at == PointOf(c.handler.worker) && id == |c.handler.h.requests|
    && Fates(turns, c.log) && (c.phase.Ended? || (c.phase.Receiving? && |c.log.delivered| == k))
  }

  /** One turn of the session loop, after some steps of the worker; false ends it. */
  method ServeTurn(sock: Socket, handler: Handler, turns: seq<Turn>, k: nat, at: Point, id: nat, ghost base: seq<byte>,
                   ghost stream: seq<byte>, ghost c: A.State)
    returns (goOn: bool, next: Point, count: nat, ghost t: A.State, ghost added: set<object>)
    requires AtHead(sock, handler, turns, k, at, id, base, stream, c) && !c.phase.Ended? && k < |turns|
    requires sock !in handler.Repr()
    modifies handler.Repr(), sock
    ensures AtHead(sock, handler, turns, k + 1, next, count, base, stream, t) && (goOn <==> !t.phase.Ended?)
    ensures Failed !in old(sock.script) ==> goOn || Stopped(turns, t)
    ensures (Failed !in old(sock.script) ==> Failed !in sock.script) && (old(Sound(sock, c)) ==> Sound(sock, t))
    ensures handler.Repr() <= old(handler.Repr()) + added && fresh(added)
  {
    var m;
    next, t := WorkerMoves(handler, at, turns[k].before, stream, c);
    m, next, count, t, added := TakeMessage(sock, handler, turns[k], next, id, base, stream, t);
    goOn := m.Some?;
    FatesNext(turns, c.log, t.log, m);
  }

  /** Turns of the session loop, as many as the server runs or until one ends it. */
  method ServeTurns(sock: Socket, handler: Handler, turns: seq<Turn>, at: Point, id: nat, ghost base: seq<byte>,
                    ghost stream: seq<byte>, ghost c: A.State)
    returns (ghost t: A.State)
    requires AtHead(sock, handler, turns, 0, at, id, base, stream, c) && !c.phase.Ended? && sock !in handler.Repr()
    modifies handler.Repr(), sock
    ensures Live(handler, stream, t) && Linked(sock, base, t) && Fates(turns, t.log)
    ensures t.phase.Receiving? || t.phase.Ended?
    ensures Failed !in old(sock.script) ==> Stopped(turns, t)
    ensures old(Sound(sock, c)) ==> Sound(sock, t)
    ensures fresh(handler.Repr() - old(handler.Repr()))
  {
    t := c;
    ghost var was := handler.Repr();
    var goOn, next, count, k: nat := true, at, id, 0;
    while goOn && k < |turns|
      invariant fresh(handler.Repr() - was)
      invariant k <= |turns| && AtHead(sock, handler, turns, k, next, count, base, stream, t)
      invariant goOn <==> !t.phase.Ended?
      invariant (Failed !in old(sock.script) ==> Failed !in sock.script) && (old(Sound(sock, c)) ==> Sound(sock, t))
      invariant Failed !in old(sock.script) ==> goOn || Stopped(turns, t)
      decreases |turns| - k
    {
      ghost var more;
      goOn, next, count, t, more := ServeTurn(sock, handler, turns, k, next, count, base, stream, t);
      k := k + 1;
    }
  }

  lemma SessionBegins(stream: seq<byte>, base: seq<byte>, turns: seq<Turn>) returns (c: A.State)
    ensures c == A.Begin(stream) && A.Reached(stream, c) && c.phase.Receiving? && c.unread == stream
    ensures PointOf(c.handler.worker) == AtCheck && c.handler.session.Idle? && c.handler.h.requests == []
    ensures c.log.delivered == [] && Fates(turns, c.log) && AllWhole(c.log.attempts)
    ensures R.AllValid(c.log.attempts) && base == base + R.Written(c.log.attempts)
  {
    c := A.Begin(stream);
    A.Begins(stream);
  }

  /**
   * The whole session. Whatever the socket, the memory and the device do, and whatever steps the worker takes
   * before a message is received, before an entry is signalled or pushed after an unlink, and before each entry is
   * taken to be answered, the objects end up as in a run of `Attached`, between two turns or ended; so what the
   * client sent, what the handler was given and what was written are tied together as `Attached.EndToEnd` says.
   * Only a failing call, missing memory or the end of the turns keeps messages from being delivered, only missing
   * memory refuses a submission, and only a failing call tears an answer.
   */
  method Serve(sock: Socket, handler: Handler, turns: seq<Turn>) returns (ghost t: A.State)
    requires handler.Represents(A.Begin(sock.incoming).handler) && sock !in handler.Repr()
    modifies handler.Repr(), sock
    ensures handler.Represents(t.handler) && A.Reached(old(sock.incoming), t)
    ensures t.phase.Receiving? || t.phase.Ended?
    ensures R.AllValid(t.log.attempts) && sock.outgoing == old(sock.outgoing) + R.Written(t.log.attempts)
    ensures Failed !in old(sock.script) ==> t.log.delivered == S.Delivered(old(sock.incoming), DataFits(turns))
    ensures Fates(turns, t.log) && (Reliable(old(sock.script)) ==> AllWhole(t.log.attempts))
    ensures R.ReadsExactly(R.Written(t.log.attempts), R.Sent(t.log.attempts)) <==> R.NoneTorn(t.log.attempts)
    ensures fresh(handler.Repr() - old(handler.Repr()))
  {
    ghost var stream, base := sock.incoming, sock.outgoing;
    ghost var c := SessionBegins(stream, base, turns);
    t := ServeTurns(sock, handler, turns, AtCheck, 0, base, stream, c);
    if Failed !in old(sock.script) {
      DeliveredAsPredicted(stream, turns, t);
    }
    R.ReadsSentIff(t.log.attempts);
  }
}
