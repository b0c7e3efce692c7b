/** Every step of the URB handler keeps its invariant. */
module UrbInvariant {
  import opened Bytes
  import opened Seqs
  import opened Urbs
  import opened UrbMachine

  /** Cancelling takes a pending entry out of the line. */
  lemma CancelTakes(s: State, i: nat, unlinking: bool)
    requires i < |s.pending| && s.h.droppedPending == []
    ensures |InFlight(s)| + i < |Ahead(s)| && Ahead(s)[|InFlight(s)| + i] == s.pending[i]
    ensures Ahead(DoCancel(s, i, unlinking)) == Without(Ahead(s), |InFlight(s)| + i)
  {
    WithoutMiddle(InFlight(s), s.pending, i);
    assert Ahead(s) == InFlight(s) + s.pending;
  }

  lemma IdsWithout(q: seq<Urb>, i: nat)
    requires i < |q|
    ensures Ids(Without(q, i)) == Without(Ids(q), i)
  {
  }

  lemma CancelFromLine(executed: seq<nat>, ahead: seq<nat>, n: nat, cancelled: seq<nat>, at: nat)
    requires executed + ahead == Uncancelled(n, cancelled) && at < |ahead|
    ensures executed + Without(ahead, at) == Uncancelled(n, cancelled + [ahead[at]])
  {
    WithoutMiddle(executed, ahead, at);
    CancelOne(n, cancelled, |executed| + at);
  }

  lemma CancelHistory(s: State, i: nat, unlinking: bool)
    requires i < |s.pending|
    ensures
      var h := DoCancel(s, i, unlinking).h;
      h.executed == s.h.executed && h.requests == s.h.requests && h.cancelled == s.h.cancelled + [s.pending[i].id]
  {
  }

  lemma CancelKeepsOrder(s: State, i: nat, unlinking: bool)
    requires Order(s) && i < |s.pending| && s.h.droppedPending == []
    ensures Order(DoCancel(s, i, unlinking))
  {
    CancelTakes(s, i, unlinking);
    CancelHistory(s, i, unlinking);
    var at := |InFlight(s)| + i;
    IdsWithout(Ahead(s), at);
    CancelFromLine(s.h.executed, Ids(Ahead(s)), |s.h.requests|, s.h.cancelled, at);
  }

  /** The steps by which the session thread takes an entry out of the pending queue. */
  predicate Cancels(s: State, a: Action) {
    (a.FindUnlink? && FirstMatch(s.pending, a.seqnum) < |s.pending|) || (a.PopCancel? && s.pending != [])
  }

  /** The position of the pending entry that a cancelling step takes. */
  function Victim(s: State, a: Action): nat
    requires Cancels(s, a)
  {
    if a.PopCancel? then 0 else FirstMatch(s.pending, a.seqnum)
  }

  lemma PopKeepsLine(s: State)
    requires s.worker.Popping?
    ensures Ahead(DoPop(s)) == Ahead(s)
  {
    if s.pending != [] {
      assert s.pending == [s.pending[0]] + s.pending[1..];
    }
  }

  lemma LineKept(s: State, a: Action)
    requires Control(s) && Enabled(s, a) && !a.Submit? && !a.Transfer? && !Cancels(s, a)
    ensures Ahead(Apply(s, a)) == Ahead(s)
  {
    if a.Pop? {
      PopKeepsLine(s);
    }
  }

  lemma SubmitLengthensLine(s: State, r: Request)
    requires r.Valid() && s.h.droppedPending == []
    ensures Ahead(DoSubmit(s, r)) == Ahead(s) + [Create(|s.h.requests|, r)]
  {
    assert Ahead(s) == InFlight(s) + s.pending;
  }

  lemma SubmitKeepsOrder(s: State, r: Request)
    requires Order(s) && CancelledOnce(s) && s.h.droppedPending == [] && r.Valid()
    ensures Order(DoSubmit(s, r))
  {
    UncancelledNext(|s.h.requests|, s.h.cancelled);
    SubmitLengthensLine(s, r);
    IdsConcat(Ahead(s), [Create(|s.h.requests|, r)]);
  }

  lemma TransferAdvances(s: State, r: DeviceResult)
    requires Enabled(s, Transfer(r))
    ensures Ahead(s) == [s.worker.urb] + Ahead(DoTransfer(s, r))
  {
  }

  lemma TransferHistory(s: State, r: DeviceResult)
    requires Enabled(s, Transfer(r))
    ensures
      var h := DoTransfer(s, r).h;
      h.executed == s.h.executed + [s.worker.urb.id] && h.requests == s.h.requests && h.cancelled == s.h.cancelled
  {
  }

  lemma TransferKeepsOrder(s: State, r: DeviceResult)
    requires Order(s) && Enabled(s, Transfer(r))
    ensures Order(DoTransfer(s, r))
  {
    var ahead := Ahead(DoTransfer(s, r));
    TransferAdvances(s, r);
    TransferHistory(s, r);
    IdsConcat([s.worker.urb], ahead);
    SingleId(s.worker.urb);
    Associative(s.h.executed, [s.worker.urb.id], Ids(ahead));
  }

  lemma OrderKept(s: State, a: Action)
    requires Order(s) && CancelledOnce(s) && Control(s) && Enabled(s, a)
    ensures Order(Apply(s, a))
  {
    if Cancels(s, a) {
      CancelKeepsOrder(s, Victim(s, a), a.FindUnlink?);
    } else if a.Submit? {
      SubmitKeepsOrder(s, a.request);
    } else if a.Transfer? {
      TransferKeepsOrder(s, a.outcome);
    } else {
      LineKept(s, a);
      assert Ids(Ahead(Apply(s, a))) == Ids(Ahead(s));
    }
  }

  /** The steps that settle no entry. */
  predicate KeepsSettled(a: Action) {
    !a.PushUnlinked? && !a.PushCancelled? && !a.PushDone?
  }

  lemma ReapKeepsSettled(s: State)
    requires s.session.Idle?
    ensures Behind(DoReap(s)) == Behind(s)
  {
    if s.completed != [] {
      assert s.completed == [s.completed[0]] + s.completed[1..];
    }
  }

  lemma AnswerKeepsSettled(s: State, sent: bool)
    requires s.session.Answering? && Answerable(s.session.urb)
    ensures Behind(DoAnswer(s, sent)) == Behind(s)
  {
    assert s.h.freed + [s.session.urb] + [] == s.h.freed + [s.session.urb];
  }

  lemma CleanupKeepsSettled(s: State)
    requires s.session.Idle? && s.h.droppedCompleted == []
    ensures Behind(DoCleanup(s)) == Behind(s)
  {
    assert s.h.freed + [] + s.completed + [] == s.h.freed + [] + [] + s.completed;
  }

  /** Most steps move no settled entry at all. */
  lemma SettledUntouched(s: State, a: Action)
    requires Enabled(s, a) && KeepsSettled(a) && !a.Reap? && !a.Answer? && !a.Cleanup?
    ensures
      var t := Apply(s, a);
      && t.completed == s.completed && t.h.freed == s.h.freed && t.h.droppedCompleted == s.h.droppedCompleted
      && UnderAnswer(t) == UnderAnswer(s)
  {
  }

  lemma SettledKept(s: State, a: Action)
    requires Control(s) && Enabled(s, a) && KeepsSettled(a)
    ensures Behind(Apply(s, a)) == Behind(s)
  {
    match a {
      case Reap => ReapKeepsSettled(s);
      case Answer(sent) => AnswerKeepsSettled(s, sent);
      case Cleanup => CleanupKeepsSettled(s);
      case _ => SettledUntouched(s, a);
    }
  }

  lemma LiveOneMore(q: seq<Urb>, u: Urb)
    ensures Live(q + [u]) == Live(q) + if u.cancelled then [] else [u.id]
  {
    assert (q + [u])[..|q|] == q;
  }

  /** A completing step puts the held entry at the end. */
  lemma CompleteAppends(s: State, u: Urb, worker: Worker, session: Session)
    requires s.h.droppedCompleted == [] && (session == s.session || (!session.Answering? && !s.session.Answering?))
    ensures Behind(DoComplete(s, u, worker, session)) == Behind(s) + [u]
  {
    assert Behind(s) == s.h.freed + UnderAnswer(s) + s.completed;
  }

  /** The entry that a completing step puts into the completed queue. */
  function Completed(s: State, a: Action): Urb
    requires Enabled(s, a) && !KeepsSettled(a)
  {
    if a.PushDone? then s.worker.urb else s.session.urb
  }

  lemma CompletedEntry(s: State, a: Action)
    requires Control(s) && Enabled(s, a) && !KeepsSettled(a)
    ensures Behind(Apply(s, a)) == Behind(s) + [Completed(s, a)]
  {
    match a {
      case PushUnlinked => CompleteAppends(s, s.session.urb, s.worker, Idle);
      case PushCancelled => CompleteAppends(s, s.session.urb, s.worker, CancelPopping);
      case PushDone => CompleteAppends(s, s.worker.urb, Checking, s.session);
    }
  }

  /** The entry a completing step moves was the one its thread held. */
  lemma CompletedWasHeld(s: State, a: Action)
    requires Enabled(s, a) && !KeepsSettled(a)
    ensures a.PushDone? ==> Executed(s) == [Completed(s, a)] && Executed(Apply(s, a)) == []
    ensures a.PushDone? ==> UnderCancel(Apply(s, a)) == UnderCancel(s)
    ensures !a.PushDone? ==> UnderCancel(s) == [Completed(s, a)] && UnderCancel(Apply(s, a)) == []
    ensures !a.PushDone? ==> Executed(Apply(s, a)) == Executed(s)
    ensures Apply(s, a).h == s.h
  {
  }

  /** Other steps change what the worker has executed only by executing. */
  lemma OthersExecute(s: State, a: Action)
    requires Enabled(s, a) && KeepsSettled(a)
    ensures Executed(Apply(s, a)) == if a.Transfer? then [Execute(s.worker.urb, a.outcome)] else Executed(s)
    ensures Apply(s, a).h.executed == s.h.executed + if a.Transfer? then [s.worker.urb.id] else []
    ensures a.Transfer? ==> Executed(s) == []
  {
  }

  /** Other steps change what the session thread has cancelled only by cancelling. */
  lemma OthersCancel(s: State, a: Action)
    requires Enabled(s, a) && KeepsSettled(a)
    ensures UnderCancel(Apply(s, a)) == if Cancels(s, a) then [Cancel(s.pending[Victim(s, a)])] else UnderCancel(s)
    ensures Apply(s, a).h.cancelled == s.h.cancelled + if Cancels(s, a) then [s.pending[Victim(s, a)].id] else []
    ensures Cancels(s, a) ==> UnderCancel(s) == []
  {
  }

  lemma SingleId(u: Urb)
    ensures Ids([u]) == [u.id] && Ids([]) == []
  {
  }

  lemma ReapOrderKept(s: State, a: Action)
    requires ReapOrder(s) && Marks(s) && Control(s) && Enabled(s, a)
    ensures ReapOrder(Apply(s, a))
  {
    if KeepsSettled(a) {
      SettledKept(s, a);
      OthersExecute(s, a);
      if a.Transfer? {
        SingleId(Execute(s.worker.urb, a.outcome));
      }
    } else {
      CompletedEntry(s, a);
      CompletedWasHeld(s, a);
      LiveOneMore(Behind(s), Completed(s, a));
      SingleId(Completed(s, a));
    }
  }

  lemma WakeKept(s: State, a: Action)
    requires Wake(s) && Control(s) && Enabled(s, a)
    ensures Wake(Apply(s, a))
  {
  }

  predicate OfWorker(a: Action) {
    a.Check? || a.Pop? || a.Wait? || a.Transfer? || a.PushDone?
  }

  lemma WorkerKeepsControl(s: State, a: Action)
    requires Control(s) && Enabled(s, a) && OfWorker(a)
    ensures Control(Apply(s, a))
  {
  }

  lemma SessionKeepsControl(s: State, a: Action)
    requires Control(s) && Enabled(s, a) && !OfWorker(a)
    ensures Control(Apply(s, a))
  {
  }

  lemma ControlKept(s: State, a: Action)
    requires Control(s) && Enabled(s, a)
    ensures Control(Apply(s, a))
  {
    if OfWorker(a) {
      WorkerKeepsControl(s, a);
    } else {
      SessionKeepsControl(s, a);
    }
  }

  lemma {:induction false} WrappedSum(total: nat, more: nat)
    ensures Wrapped(Wrapped(total) + more) == Wrapped(total + more)
  {
    if total >= UINT64 {
      WrappedSum(total - UINT64, more);
    }
  }

  /** Only answers leave a record of answers. */
  lemma OnlyAnswersRecord(s: State, a: Action)
    requires Enabled(s, a) && !a.Answer?
    ensures
      var h := Apply(s, a).h;
      h.answered == s.h.answered && h.freed == s.h.freed && h.replies == s.h.replies && h.bytesSent == s.h.bytesSent
  {
  }

  lemma AnswerKeepsPositions(s: State, sent: bool)
    requires AnswerPositions(s) && s.session.Answering? && Answerable(s.session.urb)
    ensures AnswerPositions(DoAnswer(s, sent))
  {
  }

  lemma AnswerPositionsKept(s: State, a: Action)
    requires AnswerPositions(s) && Enabled(s, a)
    ensures AnswerPositions(Apply(s, a))
  {
    if a.Answer? {
      AnswerKeepsPositions(s, a.sent);
    } else {
      OnlyAnswersRecord(s, a);
    }
  }

  lemma AnswerKeepsContents(s: State, sent: bool)
    requires AnswerPositions(s) && AnswerContents(s) && s.session.Answering? && Answerable(s.session.urb)
    ensures AnswerContents(DoAnswer(s, sent))
  {
    var t := DoAnswer(s, sent);
    assert s.h.freed <= t.h.freed && s.h.replies <= t.h.replies && s.h.answered <= t.h.answered;
    if sent {
      assert IsReplyFor(ReplyFor(s.session.urb), s.session.urb);
      assert t.h.freed[|s.h.freed|] == s.session.urb;
    }
  }

  lemma AnswerContentsKept(s: State, a: Action)
    requires AnswerPositions(s) && AnswerContents(s) && Enabled(s, a)
    ensures AnswerContents(Apply(s, a))
  {
    if a.Answer? {
      AnswerKeepsContents(s, a.sent);
    } else {
      OnlyAnswersRecord(s, a);
    }
  }

  lemma PayloadOneMore(replies: seq<Reply>, reply: Reply)
    ensures PayloadBytes(replies + [reply]) == PayloadBytes(replies) + |reply.payload|
  {
    assert (replies + [reply])[..|replies|] == replies;
  }

  lemma AnswerCounts(s: State)
    requires Counter(s) && s.session.Answering? && Answerable(s.session.urb)
    ensures Counter(DoAnswer(s, true)) && Counter(DoAnswer(s, false))
  {
    var reply := ReplyFor(s.session.urb);
    PayloadOneMore(s.h.replies, reply);
    WrappedSum(PayloadBytes(s.h.replies), |reply.payload|);
  }

  lemma CounterKept(s: State, a: Action)
    requires Counter(s) && Enabled(s, a)
    ensures Counter(Apply(s, a))
  {
    if a.Answer? {
      AnswerCounts(s);
    } else {
      OnlyAnswersRecord(s, a);
    }
  }

  // ---- Cancellation order ----

  lemma DeadOneMore(q: seq<Urb>, u: Urb)
    ensures Dead(q + [u]) == Dead(q) + if u.cancelled then [u.id] else []
  {
    assert (q + [u])[..|q|] == q;
  }

  /** A pending id was not cancelled before. */
  lemma PendingIsNew(s: State, i: nat)
    requires Order(s) && i < |s.pending|
    ensures s.pending[i].id < |s.h.requests| && s.pending[i].id !in s.h.cancelled
  {
    UncancelledProperties(|s.h.requests|, s.h.cancelled);
    var line := s.h.executed + Ids(Ahead(s));
    assert Ahead(s)[|InFlight(s)| + i] == s.pending[i];
    assert line[|s.h.executed| + |InFlight(s)| + i] == s.pending[i].id;
  }

  lemma CancelOrderKept(s: State, a: Action)
    requires CancelOrder(s) && Marks(s) && Control(s) && Enabled(s, a)
    ensures CancelOrder(Apply(s, a))
  {
    if KeepsSettled(a) {
      SettledKept(s, a);
      OthersCancel(s, a);
      if Cancels(s, a) {
        SingleId(Cancel(s.pending[Victim(s, a)]));
      }
    } else {
      CompletedEntry(s, a);
      CompletedWasHeld(s, a);
      DeadOneMore(Behind(s), Completed(s, a));
      SingleId(Completed(s, a));
    }
  }

  /** Steps that cancel nothing leave the cancelled ids alone. */
  lemma CancelledKept(s: State, a: Action)
    requires Enabled(s, a) && !Cancels(s, a)
    ensures Apply(s, a).h.cancelled == s.h.cancelled
  {
  }

  lemma CancelledOnceKept(s: State, a: Action)
    requires Order(s) && CancelledOnce(s) && Enabled(s, a)
    ensures CancelledOnce(Apply(s, a))
  {
    HistoryGrows(s, a);
    if Cancels(s, a) {
      PendingIsNew(s, Victim(s, a));
    } else {
      CancelledKept(s, a);
    }
  }

  // ---- Stages ----

  lemma FreshStays(s: State, t: State, q: seq<Urb>)
    requires s.h.requests <= t.h.requests && AllFresh(s, q)
    ensures AllFresh(t, q)
  {
  }

  /** The records that steps only add to. */
  predicate Grows(s: State, t: State) {
    s.h.requests <= t.h.requests && s.h.executed <= t.h.executed && s.h.outcomes <= t.h.outcomes
  }

  lemma SettledStaysOne(s: State, t: State, u: Urb)
    requires Grows(s, t) && Settled(s, u)
    ensures Settled(t, u)
  {
    if !u.cancelled {
      var k: nat :| k < |s.h.executed| && ExecutedAs(s, u, k);
      assert ExecutedAs(t, u, k);
    }
  }

  lemma SettledStays(s: State, t: State, q: seq<Urb>)
    requires Grows(s, t) && AllSettled(s, q)
    ensures AllSettled(t, q)
  {
    forall i | 0 <= i < |q| ensures Settled(t, q[i]) {
      SettledStaysOne(s, t, q[i]);
    }
  }

  lemma HistoryGrows(s: State, a: Action)
    requires Enabled(s, a)
    ensures Grows(s, Apply(s, a))
  {
  }

  lemma ParallelKept(s: State, a: Action)
    requires Parallel(s) && Enabled(s, a)
    ensures Parallel(Apply(s, a))
  {
  }

  lemma CancelSettles(s: State, u: Urb)
    requires Fresh(s, u)
    ensures Settled(s, Cancel(u))
  {
  }

  lemma TransferSettles(s: State, r: DeviceResult)
    requires Parallel(s) && Enabled(s, Transfer(r)) && Fresh(s, s.worker.urb)
    ensures Settled(DoTransfer(s, r), Execute(s.worker.urb, r)) && !Execute(s.worker.urb, r).cancelled
  {
    assert ExecutedAs(DoTransfer(s, r), Execute(s.worker.urb, r), |s.h.executed|);
  }

  lemma FreshWithout(s: State, q: seq<Urb>, i: nat)
    requires AllFresh(s, q) && i < |q|
    ensures AllFresh(s, Without(q, i)) && AllFresh(s, q[1..])
  {
  }

  lemma SubmitIsFresh(s: State, r: Request)
    requires r.Valid()
    ensures Fresh(DoSubmit(s, r), Create(|s.h.requests|, r))
  {
  }

  lemma CancelKeepsFresh(s: State, i: nat, unlinking: bool)
    requires AheadFresh(s) && i < |s.pending| && s.h.droppedPending == []
    ensures AheadFresh(DoCancel(s, i, unlinking))
  {
    var t := DoCancel(s, i, unlinking);
    FreshStays(s, t, Ahead(s));
    CancelTakes(s, i, unlinking);
    FreshWithout(t, Ahead(s), |InFlight(s)| + i);
  }

  lemma SubmitKeepsFresh(s: State, r: Request)
    requires AheadFresh(s) && s.h.droppedPending == [] && r.Valid()
    ensures AheadFresh(DoSubmit(s, r))
  {
    FreshStays(s, DoSubmit(s, r), Ahead(s));
    SubmitLengthensLine(s, r);
    SubmitIsFresh(s, r);
  }

  lemma TransferKeepsFresh(s: State, r: DeviceResult)
    requires AheadFresh(s) && Enabled(s, Transfer(r))
    ensures AheadFresh(DoTransfer(s, r))
  {
    var t := DoTransfer(s, r);
    FreshStays(s, t, Ahead(s));
    TransferAdvances(s, r);
    FreshWithout(t, Ahead(s), 0);
    assert Ahead(t) == Ahead(s)[1..];
  }

  lemma AheadFreshKept(s: State, a: Action)
    requires AheadFresh(s) && Control(s) && Enabled(s, a)
    ensures AheadFresh(Apply(s, a))
  {
    if Cancels(s, a) {
      CancelKeepsFresh(s, Victim(s, a), a.FindUnlink?);
    } else if a.Submit? {
      SubmitKeepsFresh(s, a.request);
    } else if a.Transfer? {
      TransferKeepsFresh(s, a.outcome);
    } else {
      LineKept(s, a);
      HistoryGrows(s, a);
      FreshStays(s, Apply(s, a), Ahead(s));
    }
  }

  lemma VictimSettles(s: State, a: Action)
    requires AheadFresh(s) && Control(s) && Enabled(s, a) && Cancels(s, a)
    ensures AllSettled(s, [Cancel(s.pending[Victim(s, a)])])
  {
    CancelTakes(s, Victim(s, a), a.FindUnlink?);
    CancelSettles(s, s.pending[Victim(s, a)]);
  }

  lemma InFlightSettles(s: State, r: DeviceResult)
    requires Parallel(s) && AheadFresh(s) && Enabled(s, Transfer(r))
    ensures AllSettled(DoTransfer(s, r), [Execute(s.worker.urb, r)]) && !Execute(s.worker.urb, r).cancelled
  {
    assert Ahead(s)[0] == s.worker.urb;
    TransferSettles(s, r);
  }

  lemma ExecutedSettledKept(s: State, a: Action)
    requires Parallel(s) && AheadFresh(s) && AllSettled(s, Executed(s)) && Enabled(s, a)
    ensures AllSettled(Apply(s, a), Executed(Apply(s, a)))
  {
    HistoryGrows(s, a);
    SettledStays(s, Apply(s, a), Executed(s));
    if !KeepsSettled(a) {
      CompletedWasHeld(s, a);
    } else {
      OthersExecute(s, a);
      if a.Transfer? {
        InFlightSettles(s, a.outcome);
      }
    }
  }

  lemma CancelledSettledKept(s: State, a: Action)
    requires AheadFresh(s) && AllSettled(s, UnderCancel(s)) && Control(s) && Enabled(s, a)
    ensures AllSettled(Apply(s, a), UnderCancel(Apply(s, a)))
  {
    HistoryGrows(s, a);
    SettledStays(s, Apply(s, a), UnderCancel(s));
    if !KeepsSettled(a) {
      CompletedWasHeld(s, a);
    } else {
      OthersCancel(s, a);
      if Cancels(s, a) {
        VictimSettles(s, a);
        SettledStays(s, Apply(s, a), [Cancel(s.pending[Victim(s, a)])]);
      }
    }
  }

  lemma BehindSettledKept(s: State, a: Action)
    requires Parallel(s) && AheadFresh(s) && BehindSettled(s) && Control(s) && Enabled(s, a)
    ensures BehindSettled(Apply(s, a))
  {
    ExecutedSettledKept(s, a);
    CancelledSettledKept(s, a);
    var t := Apply(s, a);
    HistoryGrows(s, a);
    SettledStays(s, t, Behind(s));
    if KeepsSettled(a) {
      SettledKept(s, a);
    } else {
      CompletedEntry(s, a);
      CompletedWasHeld(s, a);
      SettledStays(s, t, [Completed(s, a)]);
    }
  }

  lemma MarksKept(s: State, a: Action)
    requires Marks(s) && Parallel(s) && AheadFresh(s) && Enabled(s, a)
    ensures Marks(Apply(s, a))
  {
    if a.Transfer? {
      InFlightSettles(s, a.outcome);
    }
  }

  // ---- All runs ----

  lemma InvKept(s: State, a: Action)
    requires Inv(s) && Enabled(s, a)
    ensures Inv(Apply(s, a))
  {
    OrderKept(s, a);
    ReapOrderKept(s, a);
    CancelOrderKept(s, a);
    CancelledOnceKept(s, a);
    ParallelKept(s, a);
    AheadFreshKept(s, a);
    BehindSettledKept(s, a);
    MarksKept(s, a);
    WakeKept(s, a);
    ControlKept(s, a);
    AnswerPositionsKept(s, a);
    AnswerContentsKept(s, a);
    CounterKept(s, a);
  }

  lemma {:induction false} RunKeepsInv(s: State, actions: seq<Action>)
    requires Inv(s)
    ensures Run(s, actions).Some? ==> Inv(Run(s, actions).value)
    decreases |actions|
  {
    if actions != [] && Enabled(s, actions[0]) {
      InvKept(s, actions[0]);
      RunKeepsInv(Apply(s, actions[0]), actions[1..]);
    }
  }

  lemma {:induction false} RunOneMore(s: State, actions: seq<Action>, a: Action)
    requires Run(s, actions).Some? && Enabled(Run(s, actions).value, a)
    ensures Run(s, actions + [a]) == Some(Apply(Run(s, actions).value, a))
    decreases |actions|
  {
    var more := actions + [a];
    if actions == [] {
      assert Run(Apply(s, a), more[1..]) == Some(Apply(s, a));
    } else {
      RunOneMore(Apply(s, actions[0]), actions[1..], a);
      assert more[1..] == actions[1..] + [a];
    }
  }

  lemma ReachableNext(s: State, a: Action)
    requires Reachable(s) && Enabled(s, a)
    ensures Reachable(Apply(s, a))
  {
    var actions :| Run(Init(), actions) == Some(s);
    RunOneMore(Init(), actions, a);
  }

  lemma {:induction false} RunReachable(s: State, actions: seq<Action>)
    requires Reachable(s) && Run(s, actions).Some?
    ensures Reachable(Run(s, actions).value)
    decreases |actions|
  {
    if actions != [] {
      ReachableNext(s, actions[0]);
      RunReachable(Apply(s, actions[0]), actions[1..]);
    }
  }

  lemma InitInv()
    ensures Inv(Init())
  {
    assert Ids([]) == [];
  }

  /** Every state of every interleaving satisfies the invariant. */
  lemma ReachableInv(s: State)
    requires Reachable(s)
    ensures Inv(s)
  {
    var actions :| Run(Init(), actions) == Some(s);
    InitInv();
    RunKeepsInv(Init(), actions);
  }
}
