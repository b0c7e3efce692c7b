/**
 * The URB handler on the heap: two linked queues, the running flag, and the entry each thread holds. Each
 * method is one atomic step of one thread: from a heap that represents a state of `UrbMachine` it reaches
 * one that represents the state after the corresponding action (`Apply`, or the `Do` function that is its
 * case). `Perform` carries this over to whole runs, in any interleaving, and `Stop` to `urb_handler_stop`.
 */
module UrbHandler {
  import opened Bytes
  import opened Seqs
  import opened Urbs
  import opened UrbInvariant
  import opened UrbMachine
  import opened UrbQueue
  import opened UrbStore
  import opened UrbTheorems

  function SeqnumOf(u: Urb): uint32 {
    u.seqnum
  }

  function WorkerUrb(w: Worker): Option<Urb> {
    if w.Executing? || w.Completing? then Some(w.urb) else None
  }

  function SessionUrb(session: Session): Option<Urb> {
    if session.Unlinking? || session.Cancelling? || session.Answering? then Some(session.urb) else None
  }

  /** What the heap shows of a state after the session thread took a pending entry, or found none. */
  predicate Took(s: State, t: State, i: nat) {
    && t.completed == s.completed && t.worker == s.worker && t.event == s.event && t.running == s.running
    && (if i < |s.pending|
        then t.pending == Without(s.pending, i) && SessionUrb(t.session) == Some(Cancel(s.pending[i]))
        else t.pending == s.pending && SessionUrb(t.session) == None)
  }

  lemma PopCancelTakes(s: State)
    ensures Took(s, DoPopCancel(s), 0)
  {
  }

  /** The walk of `queue_find_remove` stops at the first match. */
  lemma FirstMatchIs(q: seq<Urb>, seqnum: uint32, i: nat)
    requires i <= |q| && (i < |q| ==> q[i].seqnum == seqnum)
    requires forall k | 0 <= k < i :: SeqnumOf(q[k]) != seqnum
    ensures FirstMatch(q, seqnum) == i
  {
    var j := FirstMatch(q, seqnum);
    assert j < |q| ==> SeqnumOf(q[j]) == seqnum;
  }

  lemma FindUnlinkTakes(s: State, seqnum: uint32, i: nat)
    requires s.session.Idle? && i <= |s.pending| && (i < |s.pending| ==> s.pending[i].seqnum == seqnum)
    requires forall k | 0 <= k < i :: SeqnumOf(s.pending[k]) != seqnum
    ensures Took(s, DoFindUnlink(s, seqnum), i)
    ensures DoFindUnlink(s, seqnum).session.Unlinking? <==> i < |s.pending|
  {
    FirstMatchIs(s.pending, seqnum, i);
  }

  lemma ReapTakes(s: State)
    requires s.session.Idle?
    ensures
      var t := DoReap(s);
      && t.pending == s.pending && t.worker == s.worker && t.event == s.event && t.running == s.running
      && t.completed == (if s.completed == [] then [] else Without(s.completed, 0))
      && SessionUrb(t.session) == (if s.completed == [] then None else Some(s.completed[0]))
      && (t.session.Answering? <==> s.completed != [])
  {
    if s.completed != [] {
      WithoutFirst(s.completed);
    }
  }

  lemma PopTakes(s: State)
    requires s.worker.Popping?
    ensures
      var t := DoPop(s);
      && t.completed == s.completed && t.session == s.session && t.event == s.event && t.running == s.running
      && t.pending == (if s.pending == [] then [] else Without(s.pending, 0))
      && WorkerUrb(t.worker) == (if s.pending == [] then None else Some(s.pending[0]))
      && (t.worker.Executing? <==> s.pending != [])
  {
    if s.pending != [] {
      WithoutFirst(s.pending);
    }
  }

  lemma StillReachable(s: State, a: Action)
    requires Enabled(s, a)
    ensures Reachable(s) ==> Reachable(Apply(s, a))
  {
    if Reachable(s) {
      ReachableNext(s, a);
    }
  }

  predicate SameWorker(s: State, t: State) {
    t.worker == s.worker && t.running == s.running
  }

  function CancelEach(q: seq<Urb>): seq<Urb> {
    if q == [] then [] else [Cancel(q[0])] + CancelEach(q[1..])
  }

  /** The completed entries once everything pending has been cancelled. */
  function Tally(s: State): seq<Urb> {
    (if s.session.Cancelling? then s.completed + [s.session.urb] else s.completed) + CancelEach(s.pending)
  }

  lemma PopKeepsTally(s: State)
    requires s.session.CancelPopping?
    ensures Tally(DoPopCancel(s)) == Tally(s)
  {
    if s.pending != [] {
      WithoutFirst(s.pending);
      Associative(s.completed, [Cancel(s.pending[0])], CancelEach(s.pending[1..]));
    }
  }

  lemma PushKeepsTally(s: State)
    requires s.session.Cancelling?
    ensures Tally(DoComplete(s, s.session.urb, s.worker, CancelPopping)) == Tally(s)
  {
  }

  lemma TallyAtEnds(s: State, t: State)
    requires s.session.CancelPopping? && t.session.Idle? && t.pending == [] && Tally(t) == Tally(s)
    ensures t.completed == s.completed + CancelEach(s.pending)
  {
    assert CancelEach([]) == [] && t.completed + [] == t.completed;
  }

  class Handler {
    const store: Store<Urb>
    var running: bool

    ghost function Repr(): set<object>
      reads this, store, store.pending, store.completed
    {
      {this} + store.Repr()
    }

    ghost predicate Represents(s: State)
      reads Repr()
    {
      && store.Valid() && store.key == SeqnumOf
      && store.p == s.pending && store.c == s.completed
      && store.atWorker == WorkerUrb(s.worker) && store.atSession == SessionUrb(s.session)
      && s.event == store.pending.notify && s.running == running
    }

    constructor ()
      ensures Represents(Init()) && fresh(Repr())
    {
      store := new Store(SeqnumOf);
      running := false;
    }

    // ---- Session thread ----

    /** `urb_handler_start`; `created` tells whether the worker thread can be created. */
    method Start(created: bool, ghost s: State) returns (ok: bool, ghost t: State)
      requires Represents(s) && s.session.Idle? && (!s.running ==> WorkerGone(s.worker))
      modifies `running
      ensures Repr() == old(Repr())
      ensures Represents(t) && (ok <==> s.running || created)
      ensures t == if !s.running && created then s.(running := true, worker := Checking) else s
    {
      t := s;
      if running {
        return true, s;
      }
      running := true;
      if !created {
        running := false;
        return false, s;
      }
      ok, t := true, s.(running := true, worker := Checking);
    }

    /**
     * `urb_handler_submit` up to the end of the locked region of its push; `id` numbers the submissions.
     * The two flags tell whether the entry and its buffer, if it needs one, can be allocated.
     */
    method Submit(r: Request, id: nat, entryFits: bool, bufferFits: bool, ghost s: State)
      returns (ok: bool, ghost t: State)
      requires Represents(s) && s.session.Idle? && r.Valid() && id == |s.h.requests|
      modifies store.pending, store.pending.own`next, store`p
      ensures ok <==> entryFits && (bufferFits || r.header.arm[1] == 0)
      ensures t == if ok then DoSubmit(s, r) else s
      ensures Represents(t) && fresh(Repr() - old(Repr()))
    {
      t := s;
      if !entryFits {
        return false, s;
      }
      var urb := Create(id, r);
      if urb.bufferLength > 0 && !bufferFits {
        return false, s;
      }
      t := DoSubmit(s, r);
      store.Add(urb, urb.seqnum);
      ok := true;
    }

    method Signal(ghost s: State) returns (ghost t: State)
      requires Represents(s) && s.session.Signalling?
      modifies store.pending`notify
      ensures Repr() == old(Repr())
      ensures t == s.(event := true, session := Idle) && Represents(t)
    {
      t := s.(event := true, session := Idle);
      store.pending.Signal();
    }

    /** `queue_find_remove` and the marking of the entry it returns; true if there was one. */
    method FindUnlink(seqnum: uint32, ghost s: State) returns (found: bool, ghost t: State)
      requires Represents(s) && s.session.Idle?
      modifies store.pending`head, store.pending`tail, store.pending`count, store.pending`nodes, store.pending`own
      modifies store.pending.own, store`p, store`sessionEntry, store`atSession
      ensures Repr() <= old(Repr())
      ensures t == DoFindUnlink(s, seqnum) && Represents(t)
      ensures found <==> t.session.Unlinking?
    {
      ghost var i;
      found, i := store.TakeMatching(seqnum, Cancel);
      FindUnlinkTakes(s, seqnum, i);
      t := DoFindUnlink(s, seqnum);
    }

    method PushUnlinked(ghost s: State) returns (ghost t: State)
      requires Represents(s) && s.session.Unlinking?
      modifies Repr()
      ensures Repr() <= old(Repr())
      ensures t == DoComplete(s, s.session.urb, s.worker, Idle) && Represents(t)
    {
      t := DoComplete(s, s.session.urb, s.worker, Idle);
      store.CompleteForSession();
    }

    /** `urb_handler_get_completed`. */
    method Reap(ghost s: State) returns (got: bool, ghost t: State)
      requires Represents(s) && s.session.Idle?
      modifies store.completed, store.completed.own`next, store`c, store`sessionEntry, store`atSession
      ensures Repr() <= old(Repr())
      ensures t == DoReap(s) && Represents(t) && (got <==> t.session.Answering?)
    {
      t := DoReap(s);
      ReapTakes(s);
      got := store.TakeCompleted();
    }

    /** The answer has been sent or has failed; the entry is freed. */
    method Answered(sent: bool, ghost s: State) returns (ghost t: State)
      requires Represents(s) && s.session.Answering? && Answerable(s.session.urb)
      modifies store`sessionEntry, store`atSession
      ensures Repr() <= old(Repr())
      ensures t == DoAnswer(s, sent) && Represents(t)
    {
      t := DoAnswer(s, sent);
      store.FreeSession();
    }

    method ClearRunning(ghost s: State) returns (ghost t: State)
      requires Represents(s) && s.session.Idle? && s.running
      modifies `running
      ensures Repr() == old(Repr())
      ensures t == s.(running := false, session := StopSignalling) && Represents(t)
    {
      t := s.(running := false, session := StopSignalling);
      running := false;
    }

    method SignalStop(ghost s: State) returns (ghost t: State)
      requires Represents(s) && s.session.StopSignalling?
      modifies store.pending`notify
      ensures Repr() == old(Repr())
      ensures t == s.(event := true, session := Joining) && Represents(t)
    {
      t := s.(event := true, session := Joining);
      store.pending.Signal();
    }

    /** `thread_join` returns once the worker has exited. */
    method Join(ghost s: State) returns (ghost t: State)
      requires Represents(s) && s.session.Joining? && s.worker.Exited?
      ensures t == s.(session := CancelPopping) && Represents(t)
    {
      t := s.(session := CancelPopping);
    }

    /** One turn of `urb_handler_cancel_all` up to the push; false when nothing is left. */
    method PopCancel(ghost s: State) returns (more: bool, ghost t: State)
      requires Represents(s) && s.session.CancelPopping?
      modifies store.pending`head, store.pending`tail, store.pending`count, store.pending`nodes, store.pending`own
      modifies store.pending.own, store`p, store`sessionEntry, store`atSession
      ensures Repr() <= old(Repr())
      ensures t == DoPopCancel(s) && Represents(t) && (more <==> t.session.Cancelling?)
    {
      t := DoPopCancel(s);
      PopCancelTakes(s);
      more := store.TakeForSession(Cancel);
    }

    method PushCancelled(ghost s: State) returns (ghost t: State)
      requires Represents(s) && s.session.Cancelling?
      modifies Repr()
      ensures Repr() <= old(Repr())
      ensures t == DoComplete(s, s.session.urb, s.worker, CancelPopping) && Represents(t)
    {
      t := DoComplete(s, s.session.urb, s.worker, CancelPopping);
      store.CompleteForSession();
    }

    /** One turn of the loop: the held entry is completed and the next one taken. */
    method CancelNext(ghost s: State) returns (more: bool, ghost t: State)
      requires Represents(s) && s.session.Cancelling?
      modifies Repr()
      ensures Represents(t) && SameWorker(s, t) && Tally(t) == Tally(s) && Repr() <= old(Repr())
      ensures if more then t.session.Cancelling? && |t.pending| < |s.pending| else t.session.Idle? && t.pending == []
      ensures Reachable(s) ==> Reachable(t)
    {
      PushKeepsTally(s);
      StillReachable(s, Action.PushCancelled);
      t := PushCancelled(s);
      PopKeepsTally(t);
      StillReachable(t, Action.PopCancel);
      more, t := PopCancel(t);
    }

    /**
     * `urb_handler_cancel_all`, after the join: all pending entries end, cancelled, in the completed queue.
     * What it does is a run of the transition system.
     */
    method CancelAll(ghost s: State) returns (ghost t: State)
      requires Represents(s) && s.session.CancelPopping?
      modifies Repr()
      ensures Represents(t) && t.session.Idle? && t.pending == [] && SameWorker(s, t) && Repr() <= old(Repr())
      ensures t.completed == s.completed + CancelEach(s.pending)
      ensures Reachable(s) ==> Reachable(t)
    {
      var more;
      PopKeepsTally(s);
      StillReachable(s, Action.PopCancel);
      more, t := PopCancel(s);
      while more
        invariant Represents(t) && SameWorker(s, t) && Tally(t) == Tally(s) && Repr() <= old(Repr())
        invariant if more then t.session.Cancelling? else t.session.Idle? && t.pending == []
        invariant Reachable(s) ==> Reachable(t)
        decreases more, |t.pending|
      {
        more, t := CancelNext(t);
      }
      TallyAtEnds(s, t);
    }

    /** The two `queue_cleanup` calls of `urb_handler_cleanup`. */
    method Cleanup(ghost s: State) returns (freed: seq<Entry<Urb>>, ghost t: State)
      requires Represents(s) && s.session.Idle? && !s.running
      modifies store.pending, store.completed, store`p, store`c
      ensures Repr() <= old(Repr())
      ensures t == DoCleanup(s) && Represents(t)
      ensures freed == old(store.pending.nodes) + old(store.completed.nodes)
    {
      t := DoCleanup(s);
      freed := store.FreeQueues();
    }

    // ---- Worker thread ----

    /** The loop test; false ends the thread. */
    method Check(ghost s: State) returns (go: bool, ghost t: State)
      requires Represents(s) && s.worker.Checking?
      ensures t == s.(worker := if s.running then Popping else Exited) && Represents(t) && (go <==> !t.worker.Exited?)
    {
      t := s.(worker := if s.running then Popping else Exited);
      go := running;
    }

    method Pop(ghost s: State) returns (got: bool, ghost t: State)
      requires Represents(s) && s.worker.Popping?
      modifies store.pending, store.pending.own`next, store`p, store`workerEntry, store`atWorker
      ensures Repr() <= old(Repr())
      ensures t == DoPop(s) && Represents(t) && (got <==> t.worker.Executing?)
    {
      t := DoPop(s);
      PopTakes(s);
      got := store.TakeForWorker();
    }

    /** The wait on the auto-reset event: any end but an error consumes the signal. */
    method Wait(result: WaitResult, ghost s: State) returns (ghost t: State)
      requires Represents(s) && s.worker.Waiting? && CanEnd(s, result)
      modifies store.pending`notify
      ensures Repr() == old(Repr())
      ensures t == DoWait(s, result) && Represents(t)
    {
      t := DoWait(s, result);
      if !result.WaitFailed? {
        store.pending.Consume();
      }
    }

    /** `usb_submit_urb` with the outcome the device produced. */
    method Transfer(outcome: DeviceResult, ghost s: State) returns (ghost t: State)
      requires Represents(s) && s.worker.Executing? && Fits(s.worker.urb, outcome)
      modifies Repr()
      ensures Repr() <= old(Repr())
      ensures t == DoTransfer(s, outcome) && Represents(t)
    {
      t := DoTransfer(s, outcome);
      store.UpdateWorker(Execute(store.workerEntry.item, outcome));
    }

    method PushDone(ghost s: State) returns (ghost t: State)
      requires Represents(s) && s.worker.Completing?
      modifies Repr()
      ensures Repr() <= old(Repr())
      ensures t == DoComplete(s, s.worker.urb, Checking, s.session) && Represents(t)
    {
      t := DoComplete(s, s.worker.urb, Checking, s.session);
      store.CompleteForWorker();
    }

    // ---- Whole runs ----

    /** Any enabled step of either thread. */
    method Step(a: Action, id: nat, ghost s: State) returns (ghost t: State, ghost added: set<object>)
      requires Represents(s) && Enabled(s, a) && id == |s.h.requests|
      modifies Repr()
      ensures t == Apply(s, a) && Represents(t)
      ensures Repr() <= old(Repr()) + added && fresh(added)
    {
      var done: bool;
      added := {};
      match a {
        case Start => done, t := Start(true, s);
        case Submit(r) =>
          ghost var was := Repr();
          done, t := Submit(r, id, true, true, s);
          added := Repr() - was;
        case Signal => t := Signal(s);
        case FindUnlink(seqnum) => done, t := FindUnlink(seqnum, s);
        case PushUnlinked => t := PushUnlinked(s);
        case Reap => done, t := Reap(s);
        case Answer(sent) => t := Answered(sent, s);
        case ClearRunning => t := ClearRunning(s);
        case SignalStop => t := SignalStop(s);
        case Join => t := Join(s);
        case PopCancel => done, t := PopCancel(s);
        case PushCancelled => t := PushCancelled(s);
        case Cleanup => var freed; freed, t := Cleanup(s);
        case Check => done, t := Check(s);
        case Pop => done, t := Pop(s);
        case Wait(result) => t := Wait(result, s);
        case Transfer(outcome) => t := Transfer(outcome, s);
        case PushDone => t := PushDone(s);
      }
    }

    /** The i-th step of a run. */
    method Advance(actions: seq<Action>, i: nat, id: nat, ghost s: State)
      returns (next: nat, ghost t: State, ghost added: set<object>)
      requires Represents(s) && i < |actions| && Run(s, actions[i..]).Some? && id == |s.h.requests|
      modifies Repr()
      ensures Run(s, actions[i..]) == Run(t, actions[i + 1..]) && next == |t.h.requests| && Represents(t)
      ensures Repr() <= old(Repr()) + added && fresh(added)
    {
      RunSteps(s, actions, i);
      t, added := Step(actions[i], id, s);
      next := if actions[i].Submit? then id + 1 else id;
    }

    /**
     * The simulation: whatever run of the transition system the two threads make, in any interleaving, the
     * linked queues, the flag and the event end up representing the state in which the run ends.
     */
    method Perform(actions: seq<Action>, id: nat, ghost s: State) returns (ghost t: State, ghost added: set<object>)
      requires Represents(s) && Run(s, actions).Some? && id == |s.h.requests|
      modifies Repr()
      ensures Run(s, actions) == Some(t) && Represents(t)
      ensures Repr() <= old(Repr()) + added && fresh(added)
    {
      t, added := s, {};
      var i, next: nat := 0, id;
      while i < |actions|
        invariant i <= |actions| && Run(s, actions) == Run(t, actions[i..]) && next == |t.h.requests|
        invariant Represents(t) && fresh(added) && Repr() <= old(Repr()) + added
      {
        ghost var more;
        next, t, more := Advance(actions, i, next, t);
        added, i := added + more, i + 1;
      }
    }

    /** `urb_handler_stop` up to the join, when the handler runs. */
    method AskToExit(ghost s: State) returns (ghost t: State)
      requires Represents(s) && s.session.Idle? && s.running
      modifies `running, store.pending`notify
      ensures t == Asked(s) && Represents(t) && Repr() == old(Repr())
    {
      t := ClearRunning(s);
      t := SignalStop(t);
    }

    /** The rest of it, once the worker has exited. */
    method Finish(ghost s: State) returns (ghost t: State)
      requires Represents(s) && Reachable(s) && Enabled(s, Action.Join)
      modifies Repr()
      ensures Represents(t) && Reachable(t) && Stopped(t) && Repr() <= old(Repr())
    {
      JoinStopped(s);
      t := Join(s);
      t := CancelAll(t);
    }

    /**
     * `urb_handler_stop`: `meanwhile` is what the worker does until `thread_join` returns. Whatever that is,
     * afterwards no worker is left, nothing is pending, and every accepted submission has been answered or is
     * a node of the completed queue, settled.
     */
    method Stop(meanwhile: seq<Action>, id: nat, ghost s: State) returns (ghost t: State, ghost added: set<object>)
      requires Represents(s) && Reachable(s) && s.session.Idle? && id == |s.h.requests|
      requires s.running ==> Exits(Asked(s), meanwhile)
      modifies Repr()
      ensures Represents(t) && Reachable(t)
      ensures Repr() <= old(Repr()) + added && fresh(added)
      ensures if s.running then Stopped(t) && Drained(t) else t == s
    {
      t, added := s, {};
      if !running {
        return;
      }
      AskedReachable(s, meanwhile);
      t := AskToExit(s);
      t, added := Perform(meanwhile, id, t);
      t := Finish(t);
      StoppedIsDrained(t);
    }
  }

  /** The state in which `urb_handler_stop` joins. */
  function Asked(s: State): State {
    s.(running := false, event := true, session := Joining)
  }

  lemma AskedReachable(s: State, meanwhile: seq<Action>)
    requires Reachable(s) && Enabled(s, Action.ClearRunning) && Exits(Asked(s), meanwhile)
    ensures Reachable(Run(Asked(s), meanwhile).value) && Enabled(Run(Asked(s), meanwhile).value, Action.Join)
  {
    StillReachable(s, Action.ClearRunning);
    StillReachable(Apply(s, Action.ClearRunning), Action.SignalStop);
    RunReachable(Asked(s), meanwhile);
  }

  lemma JoinStopped(s: State)
    requires Reachable(s) && Enabled(s, Action.Join)
    ensures !s.running && Reachable(Apply(s, Action.Join))
  {
    ReachableInv(s);
    StillReachable(s, Action.Join);
  }

  lemma RunSteps(s: State, actions: seq<Action>, i: nat)
    requires i < |actions| && Run(s, actions[i..]).Some?
    ensures Enabled(s, actions[i]) && Run(s, actions[i..]) == Run(Apply(s, actions[i]), actions[i + 1..])
    ensures |Apply(s, actions[i]).h.requests| == |s.h.requests| + if actions[i].Submit? then 1 else 0
  {
    assert actions[i..][0] == actions[i] && actions[i..][1..] == actions[i + 1..];
    CountsSubmissions(s, actions[i]);
  }

  lemma CountsSubmissions(s: State, a: Action)
    requires Enabled(s, a)
    ensures |Apply(s, a).h.requests| == |s.h.requests| + if a.Submit? then 1 else 0
  {
  }

  /** Steps at whose end the session thread still joins and the worker has exited. */
  predicate Exits(s: State, actions: seq<Action>) {
    var t := Run(s, actions);
    t.Some? && t.value.session.Joining? && t.value.worker.Exited?
  }
}
