/**
 * The client limit under concurrency: `client_manager_add` tests the count before it takes the lock, so
 * several accepting threads can pass the test together (server/client_manager.c).
 */
module Capacity {
  import opened Bytes
  import opened Config

  /** The list's length, the counter, and which acceptors are between their test and the lock. */
  datatype State = State(length: nat, count: int, passed: seq<bool>)

  datatype Action = Test(i: nat) | AddLocked(i: nat, outOfMemory: bool) | Remove

  function Init(acceptors: nat): State {
    State(0, 0, seq(acceptors, _ => false))
  }

  predicate Enabled(s: State, a: Action) {
    match a
    case Test(i) => i < |s.passed| && !s.passed[i]
    case AddLocked(i, _) => i < |s.passed| && s.passed[i]
    case Remove => s.length > 0
  }

  function Apply(s: State, a: Action): State
    requires Enabled(s, a)
  {
    match a
    case Test(i) => if s.count >= MAX_CLIENTS then s else s.(passed := s.passed[i := true])
    case AddLocked(i, outOfMemory) =>
      var t := s.(passed := s.passed[i := false]);
      if outOfMemory then t else t.(length := s.length + 1, count := s.count + 1)
    case Remove => s.(length := s.length - 1, count := s.count - 1)
  }

  function Run(s: State, actions: seq<Action>): Option<State>
    decreases |actions|
  {
    if actions == [] then Some(s)
    else if !Enabled(s, actions[0]) then None
    else Run(Apply(s, actions[0]), actions[1..])
  }

  function Waiting(passed: seq<bool>): (n: nat)
    ensures n <= |passed|
  {
    if passed == [] then 0 else (if passed[0] then 1 else 0) + Waiting(passed[1..])
  }

  lemma {:induction false} WaitingAfter(passed: seq<bool>, i: nat, b: bool)
    requires i < |passed|
    ensures Waiting(passed[i := b]) == Waiting(passed) + (if b then 1 else 0) - (if passed[i] then 1 else 0)
  {
    if i == 0 {
      assert passed[0 := b][1..] == passed[1..];
    } else {
      assert passed[i := b][1..] == passed[1..][i - 1 := b];
      WaitingAfter(passed[1..], i - 1, b);
    }
  }

  /** The counter is the list's length, and what is listed or let in stays below the limit plus the other acceptors. */
  predicate Inv(s: State) {
    && s.count == s.length
    && (Waiting(s.passed) > 0 || s.length > 0 ==> s.length + Waiting(s.passed) <= MAX_CLIENTS - 1 + |s.passed|)
  }

  lemma StepKeepsInv(s: State, a: Action)
    requires Inv(s) && Enabled(s, a)
    ensures Inv(Apply(s, a)) && |Apply(s, a).passed| == |s.passed|
  {
    if !a.Remove? {
      WaitingAfter(s.passed, a.i, a.Test?);
    }
  }

  lemma {:induction false} RunKeepsInv(s: State, actions: seq<Action>)
    requires Inv(s)
    ensures Run(s, actions).Some? ==> Inv(Run(s, actions).value) && |Run(s, actions).value.passed| == |s.passed|
    decreases |actions|
  {
    if actions != [] && Enabled(s, actions[0]) {
      StepKeepsInv(s, actions[0]);
      RunKeepsInv(Apply(s, actions[0]), actions[1..]);
    }
  }

  lemma {:induction false} NoneWaiting(n: nat)
    ensures Waiting(Init(n).passed) == 0
  {
    if n > 0 {
      NoneWaiting(n - 1);
      assert Init(n).passed[1..] == Init(n - 1).passed;
    }
  }

  /** With n acceptors and any removers, at most 15 + n clients are ever listed, and the counter is exact. */
  lemma CountBounded(n: nat, actions: seq<Action>)
    requires n > 0
    ensures
      var r := Run(Init(n), actions);
      r.Some? ==> r.value.count == r.value.length <= 15 + n
  {
    NoneWaiting(n);
    RunKeepsInv(Init(n), actions);
  }

  // ---- The bound is reached ----

  lemma {:induction false} RunConcat(s: State, a: seq<Action>, b: seq<Action>)
    ensures Run(s, a + b) == if Run(s, a).Some? then Run(Run(s, a).value, b) else None
    decreases |a|
  {
    if a == [] {
      assert a + b == b;
    } else if Enabled(s, a[0]) {
      assert (a + b)[1..] == a[1..] + b;
      RunConcat(Apply(s, a[0]), a[1..], b);
    }
  }

  /** One acceptor admits k clients one after the other. */
  function Admit(k: nat): seq<Action> {
    if k == 0 then [] else Admit(k - 1) + [Test(0), AddLocked(0, false)]
  }

  lemma {:induction false} AdmitRun(n: nat, k: nat)
    requires n > 0 && k <= MAX_CLIENTS
    ensures Run(Init(n), Admit(k)) == Some(State(k, k, Init(n).passed))
  {
    if k > 0 {
      AdmitRun(n, k - 1);
      var s := State(k - 1, k - 1, Init(n).passed);
      RunConcat(Init(n), Admit(k - 1), [Test(0), AddLocked(0, false)]);
      var tested := Apply(s, Test(0));
      assert Apply(tested, AddLocked(0, false)).passed == s.passed;
      assert [Test(0), AddLocked(0, false)][1..] == [AddLocked(0, false)];
      assert Run(tested, [AddLocked(0, false)]) == Some(Apply(tested, AddLocked(0, false)));
    }
  }

  /** The first m acceptors have passed their test. */
  function PassedUpTo(n: nat, m: nat): seq<bool>
    requires m <= n
  {
    seq(n, i => i < m)
  }

  function TestAll(m: nat): seq<Action> {
    if m == 0 then [] else TestAll(m - 1) + [Test(m - 1)]
  }

  lemma {:induction false} TestAllRun(n: nat, m: nat, k: nat)
    requires m <= n && k < MAX_CLIENTS
    ensures Run(State(k, k, Init(n).passed), TestAll(m)) == Some(State(k, k, PassedUpTo(n, m)))
  {
    var s := State(k, k, Init(n).passed);
    if m == 0 {
      assert PassedUpTo(n, 0) == Init(n).passed;
    } else {
      TestAllRun(n, m - 1, k);
      RunConcat(s, TestAll(m - 1), [Test(m - 1)]);
      assert PassedUpTo(n, m - 1)[m - 1 := true] == PassedUpTo(n, m);
    }
  }

  function AddEach(m: nat): seq<Action> {
    if m == 0 then [] else [AddLocked(m - 1, false)] + AddEach(m - 1)
  }

  lemma {:induction false} AddEachRun(n: nat, m: nat, k: nat)
    requires m <= n
    ensures Run(State(k, k, PassedUpTo(n, m)), AddEach(m)) == Some(State(k + m, k + m, PassedUpTo(n, 0)))
    decreases m
  {
    if m > 0 {
      var s := State(k, k, PassedUpTo(n, m));
      assert Apply(s, AddLocked(m - 1, false)).passed == PassedUpTo(n, m - 1);
      AddEachRun(n, m - 1, k + 1);
      assert AddEach(m)[1..] == AddEach(m - 1);
    }
  }

  /** A run that ends with 15 + n clients: 15 are admitted, all n acceptors pass the test, all n add. */
  lemma BoundReached(n: nat)
    requires n > 0
    ensures
      var r := Run(Init(n), Admit(MAX_CLIENTS - 1) + (TestAll(n) + AddEach(n)));
      r.Some? && r.value.count == 15 + n
  {
    var k := MAX_CLIENTS - 1;
    AdmitRun(n, k);
    RunConcat(Init(n), Admit(k), TestAll(n) + AddEach(n));
    TestAllRun(n, n, k);
    RunConcat(State(k, k, Init(n).passed), TestAll(n), AddEach(n));
    AddEachRun(n, n, k);
  }

  /** The limit of 16 holds in every run exactly if at most one thread accepts. */
  lemma LimitHoldsIff(n: nat)
    ensures
      (forall actions :: Run(Init(n), actions).Some? ==> Run(Init(n), actions).value.count <= 16) <==> n <= 1
  {
    if n == 0 {
      forall actions | Run(Init(0), actions).Some? ensures Run(Init(0), actions).value.count <= MAX_CLIENTS {
        NobodyAdds(actions);
      }
    } else if n == 1 {
      forall actions | Run(Init(1), actions).Some? ensures Run(Init(1), actions).value.count <= MAX_CLIENTS {
        CountBounded(1, actions);
      }
    } else {
      BoundReached(n);
    }
  }

  lemma NobodyAdds(actions: seq<Action>)
    ensures Run(Init(0), actions).Some? ==> actions == []
  {
    assert actions != [] ==> !Enabled(Init(0), actions[0]);
  }
}
