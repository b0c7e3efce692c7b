/** Runs of server operations, and the synchronous session loop of server/main.c. */
module OwnershipRuns {
  import opened Bytes
  import opened Config
  import opened Ownership
  import opened OwnershipInvariant

  // ---- Failing attaches ----

  lemma FailedAttachChanges(s: Server, i: nat, busid: seq<byte>, f: Faults)
    requires Inv(s) && i < |s.clients| && AttachError(s, busid, f).Some?
    requires s.clients[i].state == Connected || Refused(s, busid)
    ensures
      var j, t := Find(s.entries, busid), Attach(s, i, busid, f);
      && t.clients == s.clients && t.nextId == s.nextId
      && (t.entries == s.entries
          || (j < |s.entries| && s.entries[j].state == Available
              && t.entries == SetDevice(s.entries, j, s.entries[j].device.(claimedInterface := -1))))
  {
    assert ClientOk(s.entries, s.clients[i]);
    if !Refused(s, busid) {
      assert EntryOk(s.entries[Find(s.entries, busid)]);
    }
  }

  lemma FailedAttachKeepsInv(s: Server, i: nat, busid: seq<byte>, f: Faults)
    requires Inv(s) && i < |s.clients| && AttachError(s, busid, f).Some?
    requires s.clients[i].state == Connected || Refused(s, busid)
    ensures Inv(Attach(s, i, busid, f))
  {
    FailedAttachChanges(s, i, busid, f);
    var j, t := Find(s.entries, busid), Attach(s, i, busid, f);
    if t.entries != s.entries {
      assert EntryOk(s.entries[j]);
      FreeIsUnowned(s, j);
      forall k | 0 <= k < |t.clients| ensures ClientOk(t.entries, t.clients[k]) {
        ClientStaysOk(s.entries, j, t.entries[j], s.clients[k]);
      }
      forall k | 0 <= k < |t.entries| && t.entries[k].state == Exported
        ensures Owned(t.clients, t.entries[k].device.busid) {
        assert Owned(s.clients, s.entries[k].device.busid);
      }
    }
  }

  /** A failing attach of a client that is attached already takes its handler away. */
  lemma FailedSecondAttachStrands(s: Server, i: nat, busid: seq<byte>, f: Faults)
    requires Inv(s) && i < |s.clients| && s.clients[i].state == Attached
    requires AttachError(s, busid, f).Some? && !Refused(s, busid)
    ensures !Inv(Attach(s, i, busid, f))
  {
    assert EntryOk(s.entries[Find(s.entries, busid)]);
    var t := Attach(s, i, busid, f);
    assert t.clients[i].state == Attached && !t.clients[i].hasHandler;
    assert !ClientOk(t.entries, t.clients[i]);
  }

  /** A second successful attach of a client strands its first device: exported, with no client that owns it. */
  lemma SecondAttachStrands(s: Server, i: nat, busid: seq<byte>, f: Faults)
    requires Inv(s) && i < |s.clients| && s.clients[i].state == Attached && AttachError(s, busid, f) == None
    ensures !Inv(Attach(s, i, busid, f))
  {
    var j, t := Find(s.entries, busid), Attach(s, i, busid, f);
    var c := s.clients[i];
    assert ClientOk(s.entries, c) && EntryOk(s.entries[j]);
    var k := Find(s.entries, c.busid);
    assert t.entries[k] == s.entries[k] && t.clients[i].busid == busid;
    forall l | 0 <= l < |t.clients| ensures t.clients[l].busid != c.busid {
      assert l == i || t.clients[l] == s.clients[l];
    }
    assert !Owned(t.clients, t.entries[k].device.busid);
  }

  /** Attaching keeps the invariant exactly when the client is not attached yet or the attach is refused outright. */
  lemma AttachKeepsInvIff(s: Server, i: nat, busid: seq<byte>, f: Faults)
    requires Inv(s) && i < |s.clients|
    ensures Inv(Attach(s, i, busid, f)) <==> s.clients[i].state == Connected || Refused(s, busid)
  {
    if s.clients[i].state == Connected || Refused(s, busid) {
      if AttachError(s, busid, f).Some? {
        FailedAttachKeepsInv(s, i, busid, f);
      } else {
        AttachKeepsInv(s, i, busid, f);
      }
    } else if AttachError(s, busid, f).Some? {
      FailedSecondAttachStrands(s, i, busid, f);
    } else {
      SecondAttachStrands(s, i, busid, f);
    }
  }

  // ---- Runs ----

  datatype Op = AddClient(ip: seq<byte>, outOfMemory: bool) | AttachDevice(i: nat, busid: seq<byte>, faults: Faults)
              | DetachDevice(i: nat) | RemoveClient(i: nat) | SetShared(busid: seq<byte>, isShared: bool)
              | DisconnectClients

  /** Devices are only attached to clients that have none. */
  predicate OpEnabled(s: Server, op: Op) {
    match op
    case AttachDevice(i, _, _) => i < |s.clients| && s.clients[i].state == Connected
    case DetachDevice(i) => i < |s.clients|
    case RemoveClient(i) => i < |s.clients|
    case _ => true
  }

  /** `device_list_set_shared`. */
  function Share(entries: seq<Entry>, busid: seq<byte>, isShared: bool): seq<Entry> {
    var j := Find(entries, busid);
    if j == |entries| then entries else entries[j := entries[j].(isShared := isShared)]
  }

  function ApplyOp(s: Server, op: Op): Server
    requires OpEnabled(s, op)
  {
    match op
    case AddClient(ip, outOfMemory) => Add(s, ip, outOfMemory).0
    case AttachDevice(i, busid, faults) => Attach(s, i, busid, faults)
    case DetachDevice(i) => Detach(s, i)
    case RemoveClient(i) => Remove(s, i)
    case SetShared(busid, isShared) => s.(entries := Share(s.entries, busid, isShared))
    case DisconnectClients => DisconnectAll(s)
  }

  function RunOps(s: Server, ops: seq<Op>): Option<Server>
    decreases |ops|
  {
    if ops == [] then Some(s)
    else if !OpEnabled(s, ops[0]) then None
    else RunOps(ApplyOp(s, ops[0]), ops[1..])
  }

  /** A server as it starts: no clients, and an enumerated list of free devices. */
  predicate Startup(s: Server) {
    && s.clients == [] && DistinctBusids(s.entries)
    && forall j | 0 <= j < |s.entries| :: EntryOk(s.entries[j]) && s.entries[j].state == Available
  }

  lemma NewClientKeepsInv(s: Server, t: Server, c: Client)
    requires Inv(s) && |s.clients| < MAX_CLIENTS && c.Idle() && |c.ip| < IP_MAX
    requires t.entries == s.entries && t.clients == [c] + s.clients
    ensures Inv(t)
  {
    assert forall k | 0 < k < |t.clients| :: t.clients[k] == s.clients[k - 1];
    forall k | 0 <= k < |t.entries| && t.entries[k].state == Exported
      ensures Owned(t.clients, t.entries[k].device.busid) {
      assert Owned(s.clients, s.entries[k].device.busid);
      var l :| 0 <= l < |s.clients| && s.clients[l].busid == s.entries[k].device.busid;
      assert t.clients[l + 1] == s.clients[l];
    }
  }

  lemma AddKeepsInv(s: Server, ip: seq<byte>, outOfMemory: bool)
    requires Inv(s)
    ensures Inv(Add(s, ip, outOfMemory).0)
  {
    var t := Add(s, ip, outOfMemory).0;
    if t.clients != s.clients {
      NewClientKeepsInv(s, t, t.clients[0]);
    }
  }

  lemma ShareKeepsInv(s: Server, busid: seq<byte>, isShared: bool)
    requires Inv(s)
    ensures Inv(s.(entries := Share(s.entries, busid, isShared)))
  {
    var j, t := Find(s.entries, busid), s.(entries := Share(s.entries, busid, isShared));
    if j < |s.entries| {
      assert EntryOk(s.entries[j]);
      forall k | 0 <= k < |t.clients| ensures ClientOk(t.entries, t.clients[k]) {
        FindAfterUpdate(s.entries, j, t.entries[j], s.clients[k].busid);
        assert ClientOk(s.entries, s.clients[k]);
      }
      forall k | 0 <= k < |t.entries| && t.entries[k].state == Exported
        ensures Owned(t.clients, t.entries[k].device.busid) {
        assert Owned(s.clients, s.entries[k].device.busid);
      }
    }
  }

  /** Disconnecting everyone ends with no clients and every entry that was exported given back. */
  lemma {:induction false} DisconnectAllFrees(s: Server)
    requires Inv(s)
    ensures
      var t := DisconnectAll(s);
      && Inv(t) && t.clients == [] && |t.entries| == |s.entries|
      && forall k | 0 <= k < |s.entries| ::
           t.entries[k] == if s.entries[k].state == Exported then Freed(s.entries[k]) else s.entries[k]
    decreases |s.clients|
  {
    if s.clients == [] {
      forall k | 0 <= k < |s.entries| ensures s.entries[k].state != Exported {
        assert s.entries[k].state == Exported ==> Owned(s.clients, s.entries[k].device.busid);
      }
    } else {
      RemoveKeepsInv(s, 0);
      assert ClientOk(s.entries, s.clients[0]);
      if s.clients[0].state == Attached {
        RemoveFrees(s, 0);
      } else {
        RemoveIdleKeepsInv(s, 0);
      }
      DisconnectAllFrees(Remove(s, 0));
    }
  }

  lemma OpKeepsInv(s: Server, op: Op)
    requires Inv(s) && OpEnabled(s, op)
    ensures Inv(ApplyOp(s, op))
  {
    match op {
      case AddClient(ip, outOfMemory) => AddKeepsInv(s, ip, outOfMemory);
      case AttachDevice(i, busid, faults) => AttachKeepsInvIff(s, i, busid, faults);
      case DetachDevice(i) => DetachKeepsInv(s, i);
      case RemoveClient(i) => RemoveKeepsInv(s, i);
      case SetShared(busid, isShared) => ShareKeepsInv(s, busid, isShared);
      case DisconnectClients => DisconnectAllFrees(s);
    }
  }

  lemma {:induction false} OpsKeepInv(s: Server, ops: seq<Op>)
    requires Inv(s)
    ensures RunOps(s, ops).Some? ==> Inv(RunOps(s, ops).value)
    decreases |ops|
  {
    if ops != [] && OpEnabled(s, ops[0]) {
      OpKeepsInv(s, ops[0]);
      OpsKeepInv(ApplyOp(s, ops[0]), ops[1..]);
    }
  }

  /** Ownership agrees between the two lists and the device flags after any run from start-up. */
  lemma OwnershipAgrees(s: Server, ops: seq<Op>)
    requires Startup(s)
    ensures RunOps(s, ops).Some? ==> Inv(RunOps(s, ops).value)
  {
    assert Inv(s);
    OpsKeepInv(s, ops);
  }
}
