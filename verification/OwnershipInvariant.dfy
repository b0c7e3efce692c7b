/** The lists and the device flags agree on ownership, in every run of the server's operations. */
module OwnershipInvariant {
  import opened Bytes
  import opened Config
  import opened Seqs
  import opened Ownership

  // ---- The invariant ----

  predicate DistinctBusids(entries: seq<Entry>) {
    forall j, k | 0 <= j < k < |entries| :: entries[j].device.busid != entries[k].device.busid
  }

  /** An entry is free, with its device closed and no client noted, or exported, with its device open and claimed. */
  predicate EntryOk(e: Entry) {
    && 0 < |e.device.busid| < BUSID_MAX
    && (match e.state
        case Available => e.device.Closed() && e.clientId == 0 && e.clientIp == []
        case Exported => e.device.InUse()
        case _ => false)
  }

  predicate ExportedTo(e: Entry, c: Client) {
    e.state == Exported && e.device.InUse() && e.clientId == c.id && e.clientIp == c.ip
  }

  /** A client has nothing, or a handler, a bus id and the device of that id, which is exported to it. */
  predicate ClientOk(entries: seq<Entry>, c: Client) {
    && |c.ip| < IP_MAX
    && (c.Idle() || (
          && c.state == Attached && c.busid != [] && c.device == Some(c.busid) && c.hasHandler
          && var j := Find(entries, c.busid);
          j < |entries| && ExportedTo(entries[j], c)))
  }

  predicate NoSharedDevice(clients: seq<Client>) {
    forall i, k | 0 <= i < k < |clients| :: clients[i].busid == [] || clients[i].busid != clients[k].busid
  }

  predicate Owned(clients: seq<Client>, busid: seq<byte>) {
    exists i | 0 <= i < |clients| :: clients[i].busid == busid
  }

  predicate AllOwned(s: Server) {
    forall j | 0 <= j < |s.entries| && s.entries[j].state == Exported :: Owned(s.clients, s.entries[j].device.busid)
  }

  predicate Inv(s: Server) {
    && |s.clients| <= MAX_CLIENTS
    && DistinctBusids(s.entries)
    && (forall j | 0 <= j < |s.entries| :: EntryOk(s.entries[j]))
    && (forall i | 0 <= i < |s.clients| :: ClientOk(s.entries, s.clients[i]))
    && NoSharedDevice(s.clients) && AllOwned(s)
  }

  // ---- Lookup ----

  lemma FindEntry(entries: seq<Entry>, j: nat)
    requires DistinctBusids(entries) && j < |entries|
    ensures Find(entries, entries[j].device.busid) == j
  {
  }

  lemma FindAfterUpdate(entries: seq<Entry>, j: nat, e: Entry, busid: seq<byte>)
    requires j < |entries| && e.device.busid == entries[j].device.busid
    ensures Find(entries[j := e], busid) == Find(entries, busid)
  {
    var k, l := Find(entries[j := e], busid), Find(entries, busid);
    assert k < |entries| ==> entries[k].device.busid == busid;
    assert l < |entries| ==> entries[j := e][l].device.busid == busid;
  }

  // ---- Attach ----

  /** The effect of a successful attach on the entry and the client it involves. */
  lemma AttachSucceeds(s: Server, i: nat, busid: seq<byte>, f: Faults)
    requires Inv(s) && i < |s.clients| && s.clients[i].state == Connected && AttachError(s, busid, f) == None
    ensures
      var j := Find(s.entries, busid);
      var t := Attach(s, i, busid, f);
      && j < |s.entries| && s.entries[j].state == Available
      && t.entries == s.entries[j := t.entries[j]] && t.clients == s.clients[i := t.clients[i]] && t.nextId == s.nextId
      && t.entries[j].device.busid == busid && t.clients[i].busid == busid && EntryOk(t.entries[j])
      && t.entries[j].isShared == s.entries[j].isShared
      && ExportedTo(t.entries[j], t.clients[i])
      && t.clients[i].state == Attached && t.clients[i].device == Some(busid) && t.clients[i].hasHandler
      && t.clients[i].ip == s.clients[i].ip && t.clients[i].id == s.clients[i].id
      && t.entries[j].device.isVirtual == f.inVirtualMode
  {
    assert EntryOk(s.entries[Find(s.entries, busid)]);
    assert ClientOk(s.entries, s.clients[i]);
  }

  /** The first entry with a bus id, or past the end if there is none. */
  predicate IsFirst(entries: seq<Entry>, busid: seq<byte>, j: nat) {
    && j <= |entries| && (j < |entries| ==> entries[j].device.busid == busid)
    && forall k | 0 <= k < j :: entries[k].device.busid != busid
  }

  /** What `urb_handler_init` can fail with. */
  predicate InitCanFail(f: Faults) {
    f.initError.Some? ==> f.initError.value.MutexInit? || f.initError.value.ThreadCreate?
  }

  /**
   * Why an attach fails: the device is not found exactly if it is not listed or not shared, and busy exactly if it
   * is shared but not available; only then the device, memory and the system are asked.
   */
  lemma AttachFailsIff(s: Server, busid: seq<byte>, f: Faults, j: nat)
    requires IsFirst(s.entries, busid, j) && InitCanFail(f)
    ensures
      var error := AttachError(s, busid, f);
      && (error == Some(UsbNotFound) <==> j == |s.entries| || !s.entries[j].isShared)
      && (error == Some(DeviceBusy) <==> j < |s.entries| && s.entries[j].isShared && s.entries[j].state != Available)
      && (error !in {Some(UsbNotFound), Some(DeviceBusy)} <==>
            j < |s.entries| && s.entries[j].isShared && s.entries[j].state == Available)
  {
    assert j == Find(s.entries, busid);
  }

  /** What becomes of an attach to a device that is shared and available. */
  lemma AttachDecidedBy(s: Server, busid: seq<byte>, f: Faults, j: nat)
    requires IsFirst(s.entries, busid, j) && j < |s.entries|
    requires s.entries[j].isShared && s.entries[j].state == Available
    ensures
      var error, d := AttachError(s, busid, f), s.entries[j].device;
      var claimable := d.path != [] && !(d.isClaimed && d.claimedInterface != 0);
      && (d.path == [] ==> error == Some(InvalidParam))
      && (d.path != [] && !claimable ==> error == Some(UsbBusy))
      && (claimable && f.outOfMemory ==> error == Some(OutOfMemory))
      && (claimable && !f.outOfMemory && f.initError.Some? ==> error == f.initError)
      && (claimable && !f.outOfMemory && f.initError == None && f.startFails ==> error == Some(ThreadCreate))
      && (error == None <==> claimable && !f.outOfMemory && f.initError == None && !f.startFails)
  {
    assert j == Find(s.entries, busid);
  }

  /** A new client is refused exactly if 16 are connected; only a refusal leaves the next id unused. */
  lemma AddDecidedBy(s: Server, ip: seq<byte>, outOfMemory: bool)
    ensures
      var (t, error) := Add(s, ip, outOfMemory);
      && (error == Some(Busy) <==> |s.clients| >= 16) && (error == Some(Busy) ==> t == s)
      && (|s.clients| < 16 ==>
            && t.entries == s.entries && t.nextId == (if s.nextId == 0xFFFF_FFFF then 0 else s.nextId + 1)
            && (outOfMemory ==> error == Some(OutOfMemory) && t.clients == s.clients)
            && (!outOfMemory ==>
                  && error == None && t.clients != [] && t.clients[1..] == s.clients
                  && t.clients[0].id == s.nextId && t.clients[0].Idle()
                  && t.clients[0].ip <= ip && (|t.clients[0].ip| == 63 || |t.clients[0].ip| == |ip| < 64)))
  {
  }

  /** Nobody owns a device that is not exported. */
  lemma FreeIsUnowned(s: Server, j: nat)
    requires Inv(s) && j < |s.entries| && s.entries[j].state != Exported
    ensures forall i | 0 <= i < |s.clients| :: s.clients[i].busid != s.entries[j].device.busid
  {
    forall i | 0 <= i < |s.clients| ensures s.clients[i].busid != s.entries[j].device.busid {
      assert ClientOk(s.entries, s.clients[i]);
      assert EntryOk(s.entries[j]);
      FindEntry(s.entries, j);
    }
  }

  /** A client is unaffected by a change of an entry it does not own. */
  lemma ClientStaysOk(entries: seq<Entry>, j: nat, e: Entry, c: Client)
    requires j < |entries| && DistinctBusids(entries) && e.device.busid == entries[j].device.busid
    requires ClientOk(entries, c) && c.busid != e.device.busid
    ensures ClientOk(entries[j := e], c)
  {
    FindAfterUpdate(entries, j, e, c.busid);
  }

  lemma AttachKeepsInv(s: Server, i: nat, busid: seq<byte>, f: Faults)
    requires Inv(s) && i < |s.clients| && s.clients[i].state == Connected && AttachError(s, busid, f) == None
    ensures Inv(Attach(s, i, busid, f))
  {
    AttachSucceeds(s, i, busid, f);
    var j, t := Find(s.entries, busid), Attach(s, i, busid, f);
    FreeIsUnowned(s, j);
    forall k | 0 <= k < |t.clients| ensures ClientOk(t.entries, t.clients[k]) {
      assert ClientOk(s.entries, s.clients[k]);
      if k == i {
        FindAfterUpdate(s.entries, j, t.entries[j], busid);
      } else {
        ClientStaysOk(s.entries, j, t.entries[j], s.clients[k]);
      }
    }
    assert ClientOk(s.entries, s.clients[i]);
    forall k | 0 <= k < |t.entries| && t.entries[k].state == Exported
      ensures Owned(t.clients, t.entries[k].device.busid) {
      OwnedAfterAttach(s, t, i, j, k);
    }
  }

  lemma OwnedAfterAttach(s: Server, t: Server, i: nat, j: nat, k: nat)
    requires AllOwned(s) && i < |s.clients| && j < |s.entries| && k < |s.entries|
    requires |t.entries| == |s.entries| && |t.clients| == |s.clients|
    requires t.entries == s.entries[j := t.entries[j]] && t.clients == s.clients[i := t.clients[i]]
    requires s.clients[i].busid == [] && t.clients[i].busid == t.entries[j].device.busid
    requires s.entries[k].device.busid != []
    requires t.entries[k].state == Exported
    ensures Owned(t.clients, t.entries[k].device.busid)
  {
    if k == j {
      assert t.clients[i].busid == t.entries[k].device.busid;
    } else {
      assert Owned(s.clients, s.entries[k].device.busid);
      var l :| 0 <= l < |s.clients| && s.clients[l].busid == s.entries[k].device.busid;
      assert t.clients[l].busid == t.entries[k].device.busid;
    }
  }

  /**
   * An attach that fails changes no client, no entry's state or sharing, and no device flag. The whole
   * server is as before exactly when the failure came before the claim or no interface number was noted.
   */
  lemma AttachAllOrNothing(s: Server, i: nat, busid: seq<byte>, f: Faults)
    requires Inv(s) && i < |s.clients| && s.clients[i].state == Connected && AttachError(s, busid, f).Some?
    ensures
      var j, t := Find(s.entries, busid), Attach(s, i, busid, f);
      && t.clients == s.clients && t.nextId == s.nextId && |t.entries| == |s.entries|
      && (forall k | 0 <= k < |s.entries| && k != j :: t.entries[k] == s.entries[k])
      && (j < |s.entries| ==>
            t.entries[j] ==
              s.entries[j].(device := s.entries[j].device.(claimedInterface := t.entries[j].device.claimedInterface)))
      && (t == s <==> Refused(s, busid) || s.entries[j].device.claimedInterface == -1)
  {
    var j, t := Find(s.entries, busid), Attach(s, i, busid, f);
    assert ClientOk(s.entries, s.clients[i]);
    assert t.clients == s.clients;
    if j < |s.entries| {
      assert EntryOk(s.entries[j]);
      var d := s.entries[j].device;
      if t == s {
        assert t.entries[j] == s.entries[j];
      } else {
        assert t.entries[j].device == d.(claimedInterface := -1);
      }
      if d.claimedInterface == -1 {
        assert d.Closed() && s.entries[j := s.entries[j]] == s.entries ==> t.entries == s.entries;
      }
    }
  }

  /** The roll-back gives a device its flags back exactly if it was closed, or claimed under an unusable number. */
  lemma RollBackRestoresIff(d: Device)
    ensures
      var r := RolledBack(d);
      r.isOpen == d.isOpen && r.isClaimed == d.isClaimed && r.isVirtual == d.isVirtual
      <==> !d.isOpen && !d.isVirtual && (d.isClaimed ==> !(0 <= d.claimedInterface < 0x100))
  {
  }

  // ---- Detach and remove ----

  /** An entry given back: available, its device closed. */
  function Freed(e: Entry): Entry {
    e.(device := e.device.(isOpen := false, isClaimed := false, isVirtual := false, claimedInterface := -1),
       state := Available, clientId := 0, clientIp := [])
  }

  function MadeIdle(c: Client): Client {
    c.(state := Connected, busid := [], device := None, hasHandler := false)
  }

  lemma DetachFrees(s: Server, i: nat)
    requires Inv(s) && i < |s.clients| && s.clients[i].state == Attached
    ensures
      var j := Find(s.entries, s.clients[i].busid);
      && j < |s.entries| && s.entries[j].state == Exported
      && Detach(s, i) == s.(entries := s.entries[j := Freed(s.entries[j])],
                            clients := s.clients[i := MadeIdle(s.clients[i])])
  {
    var c := s.clients[i];
    assert ClientOk(s.entries, c);
    var j := Find(s.entries, c.busid);
    var given := GiveBack(s, c, true);
    FindAfterUpdate(s.entries, j, given[j], c.busid);
    assert given == s.entries[j := given[j]];
  }

  lemma RemoveFrees(s: Server, i: nat)
    requires Inv(s) && i < |s.clients| && s.clients[i].state == Attached
    ensures
      var j := Find(s.entries, s.clients[i].busid);
      && j < |s.entries|
      && Remove(s, i) == s.(entries := s.entries[j := Freed(s.entries[j])], clients := Without(s.clients, i))
  {
    var c := s.clients[i];
    assert ClientOk(s.entries, c);
    var j := Find(s.entries, c.busid);
    var given := Unexport(s.entries, c.busid);
    FindAfterUpdate(s.entries, j, given[j], c.busid);
    assert given == s.entries[j := given[j]];
  }

  lemma FreedIsOk(e: Entry)
    requires EntryOk(e)
    ensures EntryOk(Freed(e)) && Freed(e).device.busid == e.device.busid
  {
  }

  /** Freeing one client's entry leaves every other client with its own. */
  lemma OthersStayOk(s: Server, t: Server, i: nat, j: nat)
    requires Inv(s) && i < |s.clients| && j < |s.entries| && s.clients[i].busid == s.entries[j].device.busid
    requires t.entries == s.entries[j := Freed(s.entries[j])] && t.clients == s.clients[i := MadeIdle(s.clients[i])]
    ensures forall k | 0 <= k < |t.clients| :: ClientOk(t.entries, t.clients[k])
  {
    assert EntryOk(s.entries[j]);
    forall k | 0 <= k < |t.clients| ensures ClientOk(t.entries, t.clients[k]) {
      assert ClientOk(s.entries, s.clients[k]);
      if k != i {
        ClientStaysOk(s.entries, j, t.entries[j], s.clients[k]);
      }
    }
  }

  lemma OwnersRemain(s: Server, t: Server, i: nat, j: nat)
    requires AllOwned(s) && i < |s.clients| && j < |s.entries| && s.clients[i].busid == s.entries[j].device.busid
    requires DistinctBusids(s.entries)
    requires t.entries == s.entries[j := Freed(s.entries[j])] && t.clients == s.clients[i := MadeIdle(s.clients[i])]
    ensures AllOwned(t)
  {
    forall k | 0 <= k < |t.entries| && t.entries[k].state == Exported
      ensures Owned(t.clients, t.entries[k].device.busid) {
      assert k != j && Owned(s.clients, s.entries[k].device.busid);
      var l :| 0 <= l < |s.clients| && s.clients[l].busid == s.entries[k].device.busid;
      assert t.clients[l].busid == t.entries[k].device.busid;
    }
  }

  lemma DetachKeepsInv(s: Server, i: nat)
    requires Inv(s) && i < |s.clients|
    ensures Inv(Detach(s, i))
  {
    assert ClientOk(s.entries, s.clients[i]);
    if s.clients[i].state == Attached {
      DetachFrees(s, i);
      var j, t := Find(s.entries, s.clients[i].busid), Detach(s, i);
      FreedIsOk(s.entries[j]);
      OthersStayOk(s, t, i, j);
      OwnersRemain(s, t, i, j);
    }
  }

  lemma WithoutAt<T>(q: seq<T>, i: nat, k: nat)
    requires i < |q| && k < |q| && k != i
    ensures if k < i then Without(q, i)[k] == q[k] else Without(q, i)[k - 1] == q[k]
  {
  }

  lemma OwnersWithoutIdle(s: Server, i: nat)
    requires Inv(s) && i < |s.clients| && s.clients[i].busid == []
    ensures AllOwned(s.(clients := Without(s.clients, i)))
  {
    var rest := Without(s.clients, i);
    forall k | 0 <= k < |s.entries| && s.entries[k].state == Exported ensures Owned(rest, s.entries[k].device.busid) {
      assert Owned(s.clients, s.entries[k].device.busid) && EntryOk(s.entries[k]);
      var l :| 0 <= l < |s.clients| && s.clients[l].busid == s.entries[k].device.busid;
      WithoutAt(s.clients, i, l);
      assert rest[if l < i then l else l - 1].busid == s.entries[k].device.busid;
    }
  }

  lemma RemoveIdleKeepsInv(s: Server, i: nat)
    requires Inv(s) && i < |s.clients| && s.clients[i].state == Connected
    ensures Remove(s, i) == s.(clients := Without(s.clients, i)) && Inv(Remove(s, i))
  {
    var t := Remove(s, i);
    assert ClientOk(s.entries, s.clients[i]);
    forall k | 0 <= k < |t.clients| ensures ClientOk(t.entries, t.clients[k]) {
      assert ClientOk(s.entries, s.clients[if k < i then k else k + 1]);
    }
    OwnersWithoutIdle(s, i);
  }

  /** Detaching before removing a client, as the session loop does, ends where removing it alone does. */
  lemma TeardownEquivalence(s: Server, i: nat)
    requires Inv(s) && i < |s.clients|
    ensures Remove(Detach(s, i), i) == Remove(s, i)
  {
    assert ClientOk(s.entries, s.clients[i]);
    if s.clients[i].state == Attached {
      DetachKeepsInv(s, i);
      DetachFrees(s, i);
      RemoveFrees(s, i);
      RemoveIdleKeepsInv(Detach(s, i), i);
      assert Without(Detach(s, i).clients, i) == Without(s.clients, i);
    }
  }

  lemma RemoveKeepsInv(s: Server, i: nat)
    requires Inv(s) && i < |s.clients|
    ensures Inv(Remove(s, i))
  {
    TeardownEquivalence(s, i);
    DetachKeepsInv(s, i);
    assert ClientOk(Detach(s, i).entries, Detach(s, i).clients[i]);
    assert ClientOk(s.entries, s.clients[i]);
    if s.clients[i].state == Attached {
      DetachFrees(s, i);
    }
    RemoveIdleKeepsInv(Detach(s, i), i);
  }

  /** Detaching undoes an attach: only the noted interface number of the device may differ. */
  lemma DetachUndoesAttach(s: Server, i: nat, busid: seq<byte>, f: Faults)
    requires Inv(s) && i < |s.clients| && s.clients[i].state == Connected && AttachError(s, busid, f) == None
    ensures
      var j := Find(s.entries, busid);
      Detach(Attach(s, i, busid, f), i)
      == s.(entries := SetDevice(s.entries, j, s.entries[j].device.(claimedInterface := -1)))
  {
    var j, t := Find(s.entries, busid), Attach(s, i, busid, f);
    AttachSucceeds(s, i, busid, f);
    AttachKeepsInv(s, i, busid, f);
    DetachFrees(t, i);
    FindAfterUpdate(s.entries, j, t.entries[j], busid);
    assert EntryOk(s.entries[j]) && ClientOk(s.entries, s.clients[i]);
    var undone := Detach(t, i);
    assert undone.clients == s.clients;
    assert undone.entries == SetDevice(s.entries, j, s.entries[j].device.(claimedInterface := -1));
  }
}
