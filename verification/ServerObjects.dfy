/**
 * The server's objects, updated in place step by step: list entries with their device and its flags, clients
 * that point to them, and the manager of both lists. Each operation is proved against `Ownership`.
 */
module ServerObjects {
  import opened Bytes
  import opened Config
  import opened Seqs
  import O = Ownership
  import Cli

  /** `device_entry_t` with the `usb_device_t` embedded in it. */
  class Entry {
    const busid: seq<byte>
    const path: seq<byte>
    const descriptor: O.Descriptor
    var isOpen: bool
    var isClaimed: bool
    var isVirtual: bool
    var claimedInterface: int
    var state: O.DeviceState
    var clientId: uint32
    var clientIp: seq<byte>
    var isShared: bool

    /** `create_entry`. */
    constructor (d: O.Device)
      ensures Value() == O.Entry(d, O.Available, 0, [], true)
    {
      busid, path, descriptor := d.busid, d.path, d.descriptor;
      isOpen, isClaimed, isVirtual, claimedInterface := d.isOpen, d.isClaimed, d.isVirtual, d.claimedInterface;
      state, clientId, clientIp, isShared := O.Available, 0, [], true;
    }

    ghost function Device(): O.Device
      reads this
    {
      O.Device(busid, path, descriptor, isOpen, isClaimed, isVirtual, claimedInterface)
    }

    ghost function Value(): O.Entry
      reads this
    {
      O.Entry(Device(), state, clientId, clientIp, isShared)
    }

    /** `usb_open_device`. */
    method Open(inVirtualMode: bool) returns (ok: bool)
      modifies `isOpen, `isVirtual
      ensures ok <==> path != []
      ensures isOpen == (ok || old(isOpen)) && isVirtual == if ok && !old(isOpen) then inVirtualMode else old(isVirtual)
      ensures ok <==> O.Open(old(Device()), inVirtualMode).Some?
      ensures Device() == if ok then O.Open(old(Device()), inVirtualMode).value else old(Device())
    {
      if path == [] {
        return false;
      }
      if isOpen {
        return true;
      }
      isOpen, isVirtual := true, inVirtualMode;
      ok := true;
    }

    /** `usb_claim_interface` for interface 0. */
    method Claim() returns (error: Option<O.Error>)
      modifies `isClaimed, `claimedInterface
      ensures error == Some(O.InvalidParam) <==> !isOpen
      ensures error == None <==> isOpen && (!old(isClaimed) || old(claimedInterface) == 0)
      ensures if error == None then isClaimed && claimedInterface == 0
              else isClaimed == old(isClaimed) && claimedInterface == old(claimedInterface)
      ensures error == O.ClaimError(old(Device())) && Device() == O.Claim(old(Device()))
    {
      if !isOpen {
        return Some(O.InvalidParam);
      }
      if isClaimed {
        return if claimedInterface == 0 then None else Some(O.UsbBusy);
      }
      isClaimed, claimedInterface := true, 0;
      error := None;
    }

    /** `usb_release_interface`. */
    method Release(interface: int)
      modifies `isClaimed, `claimedInterface
      ensures
        var releases := isOpen && old(isClaimed) && old(claimedInterface) == interface % 0x100;
        && isClaimed == (old(isClaimed) && !releases)
        && claimedInterface == if releases then -1 else old(claimedInterface)
      ensures Device() == O.Release(old(Device()), interface)
    {
      if !isOpen || !isClaimed || claimedInterface != interface % 0x100 {
        return;
      }
      isClaimed, claimedInterface := false, -1;
    }

    /** `usb_close_device`. */
    method Close()
      modifies `isOpen, `isVirtual, `isClaimed, `claimedInterface
      ensures !isOpen && isVirtual == (old(isVirtual) && !old(isOpen))
      ensures isClaimed == (old(isClaimed) && !(old(isOpen) && 0 <= old(claimedInterface) < 0x100))
      ensures Device() == O.Close(old(Device()))
    {
      if !isOpen {
        return;
      }
      if isClaimed {
        Release(claimedInterface);
      }
      isOpen, isVirtual := false, false;
    }

    /** `device_list_export` once the entry has been looked up. */
    method Export(clientId: uint32, clientIp: seq<byte>) returns (ok: bool)
      modifies `state, `clientId, `clientIp
      ensures ok <==> old(state) == O.Available
      ensures Value() == if !ok then old(Value())
                         else old(Value()).(state := O.Exported, clientId := clientId,
                                            clientIp := Truncate(clientIp, IP_MAX))
    {
      ok := state == O.Available;
      if ok {
        state, this.clientId, this.clientIp := O.Exported, clientId, Truncate(clientIp, IP_MAX);
      }
    }

    /** `device_list_unexport` once the entry has been looked up. */
    method Unexport()
      modifies `state, `clientId, `clientIp
      ensures Value() == old(Value()).(state := O.Available, clientId := 0, clientIp := [])
    {
      state, clientId, clientIp := O.Available, 0, [];
    }
  }

  /** `client_connection_t`. */
  class Client {
    const id: uint32
    const ip: seq<byte>
    var state: O.ClientState
    var busid: seq<byte>
    var device: Entry?
    var hasHandler: bool

    /** `create_client`. */
    constructor (id: uint32, ip: seq<byte>)
      ensures Value() == O.Client(id, Truncate(ip, IP_MAX), O.Connected, [], None, false)
    {
      this.id, this.ip, state, busid, device, hasHandler := id, Truncate(ip, IP_MAX), O.Connected, [], null, false;
    }

    ghost function Value(): O.Client
      reads this
    {
      O.Client(id, ip, state, busid, if device == null then None else Some(device.busid), hasHandler)
    }
  }

  /** The error of the part of an attach that uses the device. */
  function AcquireError(d: O.Device, f: O.Faults): Option<O.Error> {
    if d.path == [] then Some(O.InvalidParam)
    else if O.ClaimedOtherwise(d) then Some(O.UsbBusy)
    else if f.outOfMemory then Some(O.OutOfMemory)
    else if f.initError.Some? then f.initError
    else if f.startFails then Some(O.ThreadCreate)
    else None
  }

  function AcquiredDevice(d: O.Device, f: O.Faults): O.Device {
    if d.path == [] then d
    else if AcquireError(d, f) == None then
      d.(isOpen := true, isVirtual := if d.isOpen then d.isVirtual else f.inVirtualMode,
         isClaimed := true, claimedInterface := 0)
    else O.RolledBack(d)
  }

  /** The part of `client_attach_device` that opens, claims, creates, initialises and starts, with its roll-backs. */
  method Acquire(entry: Entry, client: Client, f: O.Faults) returns (error: Option<O.Error>)
    modifies entry`isOpen, entry`isVirtual, entry`isClaimed, entry`claimedInterface, client`hasHandler
    ensures error == AcquireError(old(entry.Device()), f)
    ensures entry.Device() == AcquiredDevice(old(entry.Device()), f)
    ensures client.hasHandler ==
      if entry.path == [] || O.ClaimedOtherwise(old(entry.Device())) then old(client.hasHandler) else error == None
  {
    var ok := entry.Open(f.inVirtualMode);
    if !ok {
      return Some(O.InvalidParam);
    }
    error := entry.Claim();
    if error.Some? {
      entry.Close();
      return error;
    }
    client.hasHandler := !f.outOfMemory;
    if f.outOfMemory {
      entry.Release(0);
      entry.Close();
      return Some(O.OutOfMemory);
    }
    if f.initError.Some? {
      client.hasHandler := false;
      entry.Release(0);
      entry.Close();
      return f.initError;
    }
    if f.startFails {
      client.hasHandler := false;
      entry.Release(0);
      entry.Close();
      return Some(O.ThreadCreate);
    }
    error := None;
  }

  /** What an attach that gets past the checks makes of the entry and of the client. */
  function AttachedEntry(e: O.Entry, c: O.Client, f: O.Faults): O.Entry {
    if AcquireError(e.device, f) == None then O.ExportTo(e, c, f.inVirtualMode)
    else e.(device := AcquiredDevice(e.device, f))
  }

  function AttachedClient(e: O.Entry, c: O.Client, busid: seq<byte>, f: O.Faults): O.Client {
    if AcquireError(e.device, f) == None then
      c.(state := O.Attached, busid := Truncate(busid, BUSID_MAX), device := Some(busid), hasHandler := true)
    else if e.device.path == [] || O.ClaimedOtherwise(e.device) then c
    else c.(hasHandler := false)
  }

  lemma AttachByParts(s: O.Server, i: nat, busid: seq<byte>, f: O.Faults)
    requires i < |s.clients|
    requires
      var j := O.Find(s.entries, busid);
      j < |s.entries| && s.entries[j].isShared && s.entries[j].state == O.Available
    ensures
      var j, c := O.Find(s.entries, busid), s.clients[i];
      var e := s.entries[j];
      && O.AttachError(s, busid, f) == AcquireError(e.device, f)
      && O.Attach(s, i, busid, f)
         == s.(entries := s.entries[j := AttachedEntry(e, c, f)],
               clients := s.clients[i := AttachedClient(e, c, busid, f)])
  {
    var j := O.Find(s.entries, busid);
    assert s.clients[i := s.clients[i]] == s.clients && s.entries[j := s.entries[j]] == s.entries;
  }

  /** The part of an attach after the checks; the ignored result of the export is always success. */
  method Take(entry: Entry, client: Client, f: O.Faults) returns (error: Option<O.Error>)
    requires entry.state == O.Available
    modifies client, entry
    ensures error == AcquireError(old(entry.Device()), f)
    ensures entry.Value() == AttachedEntry(old(entry.Value()), old(client.Value()), f)
    ensures client.Value() == AttachedClient(old(entry.Value()), old(client.Value()), entry.busid, f)
    ensures client.device == if error == None then entry else old(client.device)
  {
    error := Acquire(entry, client, f);
    if error == None {
      client.device, client.busid, client.state := entry, Truncate(entry.busid, BUSID_MAX), O.Attached;
      var exported := entry.Export(client.id, client.ip);
      assert exported;
    }
  }

  function Unexported(s: O.Server, busid: seq<byte>): O.Server {
    s.(entries := O.Unexport(s.entries, busid))
  }

  function DeviceClosed(s: O.Server, j: nat, release: bool): O.Server
    requires j < |s.entries|
  {
    var d := s.entries[j].device;
    s.(entries := O.SetDevice(s.entries, j, O.Close(if release then O.Release(d, 0) else d)))
  }

  function Settled(s: O.Server, i: nat): O.Server
    requires i < |s.clients|
  {
    s.(clients := s.clients[i := s.clients[i].(state := O.Connected, busid := [], device := None, hasHandler := false)])
  }

  function Surrendered(s: O.Server, c: O.Client): O.Server {
    var t := if c.busid == [] then s else Unexported(s, c.busid);
    t.(entries := O.GiveBack(t, c, false))
  }

  lemma RemoveByParts(s: O.Server, i: nat)
    requires i < |s.clients|
    ensures O.Remove(s, i) == Surrendered(s.(clients := Without(s.clients, i)), s.clients[i])
  {
  }

  class Manager {
    var entries: seq<Entry>
    var clients: seq<Client>
    var clientCount: int
    var nextClientId: uint32

    /** The objects hold these lists; bus ids are distinct, and device pointers lead into the device list. */
    ghost predicate Represents(s: O.Server)
      reads this, entries, clients
    {
      && |entries| == |s.entries| && (forall j | 0 <= j < |entries| :: entries[j].Value() == s.entries[j])
      && |clients| == |s.clients| && (forall i | 0 <= i < |clients| :: clients[i].Value() == s.clients[i])
      && clientCount == |clients| && nextClientId == s.nextId
      && (forall j, k | 0 <= j < k < |entries| :: entries[j].busid != entries[k].busid)
      && (forall i, k | 0 <= i < k < |clients| :: clients[i] != clients[k])
      && (forall i | 0 <= i < |clients| :: clients[i].device == null || clients[i].device in entries)
    }

    constructor (entries: seq<Entry>)
      ensures this.entries == entries && clients == [] && clientCount == 0 && nextClientId == 1
    {
      this.entries, clients, clientCount, nextClientId := entries, [], 0, 1;
    }

    /** `device_list_find`. */
    method FindEntry(busid: seq<byte>) returns (entry: Entry?, ghost j: nat)
      ensures j <= |entries| && forall l | 0 <= l < j :: entries[l].busid != busid
      ensures if j < |entries| then entry == entries[j] && entries[j].busid == busid else entry == null
    {
      var k: nat := 0;
      while k < |entries|
        invariant k <= |entries| && forall l | 0 <= l < k :: entries[l].busid != busid
      {
        if entries[k].busid == busid {
          return entries[k], k;
        }
        k := k + 1;
      }
      return null, k;
    }

    /** The entry the walk stops at is the one the list's model finds. */
    lemma FoundEntry(s: O.Server, busid: seq<byte>, j: nat)
      requires Represents(s) && j <= |entries| && (forall l | 0 <= l < j :: entries[l].busid != busid)
      requires j < |entries| ==> entries[j].busid == busid
      ensures j == O.Find(s.entries, busid)
    {
      var k := O.Find(s.entries, busid);
      if k < |entries| {
        assert entries[k].Value() == s.entries[k];
      }
      if j < |entries| {
        assert entries[j].Value() == s.entries[j];
      }
    }

    /** `client_attach_device` for an entry that passed its checks. */
    method TakeEntry(entry: Entry, client: Client, f: O.Faults, ghost s: O.Server, ghost i: nat, ghost j: nat)
      returns (error: Option<O.Error>, ghost t: O.Server)
      requires Represents(s) && i < |clients| && clients[i] == client && j < |entries| && entries[j] == entry
      requires j == O.Find(s.entries, entry.busid) && entry.state == O.Available && entry.isShared
      modifies client, entry
      ensures error == O.AttachError(s, entry.busid, f) && t == O.Attach(s, i, entry.busid, f)
      ensures Represents(t)
    {
      assert entry.Value() == s.entries[j] && client.Value() == s.clients[i];
      AttachByParts(s, i, entry.busid, f);
      error := Take(entry, client, f);
      t := O.Attach(s, i, entry.busid, f);
      forall k | 0 <= k < |entries| ensures entries[k].Value() == t.entries[k] {
        assert k != j ==> t.entries[k] == s.entries[k] && entries[k].busid != entry.busid;
      }
      forall k | 0 <= k < |clients| ensures clients[k].Value() == t.clients[k] {
        assert k != i ==> t.clients[k] == s.clients[k];
      }
    }

    /** `client_attach_device`. */
    method AttachDevice(client: Client, busid: seq<byte>, f: O.Faults, ghost s: O.Server, ghost i: nat)
      returns (error: Option<O.Error>, ghost t: O.Server)
      requires Represents(s) && i < |clients| && clients[i] == client
      modifies client, entries
      ensures error == O.AttachError(s, busid, f) && t == O.Attach(s, i, busid, f)
      ensures Represents(t)
    {
      var entry;
      ghost var j;
      entry, j := FindEntry(busid);
      FoundEntry(s, busid, j);
      if entry == null || !entry.isShared {
        return Some(O.UsbNotFound), s;
      }
      if entry.state != O.Available {
        return Some(O.DeviceBusy), s;
      }
      error, t := TakeEntry(entry, client, f, s, i, j);
    }

    /** `device_list_unexport`. */
    method UnexportEntry(busid: seq<byte>, ghost s: O.Server) returns (ghost t: O.Server)
      requires Represents(s)
      modifies entries
      ensures t == Unexported(s, busid)
      ensures Represents(t)
    {
      var entry;
      ghost var j;
      entry, j := FindEntry(busid);
      FoundEntry(s, busid, j);
      t := Unexported(s, busid);
      if entry != null {
        assert entry.Value() == s.entries[j];
        entry.Unexport();
      }
    }

    /** Where in the list a device pointer leads. */
    lemma PointedTo(s: O.Server, client: Client, i: nat) returns (j: nat)
      requires Represents(s) && i < |clients| && clients[i] == client && client.device != null
      ensures j < |entries| && entries[j] == client.device && j == O.DeviceOf(s, s.clients[i])
    {
      assert client.Value() == s.clients[i];
      j :| 0 <= j < |entries| && entries[j] == client.device;
      FoundEntry(s, client.device.busid, j);
    }

    /** Closing the device a pointer leads to, if asked after releasing interface 0. */
    method CloseDevice(device: Entry, release: bool, ghost s: O.Server, ghost j: nat) returns (ghost t: O.Server)
      requires Represents(s) && j < |entries| && entries[j] == device
      modifies device
      ensures t == DeviceClosed(s, j, release)
      ensures Represents(t)
    {
      assert device.Value() == s.entries[j];
      t := DeviceClosed(s, j, release);
      if release {
        device.Release(0);
      }
      device.Close();
      forall k | 0 <= k < |entries| ensures entries[k].Value() == t.entries[k] {
        if k != j {
          assert t.entries[k] == s.entries[k];
        }
      }
    }

    /** The client's fields at the end of a detach. */
    method Settle(client: Client, ghost s: O.Server, ghost i: nat) returns (ghost t: O.Server)
      requires Represents(s) && i < |clients| && clients[i] == client
      modifies client
      ensures t == Settled(s, i)
      ensures Represents(t)
    {
      assert client.Value() == s.clients[i];
      client.hasHandler, client.device, client.busid, client.state := false, null, [], O.Connected;
      t := Settled(s, i);
      forall k | 0 <= k < |clients| ensures clients[k].Value() == t.clients[k] {
        if k != i {
          assert t.clients[k] == s.clients[k];
        }
      }
    }

    /** `client_detach_device`. */
    method DetachDevice(client: Client, ghost s: O.Server, ghost i: nat) returns (ghost t: O.Server)
      requires Represents(s) && i < |clients| && clients[i] == client
      modifies client, entries
      ensures t == O.Detach(s, i)
      ensures Represents(t)
    {
      assert client.Value() == s.clients[i];
      if client.busid == [] {
        return s;
      }
      t := s;
      if client.device != null {
        ghost var j := PointedTo(s, client, i);
        t := CloseDevice(client.device, true, s, j);
      }
      t := UnexportEntry(client.busid, t);
      t := Settle(client, t, i);
    }

    /** Taking a client out of the list. */
    method Unlink(k: nat, ghost s: O.Server) returns (ghost t: O.Server)
      requires Represents(s) && k < |clients|
      modifies `clients, `clientCount
      ensures t == s.(clients := Without(s.clients, k)) && clients == Without(old(clients), k)
      ensures Represents(t)
    {
      clients, clientCount := Without(clients, k), clientCount - 1;
      t := s.(clients := Without(s.clients, k));
    }

    /** The device of a client that has left the list is unexported, and closed when the client is freed. */
    method Surrender(client: Client, ghost s: O.Server, ghost j: nat) returns (ghost t: O.Server)
      requires Represents(s) && (client.device != null ==> j < |entries| && entries[j] == client.device)
      modifies entries
      ensures t == Surrendered(s, old(client.Value()))
      ensures Represents(t)
    {
      t := s;
      if client.busid != [] {
        t := UnexportEntry(client.busid, t);
      }
      if client.device != null {
        FoundEntry(t, client.device.busid, j);
        t := CloseDevice(client.device, false, t, j);
      }
    }

    /** `client_manager_remove` with `free_client`. */
    method RemoveClient(client: Client, ghost s: O.Server)
      returns (error: Option<O.Error>, ghost i: nat, ghost t: O.Server)
      requires Represents(s)
      modifies `clients, `clientCount, entries
      ensures i <= |old(clients)| && (i < |old(clients)| ==> old(clients)[i] == client)
      ensures if i == |old(clients)| then error == Some(O.NotFound) && client !in old(clients) && t == s
              else error == None && t == O.Remove(s, i)
      ensures clients == if i == |old(clients)| then old(clients) else Without(old(clients), i)
      ensures Represents(t)
    {
      var k: nat := 0;
      while k < |clients| && clients[k] != client
        invariant k <= |clients| && client !in clients[..k]
      {
        k := k + 1;
      }
      i, t := k, s;
      if k == |clients| {
        return Some(O.NotFound), i, t;
      }
      assert client.Value() == s.clients[k];
      ghost var j: nat := 0;
      if client.device != null {
        j := PointedTo(s, client, k);
      }
      RemoveByParts(s, k);
      t := Unlink(k, s);
      t := Surrender(client, t, j);
      error := None;
    }

    /** `client_manager_add`, without another thread between the check and the lock. */
    method AddClient(ip: seq<byte>, outOfMemory: bool, ghost s: O.Server)
      returns (error: Option<O.Error>, client: Client?, ghost t: O.Server)
      requires Represents(s)
      modifies `clients, `clientCount, `nextClientId
      ensures (t, error) == O.Add(s, ip, outOfMemory)
      ensures if error == None then client != null && fresh(client) && clients == [client] + old(clients)
              else client == null
      ensures Represents(t)
    {
      client, t := null, O.Add(s, ip, outOfMemory).0;
      if clientCount >= MAX_CLIENTS {
        return Some(O.Busy), null, t;
      }
      var id := nextClientId;
      nextClientId := (nextClientId + 1) % 0x1_0000_0000;
      if outOfMemory {
        return Some(O.OutOfMemory), null, t;
      }
      client := new Client(id, ip);
      clients, clientCount := [client] + clients, clientCount + 1;
      error := None;
    }

    /** `client_manager_disconnect_all`. */
    method DisconnectAll(ghost s: O.Server) returns (ghost t: O.Server)
      requires Represents(s)
      modifies `clients, `clientCount, entries
      ensures t == O.DisconnectAll(s)
      ensures Represents(t) && clients == []
    {
      t := s;
      while clients != []
        invariant Represents(t) && O.DisconnectAll(t) == O.DisconnectAll(s)
        decreases |clients|
      {
        var error;
        ghost var i;
        error, i, t := RemoveClient(clients[0], t);
      }
    }

    /** `client_handle_import`; false ends the client's session. */
    method HandleImport(client: Client, busid: seq<byte>, f: O.Faults, headerSent: bool, deviceSent: bool,
                        ghost s: O.Server, ghost i: nat)
      returns (goOn: bool, ghost t: O.Server)
      requires Represents(s) && i < |clients| && clients[i] == client
      modifies client, entries
      ensures goOn <==> O.AttachError(s, busid, f) == None && headerSent && deviceSent
      ensures (t, goOn) == Cli.HandleImport(s, i, busid, f, headerSent, deviceSent)
      ensures Represents(t)
    {
      var error;
      error, t := AttachDevice(client, busid, f, s, i);
      if !headerSent {
        return false, t;
      }
      if error == None && !deviceSent {
        t := DetachDevice(client, t, i);
        return false, t;
      }
      goOn := error == None;
    }
  }
}
