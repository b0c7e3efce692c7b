/** Connecting to and disconnecting from remote devices (client/remote_device.c), and the ports they occupy. */
module RemoteDevices {
  import opened Bytes
  import opened Config
  import opened Seqs
  import Auth
  import I = Import
  import O = Ownership
  import V = Vhci

  datatype Error = OutOfMemory | SocketConnect | AuthInvalid | SocketSend | SocketRecv | DeviceBusy | UsbNotFound
                 | NoFreePort | Port(error: V.Error)

  /** A listed device; the port is -1 when it was connected without a virtual host controller. */
  datatype Remote = Remote(serverIp: seq<byte>, serverPort: uint16, busid: seq<byte>, info: V.Info, port: int)

  datatype State = State(devices: seq<Remote>, table: seq<V.Port>)

  datatype Target = Target(serverIp: seq<byte>, serverPort: uint16, busid: seq<byte>, useVhci: bool)

  /** What happens on the way: the outcome of each fallible step, and the server's answer. */
  datatype Network = Network(created: bool, reached: bool, auth: Auth.ClientResult, headerSent: bool, busidSent: bool,
                             headerReceived: bool, status: uint32, infoReceived: bool, info: V.Info)

  /** The error of the steps up to and including the import, in order. */
  function ImportError(net: Network): Option<Error> {
    if !net.created then Some(OutOfMemory)
    else if !net.reached then Some(SocketConnect)
    else if net.auth.InvalidParam? then Some(AuthInvalid)
    else if net.auth.SendError? then Some(SocketSend)
    else if !net.headerSent || !net.busidSent then Some(SocketSend)
    else if !net.headerReceived then Some(SocketRecv)
    else if net.status != 0 then Some(if net.status == 2 then DeviceBusy else UsbNotFound)
    else if !net.infoReceived then Some(SocketRecv)
    else None
  }

  function ConnectError(s: State, target: Target, net: Network, driver: V.Driver): Option<Error> {
    if ImportError(net).Some? then ImportError(net)
    else if !target.useVhci then None
    else if V.FirstFree(s.table) == |s.table| then Some(NoFreePort)
    else
      var e := V.AttachError(s.table, V.FirstFree(s.table), driver);
      if e.Some? then Some(Port(e.value)) else None
  }

  function NewRemote(s: State, target: Target, info: V.Info): Remote {
    Remote(Truncate(target.serverIp, IP_MAX), target.serverPort, Truncate(target.busid, BUSID_MAX), info,
           if target.useVhci then V.FirstFree(s.table) else -1)
  }

  /** The table after `vhci_attach` on the first free port. */
  function Plugged(s: State, target: Target, net: Network, driver: V.Driver): seq<V.Port> {
    V.Attach(s.table, V.FirstFree(s.table), net.info, target.serverIp, target.serverPort, driver)
  }

  /** `remote_device_connect`. */
  function Connect(s: State, target: Target, net: Network, driver: V.Driver): State {
    var error := ConnectError(s, target, net, driver);
    if error == None then
      State([NewRemote(s, target, net.info)] + s.devices,
            if target.useVhci then Plugged(s, target, net, driver) else s.table)
    else if error.value.Port? then s.(table := V.Detach(Plugged(s, target, net, driver), V.FirstFree(s.table)))
    else s
  }

  /** `remote_device_disconnect` for the device at position i. */
  function Disconnect(s: State, i: nat): State
    requires i < |s.devices|
  {
    State(Without(s.devices, i), V.Detach(s.table, s.devices[i].port))
  }

  /** `remote_device_disconnect_all`. */
  function DisconnectAll(s: State): State
    decreases |s.devices|
  {
    if s.devices == [] then s else DisconnectAll(Disconnect(s, 0))
  }

  /** How often the device's socket is closed on the way to an error. */
  function Closes(net: Network): nat {
    if !net.created || !net.reached then 0 else if !net.auth.Presented? then 2 else 1
  }

  /**
   * A failing import closes the socket exactly if it was opened, and then twice exactly if the handshake could not
   * be presented, otherwise once.
   */
  lemma ClosedOnceIff(net: Network)
    requires ImportError(net).Some?
    ensures Closes(net) > 0 <==> !ImportError(net).value.OutOfMemory? && !ImportError(net).value.SocketConnect?
    ensures Closes(net) <= 2 && (Closes(net) == 2 <==> net.created && net.reached && !net.auth.Presented?)
  {
  }

  // ---- What a connect learns and notes ----

  /** The request went out, and the client reads what the server answers to it. */
  predicate Asked(net: Network) {
    net.created && net.reached && net.auth.Presented? && net.headerSent && net.busidSent
  }

  /** What is received is what this stream holds: 8 bytes with the status in the last four, then 312 of a record. */
  predicate Answers(net: Network, stream: seq<byte>) {
    && (net.headerReceived <==> |stream| >= 8) && (net.headerReceived ==> Big32(stream, 4, net.status))
    && (net.infoReceived <==> |stream| >= 320)
  }

  /** The client's error is what the reply says, and a lost connection for a reply that is cut off. */
  lemma ImportErrorIsRead(net: Network, stream: seq<byte>)
    requires Asked(net) && Answers(net, stream)
    ensures
      match I.Read(stream)
      case Incomplete => ImportError(net) == Some(SocketRecv)
      case Busy => ImportError(net) == Some(DeviceBusy)
      case NotFound => ImportError(net) == Some(UsbNotFound)
      case Imported(_, _) => ImportError(net) == None
  {
    I.ReplyRead(stream);
  }

  /** Before the request is out, the first step that fails gives the error. */
  lemma ErrorBeforeAsking(net: Network)
    ensures Asked(net) <==>
      ImportError(net) !in {Some(OutOfMemory), Some(SocketConnect), Some(AuthInvalid), Some(SocketSend)}
    ensures ImportError(net) == Some(OutOfMemory) <==> !net.created
    ensures ImportError(net) == Some(SocketConnect) <==> net.created && !net.reached
    ensures ImportError(net) == Some(AuthInvalid) <==> net.created && net.reached && net.auth.InvalidParam?
  {
  }

  /**
   * From one end to the other: a client whose request a server answers in full is told "busy" exactly if the device
   * it named is shared there but not available, and gets it exactly if the server has attached it.
   */
  lemma AnswerToAttach(s: O.Server, i: nat, busid: seq<byte>, f: O.Faults, d: O.Device, net: Network)
    requires i < |s.clients| && Asked(net) && Answers(net, I.Reply(O.AttachError(s, busid, f), d))
    ensures
      var error := O.AttachError(s, busid, f);
      && (ImportError(net) == None <==> error == None)
      && (ImportError(net) == Some(DeviceBusy) <==> error == Some(O.DeviceBusy))
      && (ImportError(net) == Some(UsbNotFound) <==> error.Some? && error != Some(O.DeviceBusy))
  {
    ImportErrorIsRead(net, I.Reply(O.AttachError(s, busid, f), d));
    I.ReplyAlone(O.AttachError(s, busid, f), d);
  }

  /**
   * The device that a successful connect lists, first: what it is, where it comes from, and the lowest free port,
   * which is then occupied and told all that; without a port the table stays as it is.
   */
  lemma ConnectNotes(s: State, target: Target, net: Network, driver: V.Driver)
    requires ConnectError(s, target, net, driver) == None
    ensures
      var t := Connect(s, target, net, driver);
      && t.devices != [] && t.devices[1..] == s.devices
      && var d := t.devices[0];
         && d.serverIp == Truncate(target.serverIp, 64) && d.serverPort == target.serverPort
         && d.busid == Truncate(target.busid, 32) && d.info == net.info
         && (!target.useVhci ==> d.port == -1 && t.table == s.table)
         && (target.useVhci ==>
               && 0 <= d.port < |s.table| && s.table[d.port].state == V.Free
               && (forall k | 0 <= k < d.port :: s.table[k].state != V.Free)
               && |t.table| == |s.table| && t.table == s.table[d.port := t.table[d.port]]
               && t.table[d.port].state == V.Occupied
               && V.Knows(t.table[d.port], net.info, target.serverIp, target.serverPort))
  {
    var port := V.FirstFree(s.table);
    V.AttachDecidedBy(s.table, port, net.info, target.serverIp, target.serverPort, driver);
  }

  // ---- The code ----

  class DeviceList {
    var devices: seq<Remote>
    var count: int

    ghost predicate Represents(s: State, controller: V.Controller)
      reads this, controller.ports
    {
      devices == s.devices && count == |devices| && controller.ports[..] == s.table
    }

    constructor ()
      ensures devices == [] && count == 0
    {
      devices, count := [], 0;
    }

    /** `free_remote_device`; the number of sockets it closes. */
    method FreeDevice(socketOpen: bool, port: int, controller: V.Controller) returns (closes: nat)
      modifies controller.ports
      ensures closes == if socketOpen then 1 else 0
      ensures controller.ports[..] == V.Detach(old(controller.ports[..]), port)
    {
      closes := if socketOpen then 1 else 0;
      if port >= 0 {
        controller.DetachPort(port);
      }
    }

    /** The exchange with the server up to the import reply; a failure frees the device, which has no port yet. */
    method Import(net: Network, controller: V.Controller) returns (error: Option<Error>, closes: nat)
      modifies controller.ports
      ensures error == ImportError(net) && controller.ports[..] == old(controller.ports[..])
      ensures closes == if error == None then 0 else Closes(net)
    {
      closes := 0;
      if !net.created {
        return Some(OutOfMemory), 0;
      }
      if !net.reached {
        closes := FreeDevice(false, -1, controller);
        return Some(SocketConnect), closes;
      }
      if !net.auth.Presented? {
        // the socket is closed here and, being still marked valid, once more below
        closes := FreeDevice(true, -1, controller);
        return Some(if net.auth.InvalidParam? then AuthInvalid else SocketSend), closes + 1;
      }
      if !net.headerSent || !net.busidSent {
        closes := FreeDevice(true, -1, controller);
        return Some(SocketSend), closes;
      }
      if !net.headerReceived {
        closes := FreeDevice(true, -1, controller);
        return Some(SocketRecv), closes;
      }
      if net.status != 0 {
        closes := FreeDevice(true, -1, controller);
        return Some(if net.status == 2 then DeviceBusy else UsbNotFound), closes;
      }
      if !net.infoReceived {
        closes := FreeDevice(true, -1, controller);
        return Some(SocketRecv), closes;
      }
      error := None;
    }

    /** `remote_device_connect`. */
    method ConnectDevice(target: Target, net: Network, accepts: bool, controller: V.Controller, ghost s: State)
      returns (error: Option<Error>, closes: nat)
      requires Represents(s, controller)
      modifies this, controller.ports
      ensures error == ConnectError(s, target, net, V.Driver(controller.hasDriver, accepts))
      ensures Represents(Connect(s, target, net, V.Driver(controller.hasDriver, accepts)), controller)
      ensures closes == if error == None then 0 else Closes(net)
    {
      error, closes := Import(net, controller);
      if error.Some? {
        return;
      }
      var port := -1;
      if target.useVhci {
        port := controller.FindFreePort();
        if port < 0 {
          closes := FreeDevice(true, port, controller);
          return Some(NoFreePort), closes;
        }
        var failed := controller.AttachPort(port, net.info, target.serverIp, target.serverPort, accepts);
        if failed.Some? {
          closes := FreeDevice(true, port, controller);
          return Some(Port(failed.value)), closes;
        }
      }
      var device := Remote(Truncate(target.serverIp, IP_MAX), target.serverPort, Truncate(target.busid, BUSID_MAX),
                           net.info, port);
      devices, count := [device] + devices, count + 1;
    }

    /**
     * `remote_device_disconnect` for the device at position i of the list; a position outside stands for a
     * device that is not listed, which is reported and changes nothing.
     */
    method DisconnectAt(i: nat, controller: V.Controller, ghost s: State) returns (found: bool)
      requires Represents(s, controller)
      modifies this, controller.ports
      ensures found <==> i < |s.devices|
      ensures Represents(if i < |s.devices| then Disconnect(s, i) else s, controller)
    {
      found := i < |devices|;
      if !found {
        return;
      }
      var device := devices[i];
      devices, count := Without(devices, i), count - 1;
      var _ := FreeDevice(true, device.port, controller);
    }

    /** `remote_device_disconnect_all`. */
    method DisconnectEach(controller: V.Controller, ghost s: State)
      requires Represents(s, controller)
      modifies this, controller.ports
      ensures Represents(DisconnectAll(s), controller)
    {
      ghost var t := s;
      while |devices| > 0
        invariant Represents(t, controller) && DisconnectAll(t) == DisconnectAll(s)
        decreases |devices|
      {
        var _ := DisconnectAt(0, controller, t);
        t := Disconnect(t, 0);
      }
    }
  }

  // ---- What a connect and a disconnect do ----

  /** A listed device holds a port of its own: occupied, and told what the device is. */
  predicate Holds(table: seq<V.Port>, d: Remote) {
    && 0 <= d.port < |table|
    && table[d.port].state == V.Occupied && table[d.port].number == d.port
    && V.Knows(table[d.port], d.info, d.serverIp, d.serverPort)
  }

  predicate DistinctPorts(devices: seq<Remote>) {
    forall i, k | 0 <= i < k < |devices| :: devices[i].port == -1 || devices[i].port != devices[k].port
  }

  predicate Used(devices: seq<Remote>, port: int) {
    exists i | 0 <= i < |devices| :: devices[i].port == port
  }

  /**
   * Ports and listed devices are in bijection: every device that has a port occupies it alone, and every
   * port is either cleared and free or occupied by a listed device.
   */
  predicate Inv(s: State) {
    && |s.table| == MAX_PORTS
    && (forall p | 0 <= p < |s.table| ::
          if Used(s.devices, p) then s.table[p].state == V.Occupied else s.table[p] == V.Cleared(p))
    && (forall i | 0 <= i < |s.devices| ::
          |s.devices[i].serverIp| < IP_MAX && (s.devices[i].port == -1 || Holds(s.table, s.devices[i])))
    && DistinctPorts(s.devices)
  }

  /** A connect that fails leaves the list and all ports as they were. */
  lemma FailedConnectChangesNothing(s: State, target: Target, net: Network, driver: V.Driver)
    requires Inv(s) && ConnectError(s, target, net, driver).Some?
    ensures Connect(s, target, net, driver) == s
  {
    var p := V.FirstFree(s.table);
    if p < |s.table| && V.AttachError(s.table, p, driver).Some? {
      assert s.table[p] == V.Cleared(p);
      V.DetachUndoesFailedAttachIff(s.table, p, net.info, target.serverIp, target.serverPort, driver);
    }
  }

  lemma ConnectKeepsInv(s: State, target: Target, net: Network, driver: V.Driver)
    requires Inv(s)
    ensures Inv(Connect(s, target, net, driver))
  {
    var t := Connect(s, target, net, driver);
    if ConnectError(s, target, net, driver).Some? {
      FailedConnectChangesNothing(s, target, net, driver);
    } else {
      ConnectNotes(s, target, net, driver);
      if target.useVhci {
        var p := V.FirstFree(s.table);
        assert s.table[p] == V.Cleared(p) && t.devices[0].port == p;
        assert t.table == s.table[p := t.table[p]];
        NewPortKeepsOthers(s, t, p);
      } else {
        PortlessKeepsInv(s, t);
      }
    }
  }

  lemma PortlessKeepsInv(s: State, t: State)
    requires Inv(s) && t.table == s.table && t.devices != [] && t.devices[1..] == s.devices
    requires t.devices[0].port == -1 && |t.devices[0].serverIp| < IP_MAX
    ensures Inv(t)
  {
    assert forall i | 0 <= i < |s.devices| :: t.devices[i + 1] == s.devices[i];
    forall q | 0 <= q < |t.table| ensures Used(t.devices, q) <==> Used(s.devices, q) {
      UsedAfterPrepend(s.devices, t.devices, q);
    }
  }

  lemma UsedAfterPrepend(devices: seq<Remote>, more: seq<Remote>, p: int)
    requires more != [] && more[1..] == devices
    ensures Used(more, p) <==> more[0].port == p || Used(devices, p)
  {
    if Used(devices, p) {
      var i :| 0 <= i < |devices| && devices[i].port == p;
      assert more[i + 1].port == p;
    }
    if Used(more, p) && more[0].port != p {
      var i :| 0 <= i < |more| && more[i].port == p;
      assert devices[i - 1].port == p;
    }
  }

  lemma NewPortKeepsOthers(s: State, t: State, p: nat)
    requires Inv(s) && p < |s.table| && s.table[p].state == V.Free
    requires t.devices != [] && t.devices[1..] == s.devices && t.devices[0].port == p
    requires |t.devices[0].serverIp| < IP_MAX
    requires |t.table| == |s.table| && t.table == s.table[p := t.table[p]] && Holds(t.table, t.devices[0])
    ensures Inv(t)
  {
    assert forall i | 0 <= i < |s.devices| :: t.devices[i + 1] == s.devices[i] && s.devices[i].port != p;
    forall q | 0 <= q < |t.table|
      ensures if Used(t.devices, q) then t.table[q].state == V.Occupied else t.table[q] == V.Cleared(q)
    {
      UsedAfterPrepend(s.devices, t.devices, q);
    }
    forall i | 0 <= i < |t.devices|
      ensures |t.devices[i].serverIp| < IP_MAX && (t.devices[i].port == -1 || Holds(t.table, t.devices[i]))
    {
      assert i > 0 ==> t.devices[i] == s.devices[i - 1];
    }
  }

  lemma DisconnectKeepsInv(s: State, i: nat)
    requires Inv(s) && i < |s.devices|
    ensures Inv(Disconnect(s, i))
  {
    var t, gone := Disconnect(s, i), s.devices[i];
    assert forall k | 0 <= k < |t.devices| :: t.devices[k] == s.devices[if k < i then k else k + 1];
    assert gone.port >= 0 ==> Used(s.devices, gone.port);
    forall q | 0 <= q < |t.table|
      ensures if Used(t.devices, q) then t.table[q].state == V.Occupied else t.table[q] == V.Cleared(q)
    {
      UsedAfterRemoval(s.devices, i, q);
    }
  }

  lemma UsedAfterRemoval(devices: seq<Remote>, i: nat, p: nat)
    requires DistinctPorts(devices) && i < |devices|
    ensures Used(Without(devices, i), p) <==> Used(devices, p) && devices[i].port != p
  {
    var rest := Without(devices, i);
    if Used(devices, p) && devices[i].port != p {
      var k :| 0 <= k < |devices| && devices[k].port == p;
      assert rest[if k < i then k else k - 1] == devices[k];
    }
    if Used(rest, p) {
      var k :| 0 <= k < |rest| && rest[k].port == p;
      assert rest[k] == devices[if k < i then k else k + 1];
    }
  }

  /** Disconnecting the device just connected restores the list and all ports. */
  lemma DisconnectUndoesConnect(s: State, target: Target, net: Network, driver: V.Driver)
    requires Inv(s) && ConnectError(s, target, net, driver) == None
    ensures Disconnect(Connect(s, target, net, driver), 0) == s
  {
    var t := Connect(s, target, net, driver);
    assert Without(t.devices, 0) == s.devices;
    if target.useVhci {
      var p := V.FirstFree(s.table);
      assert s.table[p] == V.Cleared(p);
      assert V.Detach(t.table, p) == s.table;
    }
  }

  /** Disconnecting everything leaves no device and every port free. */
  lemma {:induction false} DisconnectAllFrees(s: State)
    requires Inv(s)
    ensures
      var t := DisconnectAll(s);
      Inv(t) && t.devices == [] && forall p | 0 <= p < |t.table| :: t.table[p] == V.Cleared(p)
    decreases |s.devices|
  {
    if s.devices != [] {
      DisconnectKeepsInv(s, 0);
      DisconnectAllFrees(Disconnect(s, 0));
    }
  }

  // ---- All runs ----

  datatype Op = ConnectTo(target: Target, net: Network, driver: V.Driver) | DisconnectFrom(i: nat) | DisconnectFromAll

  predicate OpEnabled(s: State, op: Op) {
    op.DisconnectFrom? ==> op.i < |s.devices|
  }

  function ApplyOp(s: State, op: Op): State
    requires OpEnabled(s, op)
  {
    match op
    case ConnectTo(target, net, driver) => Connect(s, target, net, driver)
    case DisconnectFrom(i) => Disconnect(s, i)
    case DisconnectFromAll => DisconnectAll(s)
  }

  function Run(s: State, ops: seq<Op>): Option<State>
    decreases |ops|
  {
    if ops == [] then Some(s)
    else if !OpEnabled(s, ops[0]) then None
    else Run(ApplyOp(s, ops[0]), ops[1..])
  }

  lemma {:induction false} RunKeepsInv(s: State, ops: seq<Op>)
    requires Inv(s)
    ensures Run(s, ops).Some? ==> Inv(Run(s, ops).value)
    decreases |ops|
  {
    if ops != [] && OpEnabled(s, ops[0]) {
      match ops[0] {
        case ConnectTo(target, net, driver) => ConnectKeepsInv(s, target, net, driver);
        case DisconnectFrom(i) => DisconnectKeepsInv(s, i);
        case DisconnectFromAll => DisconnectAllFrees(s);
      }
      RunKeepsInv(ApplyOp(s, ops[0]), ops[1..]);
    }
  }

  /** Ports and devices are in bijection after any run from an initialised controller. */
  lemma PortsMatchDevices(s: State, ops: seq<Op>)
    requires s.devices == [] && |s.table| == MAX_PORTS && forall p | 0 <= p < |s.table| :: s.table[p] == V.Cleared(p)
    ensures Run(s, ops).Some? ==> Inv(Run(s, ops).value)
  {
    assert Inv(s);
    RunKeepsInv(s, ops);
  }

  /** The ports the listed devices hold. */
  function PortsHeld(devices: seq<Remote>): (ports: seq<int>) {
    if devices == [] then []
    else (if devices[0].port == -1 then [] else [devices[0].port]) + PortsHeld(devices[1..])
  }

  lemma {:induction false} HeldIffUsed(devices: seq<Remote>, p: int)
    ensures p in PortsHeld(devices) <==> p != -1 && Used(devices, p)
  {
    if devices != [] {
      HeldIffUsed(devices[1..], p);
      UsedAfterPrepend(devices[1..], devices, p);
    }
  }

  predicate Distinct(q: seq<int>) {
    forall i, k | 0 <= i < k < |q| :: q[i] != q[k]
  }

  lemma {:induction false} HeldDistinct(devices: seq<Remote>)
    requires DistinctPorts(devices)
    ensures Distinct(PortsHeld(devices))
  {
    if devices != [] {
      var first := devices[0].port;
      HeldDistinct(devices[1..]);
      HeldIffUsed(devices[1..], first);
      assert forall i | 0 <= i < |devices[1..]| :: devices[1..][i].port == devices[i + 1].port;
    }
  }

  lemma DropOne(q: seq<int>, k: nat)
    requires Distinct(q) && k < |q|
    ensures Distinct(Without(q, k)) && forall x :: x in Without(q, k) <==> x in q && x != q[k]
  {
    var rest := Without(q, k);
    forall x ensures x in rest <==> x in q && x != q[k] {
      if x in q && x != q[k] {
        var i :| 0 <= i < |q| && q[i] == x;
        assert rest[if i < k then i else i - 1] == x;
      }
      if x in rest {
        var i :| 0 <= i < |rest| && rest[i] == x;
        assert rest[i] == q[if i < k then i else i + 1];
      }
    }
  }

  lemma HasMember(q: seq<int>)
    ensures |q| > 0 ==> exists x :: x in q
  {
    if |q| > 0 {
      var x := q[0];
      assert x in q;
    }
  }

  /** Distinct numbers below n are at most n, and n exactly if they are all of them. */
  lemma {:induction false} DistinctBelow(q: seq<int>, n: nat)
    requires Distinct(q) && forall x | x in q :: 0 <= x < n
    ensures |q| <= n && (|q| == n <==> forall x | 0 <= x < n :: x in q)
    decreases n
  {
    if n == 0 {
      HasMember(q);
    } else if n - 1 in q {
      var k :| 0 <= k < |q| && q[k] == n - 1;
      DropOne(q, k);
      DistinctBelow(Without(q, k), n - 1);
    } else {
      DistinctBelow(q, n - 1);
    }
  }

  /** At most eight devices hold ports, and a connect that got that far finds none exactly if eight do. */
  lemma NoFreePortIff(s: State, target: Target, net: Network, driver: V.Driver)
    requires Inv(s) && ImportError(net) == None && target.useVhci
    ensures |PortsHeld(s.devices)| <= 8
    ensures ConnectError(s, target, net, driver) == Some(NoFreePort) <==> |PortsHeld(s.devices)| == 8
  {
    var held, free := PortsHeld(s.devices), V.FirstFree(s.table);
    HeldDistinct(s.devices);
    forall p | p in held ensures 0 <= p < MAX_PORTS {
      HeldIffUsed(s.devices, p);
      var i :| 0 <= i < |s.devices| && s.devices[i].port == p;
      assert Holds(s.table, s.devices[i]);
    }
    DistinctBelow(held, MAX_PORTS);
    HeldIffUsed(s.devices, free);
    if free == |s.table| {
      forall p | 0 <= p < MAX_PORTS ensures p in held {
        HeldIffUsed(s.devices, p);
        assert s.table[p].state != V.Free;
      }
    }
  }
}
