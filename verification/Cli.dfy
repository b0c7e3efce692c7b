/** The accept and session loops of server/main.c, which serve one client at a time. */
module Cli {
  import opened Bytes
  import opened Ownership
  import opened OwnershipInvariant
  import opened OwnershipRuns

  /** Waiting for a connection, in `handle_client_session`, after it, and between detaching and removing the client. */
  datatype Phase = Listening | InSession | Ending | Detached

  datatype State = State(server: Server, phase: Phase)

  datatype Event =
    | Accept(ip: seq<byte>, outOfMemory: bool)
    // requests of a browsing client: the device list, an import, one that ends the session
    | Devlist(sent: bool)
    | Import(busid: seq<byte>, faults: Faults, headerSent: bool, deviceSent: bool)
    | Leave
    // an attached client's URB traffic
    | Traffic
    // the last two statements of the loop
    | DetachClient | RemoveClient

  function CurrentClient(s: State): Option<Client> {
    if s.phase == Listening || s.server.clients == [] then None else Some(s.server.clients[0])
  }

  predicate Browsing(s: State) {
    s.phase == InSession && CurrentClient(s).Some? && CurrentClient(s).value.state == Connected
  }

  predicate Enabled(s: State, e: Event) {
    match e
    case Accept(_, _) => s.phase == Listening
    case Devlist(_) => Browsing(s)
    case Import(_, _, _, _) => Browsing(s)
    case Leave => s.phase == InSession
    case Traffic => s.phase == InSession && CurrentClient(s).Some? && CurrentClient(s).value.state == Attached
    case DetachClient => s.phase == Ending && CurrentClient(s).Some?
    case RemoveClient => s.phase == Detached && CurrentClient(s).Some?
  }

  /** `client_handle_import` for the client at position i, and whether its session goes on: any error ends it. */
  function HandleImport(s: Server, i: nat, busid: seq<byte>, f: Faults, headerSent: bool, deviceSent: bool)
    : (Server, bool)
    requires i < |s.clients|
  {
    var attached := Attach(s, i, busid, f);
    if !headerSent || AttachError(s, busid, f).Some? then (attached, false)
    else if !deviceSent then (Detach(attached, i), false)
    else (attached, true)
  }

  function Apply(s: State, e: Event): State
    requires Enabled(s, e)
  {
    match e
    case Accept(ip, outOfMemory) =>
      var (server, error) := Add(s.server, ip, outOfMemory);
      State(server, if error == None then InSession else Listening)
    case Devlist(sent) => s.(phase := if sent then InSession else Ending)
    case Import(busid, faults, headerSent, deviceSent) =>
      var (server, goOn) := HandleImport(s.server, 0, busid, faults, headerSent, deviceSent);
      State(server, if goOn then InSession else Ending)
    case Leave => s.(phase := Ending)
    case Traffic => s
    case DetachClient => State(Detach(s.server, 0), Detached)
    case RemoveClient => State(Remove(s.server, 0), Listening)
  }

  function Run(s: State, events: seq<Event>): Option<State>
    decreases |events|
  {
    if events == [] then Some(s)
    else if !Enabled(s, events[0]) then None
    else Run(Apply(s, events[0]), events[1..])
  }

  /** Ownership agrees, and there is exactly one client except while the server listens. */
  predicate LoopInv(s: State) {
    && Inv(s.server)
    && |s.server.clients| == (if s.phase == Listening then 0 else 1)
    && (s.phase == Detached ==> s.server.clients[0].state == Connected)
  }

  lemma DetachedIsConnected(s: Server)
    requires Inv(s) && |s.clients| == 1
    ensures Inv(Detach(s, 0)) && |Detach(s, 0).clients| == 1 && Detach(s, 0).clients[0].state == Connected
  {
    DetachKeepsInv(s, 0);
    assert ClientOk(s.entries, s.clients[0]);
    if s.clients[0].state == Attached {
      DetachFrees(s, 0);
    }
  }

  lemma ImportKeepsLoopInv(s: State, e: Event)
    requires LoopInv(s) && e.Import? && Enabled(s, e)
    ensures LoopInv(Apply(s, e))
  {
    var attached := Attach(s.server, 0, e.busid, e.faults);
    AttachKeepsInvIff(s.server, 0, e.busid, e.faults);
    assert |attached.clients| == 1;
    DetachedIsConnected(attached);
  }

  lemma LoopInvKept(s: State, e: Event)
    requires LoopInv(s) && Enabled(s, e)
    ensures LoopInv(Apply(s, e))
  {
    match e {
      case Accept(ip, outOfMemory) => AddKeepsInv(s.server, ip, outOfMemory);
      case Import(_, _, _, _) => ImportKeepsLoopInv(s, e);
      case DetachClient => DetachedIsConnected(s.server);
      case RemoveClient => RemoveKeepsInv(s.server, 0);
      case _ =>
    }
  }

  lemma {:induction false} RunKeepsLoopInv(s: State, events: seq<Event>)
    requires LoopInv(s)
    ensures Run(s, events).Some? ==> LoopInv(Run(s, events).value)
    decreases |events|
  {
    if events != [] && Enabled(s, events[0]) {
      LoopInvKept(s, events[0]);
      RunKeepsLoopInv(Apply(s, events[0]), events[1..]);
    }
  }

  /** A state the loops can get to from a server that listens. */
  ghost predicate ReachableFrom(server: Server, s: State) {
    exists events :: Run(State(server, Listening), events) == Some(s)
  }

  ghost predicate Reachable(s: State) {
    exists server :: Startup(server) && ReachableFrom(server, s)
  }

  lemma ReachableLoopInv(s: State)
    requires Reachable(s)
    ensures LoopInv(s)
  {
    var server :| Startup(server) && ReachableFrom(server, s);
    var events :| Run(State(server, Listening), events) == Some(s);
    assert Inv(server);
    RunKeepsLoopInv(State(server, Listening), events);
  }

  // ---- What no operation changes ----

  /** The same devices in the same order, shared or not as before. */
  predicate SameDevices(p: seq<Entry>, q: seq<Entry>) {
    |p| == |q| && forall k | 0 <= k < |p| :: SameDevice(p[k], q[k])
  }

  predicate SameDevice(e: Entry, f: Entry) {
    && f.isShared == e.isShared && f.device.busid == e.device.busid && f.device.path == e.device.path
    && f.device.descriptor == e.device.descriptor
  }

  lemma GiveBackKeepsDevices(s: Server, c: Client, release: bool)
    ensures SameDevices(s.entries, GiveBack(s, c, release))
  {
  }

  lemma UnexportKeepsDevices(entries: seq<Entry>, busid: seq<byte>)
    ensures SameDevices(entries, Unexport(entries, busid))
  {
  }

  lemma AttachKeepsDevices(s: Server, i: nat, busid: seq<byte>, f: Faults)
    requires i < |s.clients|
    ensures SameDevices(s.entries, Attach(s, i, busid, f).entries)
  {
  }

  lemma SameDevicesTrans(p: seq<Entry>, q: seq<Entry>, r: seq<Entry>)
    requires SameDevices(p, q) && SameDevices(q, r)
    ensures SameDevices(p, r)
  {
    forall k | 0 <= k < |p| ensures SameDevice(p[k], r[k]) {
      assert SameDevice(p[k], q[k]) && SameDevice(q[k], r[k]);
    }
  }

  lemma DetachKeepsDevices(s: Server, i: nat)
    requires i < |s.clients|
    ensures SameDevices(s.entries, Detach(s, i).entries)
  {
    var given := GiveBack(s, s.clients[i], true);
    GiveBackKeepsDevices(s, s.clients[i], true);
    UnexportKeepsDevices(given, s.clients[i].busid);
    SameDevicesTrans(s.entries, given, Unexport(given, s.clients[i].busid));
  }

  lemma RemoveKeepsDevices(s: Server, i: nat)
    requires i < |s.clients|
    ensures SameDevices(s.entries, Remove(s, i).entries)
  {
    var c := s.clients[i];
    var unexported := if c.busid == [] then s.entries else Unexport(s.entries, c.busid);
    UnexportKeepsDevices(s.entries, c.busid);
    GiveBackKeepsDevices(s.(entries := unexported), c, false);
    SameDevicesTrans(s.entries, unexported, Remove(s, i).entries);
  }

  /** No event changes what a device is or whether it is shared. */
  lemma EventKeepsDevices(s: State, e: Event)
    requires Enabled(s, e)
    ensures SameDevices(s.server.entries, Apply(s, e).server.entries)
  {
    match e {
      case Import(busid, faults, _, _) =>
        var attached := Attach(s.server, 0, busid, faults);
        AttachKeepsDevices(s.server, 0, busid, faults);
        DetachKeepsDevices(attached, 0);
        SameDevicesTrans(s.server.entries, attached.entries, Detach(attached, 0).entries);
      case DetachClient => DetachKeepsDevices(s.server, 0);
      case RemoveClient => RemoveKeepsDevices(s.server, 0);
      case _ =>
    }
  }

  lemma {:induction false} RunKeepsDevices(s: State, events: seq<Event>)
    ensures Run(s, events).Some? ==> SameDevices(s.server.entries, Run(s, events).value.server.entries)
    decreases |events|
  {
    if events != [] && Enabled(s, events[0]) {
      var t := Apply(s, events[0]);
      EventKeepsDevices(s, events[0]);
      RunKeepsDevices(t, events[1..]);
      if Run(s, events).Some? {
        SameDevicesTrans(s.server.entries, t.server.entries, Run(s, events).value.server.entries);
      }
    }
  }

  lemma ReachedDevices(server: Server, s: State)
    requires ReachableFrom(server, s)
    ensures SameDevices(server.entries, s.server.entries)
  {
    var events :| Run(State(server, Listening), events) == Some(s);
    RunKeepsDevices(State(server, Listening), events);
  }

  // ---- Which sessions go on ----

  /**
   * After an import the client's traffic is served exactly if the attach succeeded and header and record were sent;
   * otherwise the session ends. A client whose device could not be announced to it after a sent header has no device,
   * and the device is free again.
   */
  lemma ImportDecides(s: State, e: Event)
    requires LoopInv(s) && e.Import? && Enabled(s, e)
    ensures
      var t, error := Apply(s, e), AttachError(s.server, e.busid, e.faults);
      && (Enabled(t, Traffic) <==> error == None && e.headerSent && e.deviceSent)
      && (!Enabled(t, Traffic) ==> t.phase == Ending)
      && (error == None && e.headerSent && !e.deviceSent ==>
            && t.server.clients == s.server.clients && t.server.clients[0].state == Connected
            && forall j | 0 <= j < |t.server.entries| ::
                 t.server.entries[j].state == Available && t.server.entries[j].device.Closed())
  {
    if AttachError(s.server, e.busid, e.faults) == None {
      AttachSucceeds(s.server, 0, e.busid, e.faults);
      DetachUndoesAttach(s.server, 0, e.busid, e.faults);
      ImportKeepsLoopInv(s, e);
      if e.headerSent && !e.deviceSent {
        NothingExported(Apply(s, e).server);
        assert forall j | 0 <= j < |s.server.entries| :: EntryOk(Apply(s, e).server.entries[j]);
      }
    }
  }

  /** A device list leaves everything as it is; it ends the session exactly if it could not be sent. */
  lemma DevlistDecides(s: State, sent: bool)
    requires Browsing(s)
    ensures
      var t := Apply(s, Devlist(sent));
      t.server == s.server && (Browsing(t) <==> sent) && (!sent ==> t.phase == Ending)
  {
  }

  /** Serving an attached client leaves lists and devices as they are, and the session goes on until it is left. */
  lemma TrafficGoesOn(s: State)
    requires Enabled(s, Traffic)
    ensures Apply(s, Traffic) == s && Apply(s, Leave).phase == Ending && Apply(s, Leave).server == s.server
  {
  }

  // ---- What a browsing client sees ----

  /** While nobody is attached, nothing is exported. */
  lemma NothingExported(s: Server)
    requires Inv(s) && forall i | 0 <= i < |s.clients| :: s.clients[i].state == Connected
    ensures forall j | 0 <= j < |s.entries| :: s.entries[j].state == Available
  {
    forall i | 0 <= i < |s.clients| ensures s.clients[i].busid == [] {
      assert ClientOk(s.entries, s.clients[i]);
    }
    forall j | 0 <= j < |s.entries| ensures s.entries[j].state == Available {
      assert EntryOk(s.entries[j]) && !Owned(s.clients, s.entries[j].device.busid);
    }
  }

  /** Whenever a client of this server browses, or none is connected, every device is available. */
  lemma BrowsersSeeAllAvailable(s: State)
    requires Reachable(s) && (Browsing(s) || s.phase == Listening || s.phase == Detached)
    ensures forall j | 0 <= j < |s.server.entries| :: s.server.entries[j].state == Available
  {
    ReachableLoopInv(s);
    NothingExported(s.server);
  }
}
