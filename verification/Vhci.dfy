/** The table of virtual host controller ports (client/vhci_win32.c). */
module Vhci {
  import opened Bytes
  import opened Config

  datatype PortState = Free | Connecting | Occupied | Disconnecting | Faulty

  datatype Port = Port(number: nat, state: PortState, busid: seq<byte>, serverIp: seq<byte>, serverPort: uint16,
                       devid: nat, speed: uint32)

  /** The fields of an imported device that a port keeps. */
  datatype Info = Info(busid: seq<byte>, busnum: uint32, devnum: uint32, speed: uint32)

  datatype Error = NotFound | AttachFailed | InvalidPort | DeviceBusy

  /** A free port as `calloc` and the detach leave it. */
  function Cleared(i: nat): Port {
    Port(i, Free, [], [], 0, 0, 0)
  }

  // ---- Device ids ----

  /** `(busnum << 16) | devnum` in 32 bits. */
  function DevId(busnum: uint32, devnum: uint32): nat {
    Or(busnum % 0x1_0000 * 0x1_0000, devnum)
  }

  function Pow2(k: nat): nat {
    if k == 0 then 1 else 2 * Pow2(k - 1)
  }

  /** Or-ing numbers without common bits adds them. */
  lemma {:induction false} OrDisjoint(high: nat, low: nat, k: nat)
    requires low < Pow2(k)
    ensures Or(high * Pow2(k), low) == high * Pow2(k) + low
    decreases k
  {
    if k == 0 {
      OrWithZero(high);
    } else {
      var h := high * Pow2(k - 1);
      assert high * Pow2(k) == 2 * h;
      if h != 0 || low != 0 {
        OrDisjoint(high, low / 2, k - 1);
        assert (2 * h) / 2 == h && (2 * h) % 2 == 0;
      }
    }
  }

  lemma {:induction false} OrWithZero(a: nat)
    ensures Or(a, 0) == a
  {
    if a != 0 {
      OrWithZero(a / 2);
    }
  }

  /** The numbers are recovered from a device id exactly if both fit 16 bits. */
  lemma DevIdRoundTripIff(busnum: uint32, devnum: uint32)
    ensures devnum < 0x1_0000 ==>
      DevId(busnum, devnum) / 0x1_0000 == busnum % 0x1_0000 && DevId(busnum, devnum) % 0x1_0000 == devnum
    ensures DevId(busnum, devnum) / 0x1_0000 == busnum && DevId(busnum, devnum) % 0x1_0000 == devnum
            <==> busnum < 0x1_0000 && devnum < 0x1_0000
  {
    if devnum < 0x1_0000 {
      Pow16();
      OrDisjoint(busnum % 0x1_0000, devnum, 16);
    }
  }

  lemma Pow16()
    ensures Pow2(16) == 0x1_0000
  {
    assert Pow2(4) == 16;
    assert Pow2(8) == 256;
    assert Pow2(12) == 4096;
  }

  // ---- The table ----

  /** `vhci_find_free_port`: the first free port, or the size of the table if there is none. */
  function FirstFree(table: seq<Port>): (p: nat)
    ensures p <= |table|
    ensures p < |table| ==> table[p].state == Free
    ensures forall k | 0 <= k < p :: table[k].state != Free
  {
    if table == [] || table[0].state == Free then 0 else 1 + FirstFree(table[1..])
  }

  /** What a port is told about its device. */
  function Filled(port: Port, info: Info, serverIp: seq<byte>, serverPort: uint16, state: PortState): Port {
    port.(state := state, busid := Truncate(info.busid, BUSID_MAX), serverIp := Truncate(serverIp, IP_MAX),
          serverPort := serverPort, devid := DevId(info.busnum, info.devnum), speed := info.speed)
  }

  /** The driver: whether it is there, and whether it accepts the device. */
  datatype Driver = Driver(present: bool, accepts: bool)

  function AttachError(table: seq<Port>, port: int, driver: Driver): Option<Error> {
    if port < 0 || port >= |table| then Some(InvalidPort)
    else if table[port].state != Free then Some(DeviceBusy)
    else if !driver.present then Some(NotFound)
    else if !driver.accepts then Some(AttachFailed)
    else None
  }

  /** `vhci_attach`. */
  function Attach(table: seq<Port>, port: int, info: Info, serverIp: seq<byte>, serverPort: uint16, driver: Driver)
    : seq<Port>
  {
    if port < 0 || port >= |table| || table[port].state != Free then table
    else
      var state := if AttachError(table, port, driver) == None then Occupied else Faulty;
      table[port := Filled(table[port], info, serverIp, serverPort, state)]
  }

  /** `vhci_detach`; the answer of the driver changes nothing. */
  function Detach(table: seq<Port>, port: int): seq<Port> {
    if port < 0 || port >= |table| || table[port].state == Free then table
    else table[port := Cleared(table[port].number)]
  }

  class Controller {
    const ports: array<Port>
    const hasDriver: bool

    /** The table as `vhci_init` leaves it: the array of ports can be allocated. */
    constructor (hasDriver: bool)
      ensures fresh(ports) && ports.Length == 8 && this.hasDriver == hasDriver
      ensures forall i | 0 <= i < 8 :: ports[i] == Port(i, Free, [], [], 0, 0, 0)
    {
      this.hasDriver := hasDriver;
      ports := new Port[MAX_PORTS](_ => Cleared(0));
      new;
      var i: nat := 0;
      while i < MAX_PORTS
        invariant i <= MAX_PORTS && forall k | 0 <= k < i :: ports[k] == Cleared(k)
      {
        ports[i] := Cleared(i);
        i := i + 1;
      }
    }

    method FindFreePort() returns (port: int)
      ensures port == if FirstFree(ports[..]) < ports.Length then FirstFree(ports[..]) else -1
    {
      var i: nat := 0;
      while i < ports.Length
        invariant i <= ports.Length && forall k | 0 <= k < i :: ports[..][k].state != Free
      {
        if ports[i].state == Free {
          assert ports[..][i].state == Free;
          return i;
        }
        i := i + 1;
      }
      port := -1;
    }

    method AttachPort(port: int, info: Info, serverIp: seq<byte>, serverPort: uint16, accepts: bool)
      returns (error: Option<Error>)
      modifies ports
      ensures error == AttachError(old(ports[..]), port, Driver(hasDriver, accepts))
      ensures ports[..] == Attach(old(ports[..]), port, info, serverIp, serverPort, Driver(hasDriver, accepts))
    {
      if port < 0 || port >= ports.Length {
        return Some(InvalidPort);
      }
      if ports[port].state != Free {
        return Some(DeviceBusy);
      }
      ports[port] := Filled(ports[port], info, serverIp, serverPort, Connecting);
      if !hasDriver {
        ports[port] := ports[port].(state := Faulty);
        return Some(NotFound);
      }
      if !accepts {
        ports[port] := ports[port].(state := Faulty);
        return Some(AttachFailed);
      }
      ports[port] := ports[port].(state := Occupied);
      error := None;
    }

    method DetachPort(port: int)
      modifies ports
      ensures ports[..] == Detach(old(ports[..]), port)
    {
      if port < 0 || port >= ports.Length || ports[port].state == Free {
        return;
      }
      ports[port] := ports[port].(state := Disconnecting);
      ports[port] := ports[port].(state := Free, busid := [], serverIp := [], serverPort := 0, devid := 0, speed := 0);
    }

    /** `vhci_detach_all`. */
    method DetachAll()
      modifies ports
      ensures ports[..] == DetachEach(old(ports[..]), ports.Length)
    {
      var i: nat := 0;
      while i < ports.Length
        invariant i <= ports.Length && ports[..] == DetachEach(old(ports[..]), i)
      {
        if ports[i].state != Free {
          DetachPort(i);
        }
        i := i + 1;
      }
    }
  }

  /** `vhci_init`: fails only if there is no memory for the ports; a driver that is not there is no failure. */
  method Init(hasDriver: bool, fits: bool) returns (controller: Controller?)
    ensures controller != null <==> fits
    ensures controller != null ==>
      && fresh(controller) && fresh(controller.ports) && controller.hasDriver == hasDriver
      && controller.ports.Length == 8
      && forall i | 0 <= i < 8 :: controller.ports[i] == Port(i, Free, [], [], 0, 0, 0)
  {
    controller := null;
    if fits {
      controller := new Controller(hasDriver);
    }
  }

  function DetachEach(table: seq<Port>, n: nat): seq<Port> {
    if n == 0 then table else Detach(DetachEach(table, n - 1), n - 1)
  }

  lemma {:induction false} DetachEachPort(table: seq<Port>, n: nat)
    requires n <= |table|
    ensures |DetachEach(table, n)| == |table|
    ensures forall k | 0 <= k < |table| ::
      DetachEach(table, n)[k] ==
        if k < n && table[k].state != Free then Port(table[k].number, Free, [], [], 0, 0, 0) else table[k]
  {
    if n > 0 {
      DetachEachPort(table, n - 1);
    }
  }

  /** A port that knows its device: strings cut to their fields, and a device id with the bus number above bit 16. */
  predicate Knows(port: Port, info: Info, serverIp: seq<byte>, serverPort: uint16) {
    && port.busid == Truncate(info.busid, 32) && port.serverIp == Truncate(serverIp, 64)
    && port.serverPort == serverPort && port.speed == info.speed
    && (info.devnum < 0x1_0000 ==> port.devid == 0x1_0000 * (info.busnum % 0x1_0000) + info.devnum)
  }

  /**
   * An attach fails exactly without such a port, on one that is not free, without a driver, or if the driver refuses,
   * in this order. It then changes at most that port, which becomes faulty; otherwise the port is occupied.
   */
  lemma AttachDecidedBy(table: seq<Port>, port: int, info: Info, serverIp: seq<byte>, serverPort: uint16,
                        driver: Driver)
    ensures
      var error := AttachError(table, port, driver);
      var t := Attach(table, port, info, serverIp, serverPort, driver);
      if port < 0 || port >= |table| then error == Some(InvalidPort) && t == table
      else if table[port].state != Free then error == Some(DeviceBusy) && t == table
      else
        && (error == Some(NotFound) <==> !driver.present)
        && (error == Some(AttachFailed) <==> driver.present && !driver.accepts)
        && (error == None <==> driver.present && driver.accepts)
        && t == table[port := t[port]] && t[port].number == table[port].number
        && t[port].state == (if driver.present && driver.accepts then Occupied else Faulty)
        && Knows(t[port], info, serverIp, serverPort)
  {
    if info.devnum < 0x1_0000 {
      Pow16();
      OrDisjoint(info.busnum % 0x1_0000, info.devnum, 16);
    }
  }

  /** The detach after a failed attach undoes it exactly if the free port had been cleared. */
  lemma DetachUndoesFailedAttachIff(table: seq<Port>, port: nat, info: Info, serverIp: seq<byte>, serverPort: uint16,
                                    driver: Driver)
    requires port < |table| && table[port].state == Free && AttachError(table, port, driver).Some?
    ensures Detach(Attach(table, port, info, serverIp, serverPort, driver), port) == table <==>
      table[port] == Cleared(table[port].number)
  {
    var back := Detach(Attach(table, port, info, serverIp, serverPort, driver), port);
    assert back == table[port := Cleared(table[port].number)];
    assert back[port] == Cleared(table[port].number);
  }
}
