/**
 * Who owns which device: the client list (server/client_manager.c), the device list (server/device_list.c)
 * and the open and claimed flags of the devices (server/usb_host_win32.c), each operation taken as atomic.
 */
module Ownership {
  import opened Bytes
  import opened Config
  import opened Seqs

  datatype Error = InvalidParam | UsbNotFound | DeviceBusy | UsbBusy | OutOfMemory | ThreadCreate | MutexInit
                 | Busy | NotFound

  // ---- Devices ----

  /** What enumeration reports about a device. */
  datatype Descriptor = Descriptor(busnum: uint32, devnum: uint32, speed: uint32,
                                   vendor: uint16, product: uint16, bcdDevice: uint16,
                                   deviceClass: byte, subclass: byte, protocol: byte,
                                   configuration: byte, configurations: byte,
                                   numInterfaces: byte, interfaces: seq<seq<byte>>)

  datatype Device = Device(busid: seq<byte>, path: seq<byte>, descriptor: Descriptor,
                           isOpen: bool, isClaimed: bool, isVirtual: bool, claimedInterface: int)
  {
    /** The flags that say who uses the device. */
    predicate Closed() {
      !isOpen && !isClaimed && !isVirtual
    }

    predicate InUse() {
      isOpen && isClaimed && claimedInterface == 0
    }
  }

  /** `usb_open_device`: fails only without a path; a device the system keeps is opened in virtual mode. */
  function Open(d: Device, inVirtualMode: bool): Option<Device> {
    if d.path == [] then None
    else if d.isOpen then Some(d)
    else Some(d.(isOpen := true, isVirtual := inVirtualMode))
  }

  /** The claim fails: another interface of the device is claimed. */
  predicate ClaimedOtherwise(d: Device) {
    d.isClaimed && d.claimedInterface != 0
  }

  /** `usb_claim_interface` for interface 0: refused for a closed device or when another interface is claimed. */
  function ClaimError(d: Device): Option<Error> {
    if !d.isOpen then Some(InvalidParam) else if ClaimedOtherwise(d) then Some(UsbBusy) else None
  }

  function Claim(d: Device): Device {
    if ClaimError(d).Some? then d else d.(isClaimed := true, claimedInterface := 0)
  }

  /** `usb_release_interface`; the argument is 8 bits wide. */
  function Release(d: Device, interface: int): Device {
    if !d.isOpen || !d.isClaimed || d.claimedInterface != interface % 0x100 then d
    else d.(isClaimed := false, claimedInterface := -1)
  }

  /** `usb_close_device`. */
  function Close(d: Device): Device {
    if !d.isOpen then d
    else
      var released := if d.isClaimed then Release(d, d.claimedInterface) else d;
      released.(isOpen := false, isVirtual := false)
  }

  // ---- Lists ----

  datatype DeviceState = Available | Exported | BusyState | ErrorState

  datatype Entry = Entry(device: Device, state: DeviceState, clientId: uint32, clientIp: seq<byte>, isShared: bool)

  datatype ClientState = Connected | Attached

  /** A client; `device` is the bus id of the list entry its device pointer refers to. */
  datatype Client = Client(id: uint32, ip: seq<byte>, state: ClientState, busid: seq<byte>,
                           device: Option<seq<byte>>, hasHandler: bool)
  {
    predicate Idle() {
      state == Connected && busid == [] && device == None && !hasHandler
    }
  }

  /** Both lists, newest first, and the next client id. */
  datatype Server = Server(entries: seq<Entry>, clients: seq<Client>, nextId: uint32)

  /** `device_list_find`: the first entry with a bus id, or the length if there is none. */
  function Find(entries: seq<Entry>, busid: seq<byte>): (j: nat)
    ensures j <= |entries|
    ensures j < |entries| ==> entries[j].device.busid == busid
    ensures forall k | 0 <= k < j :: entries[k].device.busid != busid
  {
    if entries == [] || entries[0].device.busid == busid then 0 else 1 + Find(entries[1..], busid)
  }

  function SetDevice(entries: seq<Entry>, j: nat, d: Device): seq<Entry>
    requires j < |entries|
  {
    entries[j := entries[j].(device := d)]
  }

  /** `device_list_unexport`. */
  function Unexport(entries: seq<Entry>, busid: seq<byte>): seq<Entry> {
    var j := Find(entries, busid);
    if j == |entries| then entries
    else entries[j := entries[j].(state := Available, clientId := 0, clientIp := [])]
  }

  // ---- Operations ----

  /** What the system does during an attach: how the device opens and what goes wrong when creating the handler. */
  datatype Faults = Faults(inVirtualMode: bool, outOfMemory: bool, initError: Option<Error>, startFails: bool)

  /** The error an attach ends with, in the order the causes are met. */
  function AttachError(s: Server, busid: seq<byte>, f: Faults): Option<Error> {
    var j := Find(s.entries, busid);
    if j == |s.entries| || !s.entries[j].isShared then Some(UsbNotFound)
    else if s.entries[j].state != Available then Some(DeviceBusy)
    else
      var d := s.entries[j].device;
      if d.path == [] then Some(InvalidParam)
      else if ClaimedOtherwise(d) then Some(UsbBusy)
      else if f.outOfMemory then Some(OutOfMemory)
      else if f.initError.Some? then f.initError
      else if f.startFails then Some(ThreadCreate)
      else None
  }

  /** The device after a failure at or after the claim has been rolled back. */
  function RolledBack(d: Device): Device {
    if ClaimedOtherwise(d) then Close(d.(isOpen := true))
    else d.(isOpen := false, isClaimed := false, isVirtual := false, claimedInterface := -1)
  }

  function ExportTo(e: Entry, c: Client, inVirtualMode: bool): Entry {
    e.(device := e.device.(isOpen := true, isVirtual := if e.device.isOpen then e.device.isVirtual else inVirtualMode,
                           isClaimed := true, claimedInterface := 0),
       state := Exported, clientId := c.id, clientIp := Truncate(c.ip, IP_MAX))
  }

  /** The attach ends before it touches the device. */
  predicate Refused(s: Server, busid: seq<byte>) {
    var j := Find(s.entries, busid);
    j == |s.entries| || !s.entries[j].isShared || s.entries[j].state != Available || s.entries[j].device.path == []
  }

  /** `client_attach_device` for the client at position i; creating the handler overwrites the client's handler. */
  function Attach(s: Server, i: nat, busid: seq<byte>, f: Faults): Server
    requires i < |s.clients|
  {
    if Refused(s, busid) then s
    else
      var j, c := Find(s.entries, busid), s.clients[i];
      var e := s.entries[j];
      if AttachError(s, busid, f) == None then
        s.(entries := s.entries[j := ExportTo(e, c, f.inVirtualMode)],
           clients := s.clients[i := c.(state := Attached, busid := Truncate(busid, BUSID_MAX),
                                        device := Some(busid), hasHandler := true)])
      else
        s.(entries := SetDevice(s.entries, j, RolledBack(e.device)),
           clients := if ClaimedOtherwise(e.device) then s.clients else s.clients[i := c.(hasHandler := false)])
  }

  function DeviceOf(s: Server, c: Client): (j: nat)
    ensures j <= |s.entries|
  {
    if c.device == None then |s.entries| else Find(s.entries, c.device.value)
  }

  /** The list after a client's device has been closed; a detach releases interface 0 before. */
  function GiveBack(s: Server, c: Client, release: bool): seq<Entry> {
    var j := DeviceOf(s, c);
    if j == |s.entries| then s.entries
    else
      var d := s.entries[j].device;
      SetDevice(s.entries, j, Close(if release then Release(d, 0) else d))
  }

  /** `client_detach_device`. */
  function Detach(s: Server, i: nat): Server
    requires i < |s.clients|
  {
    var c := s.clients[i];
    if c.busid == [] then s
    else
      s.(entries := Unexport(GiveBack(s, c, true), c.busid),
         clients := s.clients[i := c.(state := Connected, busid := [], device := None, hasHandler := false)])
  }

  /** `client_manager_remove` with `free_client`. */
  function Remove(s: Server, i: nat): Server
    requires i < |s.clients|
  {
    var c := s.clients[i];
    var unexported := if c.busid == [] then s.entries else Unexport(s.entries, c.busid);
    s.(entries := GiveBack(s.(entries := unexported), c, false), clients := Without(s.clients, i))
  }

  /** `client_manager_add`: the new client is first; a failed allocation still uses up an id. */
  function Add(s: Server, ip: seq<byte>, outOfMemory: bool): (Server, Option<Error>) {
    if |s.clients| >= MAX_CLIENTS then (s, Some(Busy))
    else
      var next := s.(nextId := (s.nextId + 1) % 0x1_0000_0000);
      if outOfMemory then (next, Some(OutOfMemory))
      else
        var client := Client(s.nextId, Truncate(ip, IP_MAX), Connected, [], None, false);
        (next.(clients := [client] + s.clients), None)
  }

  /** `client_manager_disconnect_all`. */
  function DisconnectAll(s: Server): Server
    decreases |s.clients|
  {
    if s.clients == [] then s else DisconnectAll(Remove(s, 0))
  }
}
