/** The device list exchange: what the server announces and sends, and what the client makes of it. */
module Devlist {
  import opened Bytes
  import opened Config
  import opened Seqs
  import opened Structs
  import opened Net
  import opened Ownership
  import Session
  import BusIds
  import Cli
  import L = Layout

  const OP_REP_DEVLIST: uint16 := 0x0005

  // ---- What the server sends ----

  /** The interface table has 32 slots of class, subclass and protocol. */
  predicate HasInterfaces(d: Device) {
    && |d.descriptor.interfaces| == MAX_INTERFACES
    && forall k | 0 <= k < MAX_INTERFACES :: |d.descriptor.interfaces[k]| == 3
  }

  function Text(d: Device): (s: seq<byte>)
    ensures |s| == 288
  {
    Pad(d.path, PATH_MAX) + Pad(d.busid, BUSID_MAX)
  }

  function Words(d: Descriptor): (s: seq<byte>)
    ensures |s| == 12
  {
    ToLe32(d.busnum) + ToLe32(d.devnum) + ToLe32(d.speed)
  }

  function Halves(d: Descriptor): (s: seq<byte>)
    ensures |s| == 6
  {
    ToLe16(d.vendor) + ToLe16(d.product) + ToLe16(d.bcdDevice)
  }

  function Numbers(d: Descriptor): (s: seq<byte>)
    ensures |s| == 24 && s[23] == d.numInterfaces
  {
    Words(d) + Halves(d)
    + [d.deviceClass, d.subclass, d.protocol, d.configuration, d.configurations, d.numInterfaces]
  }

  /** `usb_device_to_usbip`: the 312-byte record in host memory. */
  function DeviceImage(d: Device): (s: seq<byte>)
    ensures |s| == DEVICE_SIZE && s[311] == d.descriptor.numInterfaces
  {
    Text(d) + Numbers(d.descriptor)
  }

  /** The record as it travels. */
  function Record(d: Device): (s: seq<byte>)
    ensures |s| == DEVICE_SIZE
  {
    Swap(DeviceImage(d), DEVICE_WORDS, DEVICE_HALVES)
  }

  /** The swaps leave the strings of a record alone. */
  lemma StringsStay(image: seq<byte>)
    requires |image| == DEVICE_SIZE
    ensures Swap(image, DEVICE_WORDS, DEVICE_HALVES)[..288] == image[..288]
  {
    forall i: nat | i < 288 ensures Source(i, DEVICE_WORDS, DEVICE_HALVES) == i {
      HalfWithinWord(i);
    }
  }

  /** The strings of a record as the receiver reads them, cut to their fields. */
  lemma RecordStrings(d: Device)
    requires NulFree(d.path) && NulFree(d.busid)
    ensures CStr(Record(d)[..256]) == Truncate(d.path, PATH_MAX)
    ensures CStr(Record(d)[256..288]) == Truncate(d.busid, BUSID_MAX)
  {
    var r := Record(d);
    StringsStay(DeviceImage(d));
    assert r[..288] == Text(d);
    assert r[..288][..256] == r[..256] && r[..288][256..] == r[256..288];
    CStrOfPad(d.path, PATH_MAX);
    CStrOfPad(d.busid, BUSID_MAX);
  }

  /** Both strings of a record stand at the start of zeroed fields, of which the last byte stays zero. */
  lemma RecordText(d: Device)
    ensures forall i: nat | i < 256 :: Record(d)[i] == if i < |d.path| && i < 255 then d.path[i] else 0
    ensures forall i: nat | i < 32 :: Record(d)[256 + i] == if i < |d.busid| && i < 31 then d.busid[i] else 0
  {
    var r := Record(d);
    StringsStay(DeviceImage(d));
    assert r[..288] == Text(d);
    assert forall i: nat | i < 288 :: r[i] == r[..288][i];
  }

  /** The wide numbers of a record are big-endian on the wire, and six bytes follow them. */
  lemma RecordNumbers(d: Device)
    ensures
      var r, n := Record(d), d.descriptor;
      && Big32(r, 288, n.busnum) && Big32(r, 292, n.devnum) && Big32(r, 296, n.speed)
      && Big16(r, 300, n.vendor) && Big16(r, 302, n.product) && Big16(r, 304, n.bcdDevice)
      && r[306..] == [n.deviceClass, n.subclass, n.protocol, n.configuration, n.configurations, n.numInterfaces]
  {
    WordsInRecord(d);
    HalvesInRecord(d);
    LastBytesStay(DeviceImage(d));
    SectionsOfImage(d);
  }

  /** The swaps leave the last six bytes alone. */
  lemma LastBytesStay(image: seq<byte>)
    requires |image| == DEVICE_SIZE
    ensures Swap(image, DEVICE_WORDS, DEVICE_HALVES)[306..] == image[306..]
  {
    forall i: nat | 306 <= i < 312 ensures Source(i, DEVICE_WORDS, DEVICE_HALVES) == i {
      OutsideNumbers(i);
    }
  }

  lemma WordsInRecord(d: Device)
    ensures
      var r, n := Record(d), d.descriptor;
      Big32(r, 288, n.busnum) && Big32(r, 292, n.devnum) && Big32(r, 296, n.speed)
  {
    var image, n := DeviceImage(d), d.descriptor;
    NumbersInImage(d);
    L.SwappedBig32(image, DEVICE_WORDS, DEVICE_HALVES, 288, n.busnum);
    L.SwappedBig32(image, DEVICE_WORDS, DEVICE_HALVES, 292, n.devnum);
    L.SwappedBig32(image, DEVICE_WORDS, DEVICE_HALVES, 296, n.speed);
  }

  lemma HalvesInRecord(d: Device)
    ensures
      var r, n := Record(d), d.descriptor;
      Big16(r, 300, n.vendor) && Big16(r, 302, n.product) && Big16(r, 304, n.bcdDevice)
  {
    var image, n := DeviceImage(d), d.descriptor;
    NumbersInImage(d);
    HalfInRecord(image, 300, n.vendor);
    HalfInRecord(image, 302, n.product);
    HalfInRecord(image, 304, n.bcdDevice);
  }

  lemma HalfInRecord(image: seq<byte>, at: nat, v: uint16)
    requires |image| == DEVICE_SIZE && at in DEVICE_HALVES && image[at..at + 2] == ToLe16(v)
    ensures Big16(Swap(image, DEVICE_WORDS, DEVICE_HALVES), at, v)
  {
    HalvesApart(at);
    L.SwappedBig16(image, DEVICE_WORDS, DEVICE_HALVES, at, v);
  }

  lemma NumbersInImage(d: Device)
    ensures
      var image, n := DeviceImage(d), d.descriptor;
      && image[288..292] == ToLe32(n.busnum) && image[292..296] == ToLe32(n.devnum)
      && image[296..300] == ToLe32(n.speed)
      && image[300..302] == ToLe16(n.vendor) && image[302..304] == ToLe16(n.product)
      && image[304..306] == ToLe16(n.bcdDevice)
  {
    var image, n := DeviceImage(d), d.descriptor;
    SectionsOfImage(d);
    ThreeParts(ToLe32(n.busnum), ToLe32(n.devnum), ToLe32(n.speed));
    SubSlice(image, 288, 300, 0, 4);
    SubSlice(image, 288, 300, 4, 8);
    SubSlice(image, 288, 300, 8, 12);
    ThreeParts(ToLe16(n.vendor), ToLe16(n.product), ToLe16(n.bcdDevice));
    SubSlice(image, 300, 306, 0, 2);
    SubSlice(image, 300, 306, 2, 4);
    SubSlice(image, 300, 306, 4, 6);
  }

  lemma SectionsOfImage(d: Device)
    ensures DeviceImage(d)[288..300] == Words(d.descriptor) && DeviceImage(d)[300..306] == Halves(d.descriptor)
    ensures
      var n := d.descriptor;
      DeviceImage(d)[306..]
      == [n.deviceClass, n.subclass, n.protocol, n.configuration, n.configurations, n.numInterfaces]
  {
    var image, n := DeviceImage(d), d.descriptor;
    TwoParts(Text(d), Numbers(n));
    ThreeParts(Words(n), Halves(n),
               [n.deviceClass, n.subclass, n.protocol, n.configuration, n.configurations, n.numInterfaces]);
    SubSlice(image, 288, 312, 0, 12);
    SubSlice(image, 288, 312, 12, 18);
    SubSlice(image, 288, 312, 18, 24);
    assert image[306..312] == image[306..];
  }

  function SentInterfaces(d: Device): (n: nat)
    ensures n <= 32 && (n == d.descriptor.numInterfaces || n == 32 < d.descriptor.numInterfaces)
  {
    if d.descriptor.numInterfaces < MAX_INTERFACES then d.descriptor.numInterfaces else MAX_INTERFACES
  }

  function EncodeInterfaces(d: Device, n: nat): (s: seq<byte>)
    requires HasInterfaces(d) && n <= MAX_INTERFACES
    ensures |s| == INTERFACE_SIZE * n
  {
    if n == 0 then [] else EncodeInterfaces(d, n - 1) + d.descriptor.interfaces[n - 1] + [0]
  }

  /** The records of the interfaces follow in the order of the table: class, subclass, protocol and a zero each. */
  lemma {:induction false} InterfacesLaidOut(d: Device, n: nat, k: nat)
    requires HasInterfaces(d) && k < n <= MAX_INTERFACES
    ensures
      var s, interface := EncodeInterfaces(d, n), d.descriptor.interfaces[k];
      && s[4 * k] == interface[0] && s[4 * k + 1] == interface[1] && s[4 * k + 2] == interface[2]
      && s[4 * k + 3] == 0
  {
    var front := EncodeInterfaces(d, n - 1);
    if k < n - 1 {
      InterfacesLaidOut(d, n - 1, k);
    } else {
      assert |front| == 4 * k;
    }
  }

  function EncodeDevice(d: Device): seq<byte>
    requires HasInterfaces(d)
  {
    Record(d) + EncodeInterfaces(d, SentInterfaces(d))
  }

  function EncodeDevices(ds: seq<Device>): seq<byte>
    requires forall d | d in ds :: HasInterfaces(d)
  {
    if ds == [] then [] else EncodeDevices(ds[..|ds| - 1]) + EncodeDevice(ds[|ds| - 1])
  }

  /** The devices `device_list_foreach_shared` visits, in list order. */
  function Shared(entries: seq<Entry>): (ds: seq<Device>)
    ensures |ds| <= |entries|
    ensures forall d | d in ds :: exists k | 0 <= k < |entries| :: entries[k].isShared && entries[k].device == d
  {
    if entries == [] then []
    else
      var front := Shared(entries[..|entries| - 1]);
      assert forall k | 0 <= k < |entries| - 1 :: entries[..|entries| - 1][k] == entries[k];
      if entries[|entries| - 1].isShared then front + [entries[|entries| - 1].device] else front
  }

  /** The devices sent are the shared ones in list order: each has as many before it as are shared before it. */
  lemma {:induction false} SharedInOrder(entries: seq<Entry>, k: nat)
    requires k < |entries|
    ensures |Shared(entries[..k])| <= |Shared(entries)|
    ensures entries[k].isShared ==>
      |Shared(entries[..k])| < |Shared(entries)| && Shared(entries)[|Shared(entries[..k])|] == entries[k].device
    decreases |entries|
  {
    var front := entries[..|entries| - 1];
    if k < |front| {
      SharedInOrder(front, k);
      assert front[..k] == entries[..k];
    }
  }

  /** The number `client_send_device_list` announces: shared and available entries. */
  function Announced(entries: seq<Entry>): (n: nat)
    ensures n <= |entries|
  {
    if entries == [] then 0
    else
      var last := entries[|entries| - 1];
      Announced(entries[..|entries| - 1]) + if last.isShared && last.state == Available then 1 else 0
  }

  predicate Sendable(entries: seq<Entry>) {
    |entries| < 0x1_0000_0000 && forall k | 0 <= k < |entries| :: HasInterfaces(entries[k].device)
  }

  function ReplyHeader(): BasicHeader {
    BasicHeader(Session.USBIP_PROTO_VERSION, OP_REP_DEVLIST, 0)
  }

  function Reply(entries: seq<Entry>): seq<byte>
    requires Sendable(entries)
  {
    BasicWire(ReplyHeader()) + ToBe32(Announced(entries)) + SharedBytes(entries)
  }

  function SharedBytes(entries: seq<Entry>): seq<byte>
    requires Sendable(entries)
  {
    EncodeDevices(Shared(entries))
  }

  method SendBytes(sock: Socket, data: seq<byte>) returns (ok: bool)
    modifies sock`outgoing, sock`script
    ensures forall o | o in sock.script :: o in old(sock.script)
    ensures ok ==> sock.outgoing == old(sock.outgoing) + data
    ensures Reliable(old(sock.script)) ==> ok
  {
    var n := NetSendAll(sock, data);
    ok := n == |data|;
  }

  /** `usbip_send_device`. */
  method SendRecord(sock: Socket, d: Device) returns (ok: bool, ghost sent: nat)
    modifies sock`outgoing, sock`script
    ensures forall o | o in sock.script :: o in old(sock.script)
    ensures sent <= DEVICE_SIZE && (ok <==> sent == DEVICE_SIZE)
    ensures sock.outgoing == old(sock.outgoing) + Record(d)[..sent]
    ensures Reliable(old(sock.script)) ==> ok
  {
    var packed := new byte[DEVICE_SIZE];
    Store(packed, 0, DeviceImage(d));
    assert packed[..] == DeviceImage(d);
    PackDevice(packed);
    ok, sent := Session.SendPart(sock, packed[..]);
  }

  /** The loop over the interface table. */
  method SendInterfaces(sock: Socket, d: Device) returns (ok: bool)
    requires HasInterfaces(d)
    modifies sock`outgoing, sock`script
    ensures forall o | o in sock.script :: o in old(sock.script)
    ensures ok ==> sock.outgoing == old(sock.outgoing) + EncodeInterfaces(d, SentInterfaces(d))
    ensures Reliable(old(sock.script)) ==> ok
  {
    ok := true;
    var i: nat := 0;
    while i < d.descriptor.numInterfaces && i < MAX_INTERFACES
      invariant i <= SentInterfaces(d)
      invariant sock.outgoing == old(sock.outgoing) + EncodeInterfaces(d, i)
      invariant forall o | o in sock.script :: o in old(sock.script)
      invariant ok
      decreases SentInterfaces(d) - i
    {
      ok := SendBytes(sock, d.descriptor.interfaces[i] + [0]);
      if !ok {
        return;
      }
      i := i + 1;
    }
  }

  /** `send_device_callback`. */
  method SendDevice(sock: Socket, d: Device) returns (ok: bool)
    requires HasInterfaces(d)
    modifies sock`outgoing, sock`script
    ensures forall o | o in sock.script :: o in old(sock.script)
    ensures ok ==> sock.outgoing == old(sock.outgoing) + EncodeDevice(d)
    ensures Reliable(old(sock.script)) ==> ok
  {
    ghost var moved;
    ok, moved := SendRecord(sock, d);
    if !ok {
      return;
    }
    assert Record(d)[..moved] == Record(d);
    Associative(old(sock.outgoing), Record(d), EncodeInterfaces(d, SentInterfaces(d)));
    ok := SendInterfaces(sock, d);
  }

  /** The counting loop. */
  method CountAnnounced(entries: seq<Entry>) returns (n: nat)
    ensures n == Announced(entries)
  {
    n := 0;
    var k: nat := 0;
    while k < |entries|
      invariant k <= |entries| && n == Announced(entries[..k])
    {
      assert entries[..k + 1][..k] == entries[..k];
      if entries[k].isShared && entries[k].state == Available {
        n := n + 1;
      }
      k := k + 1;
    }
    assert entries[..|entries|] == entries;
  }

  /** What the callback sends for one entry of the list. */
  function EntryBytes(e: Entry): seq<byte>
    requires HasInterfaces(e.device)
  {
    if e.isShared then EncodeDevice(e.device) else []
  }

  method SendEntry(sock: Socket, e: Entry) returns (ok: bool)
    requires HasInterfaces(e.device)
    modifies sock`outgoing, sock`script
    ensures forall o | o in sock.script :: o in old(sock.script)
    ensures ok ==> sock.outgoing == old(sock.outgoing) + EntryBytes(e)
    ensures Reliable(old(sock.script)) ==> ok
  {
    ok := true;
    if e.isShared {
      ok := SendDevice(sock, e.device);
    }
  }

  /** `device_list_foreach_shared` with the sending callback. */
  method SendShared(sock: Socket, entries: seq<Entry>) returns (ok: bool)
    requires Sendable(entries)
    modifies sock`outgoing, sock`script
    ensures ok ==> sock.outgoing == old(sock.outgoing) + SharedBytes(entries)
    ensures Reliable(old(sock.script)) ==> ok
  {
    ok := true;
    var k: nat := 0;
    ghost var sent: seq<byte> := [];
    while k < |entries|
      invariant k <= |entries| && ok && sent == SharedBytes(entries[..k])
      invariant sock.outgoing == old(sock.outgoing) + sent
      invariant forall o | o in sock.script :: o in old(sock.script)
    {
      SharedNext(entries, k);
      Associative(old(sock.outgoing), sent, EntryBytes(entries[k]));
      ok := SendEntry(sock, entries[k]);
      if !ok {
        return;
      }
      k, sent := k + 1, sent + EntryBytes(entries[k]);
    }
    assert entries[..|entries|] == entries;
  }

  method SendReplyHeader(sock: Socket, n: uint32) returns (ok: bool)
    modifies sock`outgoing, sock`script
    ensures forall o | o in sock.script :: o in old(sock.script)
    ensures ok ==> sock.outgoing == old(sock.outgoing) + (BasicWire(ReplyHeader()) + ToBe32(n))
    ensures Reliable(old(sock.script)) ==> ok
  {
    ok := SendBytes(sock, BasicWire(ReplyHeader()));
    if ok {
      ok := SendBytes(sock, ToBe32(n));
    }
  }

  /** `client_send_device_list`. */
  method SendDeviceList(sock: Socket, entries: seq<Entry>) returns (ok: bool)
    requires Sendable(entries)
    modifies sock`outgoing, sock`script
    ensures ok ==> sock.outgoing == old(sock.outgoing) + Reply(entries)
    ensures Reliable(old(sock.script)) ==> ok
  {
    var n := CountAnnounced(entries);
    ok := SendReplyHeader(sock, n);
    if ok {
      Associative(old(sock.outgoing), BasicWire(ReplyHeader()) + ToBe32(n), SharedBytes(entries));
      ok := SendShared(sock, entries);
    }
  }

  lemma SharedNext(entries: seq<Entry>, k: nat)
    requires Sendable(entries) && k < |entries|
    ensures SharedBytes(entries[..k + 1]) == SharedBytes(entries[..k]) + EntryBytes(entries[k])
  {
    assert entries[..k + 1][..k] == entries[..k];
    var front := Shared(entries[..k]);
    if entries[k].isShared {
      assert (front + [entries[k].device])[..|front|] == front;
    }
  }

  /** The reply starts with an 8-byte header without error and the number announced, in 32 bits. */
  lemma ReplyLaidOut(entries: seq<Entry>)
    requires Sendable(entries)
    ensures
      var r := Reply(entries);
      L.IsBasicHeader(r, 0x0111, 0x0005, 0) && Big32(r, 8, Announced(entries)) && r[12..] == SharedBytes(entries)
  {
    var header, n, body := BasicWire(ReplyHeader()), ToBe32(Announced(entries)), SharedBytes(entries);
    L.BasicWireLaidOut(ReplyHeader());
    Associative(header, n, body);
    L.BasicInFront(header, n + body, 0x0111, 0x0005, 0);
    ThreeParts(header, n, body);
    Be32IsBig(Reply(entries), 8);
  }

  // ---- What the client makes of it ----

  /** What is left after skipping n bytes, or reaching the end. */
  function Skipped(stream: seq<byte>, n: nat): (rest: seq<byte>)
    ensures |rest| <= |stream|
  {
    if n <= |stream| then stream[n..] else []
  }

  /** One record and what the client skips after it: as many interface records as the record announces. */
  function TakeDevice(stream: seq<byte>): (r: Option<(seq<byte>, seq<byte>)>)
    ensures r.Some? ==> |r.value.1| < |stream|
  {
    if |stream| < DEVICE_SIZE then None
    else
      var image := Swap(stream[..DEVICE_SIZE], DEVICE_WORDS, DEVICE_HALVES);
      Some((image, Skipped(stream[DEVICE_SIZE..], INTERFACE_SIZE * image[311])))
  }

  /** What a reader that takes one item at a time makes of a stream with n items when there is room for `room`. */
  function Collect<T>(step: seq<byte> -> Option<(T, seq<byte>)>, stream: seq<byte>, n: nat, room: nat): (items: seq<T>)
    ensures |items| <= n && |items| <= room
    decreases n
  {
    if n == 0 || room == 0 then []
    else
      var r := step(stream);
      if r.None? then [] else [r.value.0] + Collect(step, r.value.1, n - 1, room - 1)
  }

  /** The records of a list of n devices for a caller with room for `room`. */
  function TakeDevices(stream: seq<byte>, n: nat, room: nat): (images: seq<seq<byte>>)
    ensures |images| <= n && |images| <= room
  {
    Collect(TakeDevice, stream, n, room)
  }

  datatype Listing = NotReceived | Rejected | Listed(images: seq<seq<byte>>)

  /** The outcome of `remote_server_list_devices` for what the server has answered. */
  function ReadListing(stream: seq<byte>, room: nat): Listing {
    if |stream| < HEADER_BASIC_SIZE then NotReceived
    else if BasicUnwire(stream[..HEADER_BASIC_SIZE]).status != 0 then Rejected
    else if |stream| < HEADER_BASIC_SIZE + 4 then NotReceived
    else
      var ndev := Be32(stream[HEADER_BASIC_SIZE..HEADER_BASIC_SIZE + 4]);
      Listed(TakeDevices(stream[HEADER_BASIC_SIZE + 4..], ndev, room))
  }

  /** What the client makes of the bytes: bytes 4 to 7 are the status and bytes 8 to 11 the number of devices. */
  lemma ListingRead(stream: seq<byte>, room: nat)
    ensures
      var listing := ReadListing(stream, room);
      && (|stream| < 8 ==> listing == NotReceived)
      && (|stream| >= 8 && !Big32(stream, 4, 0) ==> listing == Rejected)
      && (8 <= |stream| < 12 && Big32(stream, 4, 0) ==> listing == NotReceived)
      && (|stream| >= 12 && Big32(stream, 4, 0) ==>
            var ndev := Be32(stream[8..12]);
            Big32(stream, 8, ndev) && listing == Listed(TakeDevices(stream[12..], ndev, room)))
  {
    if |stream| >= 8 {
      L.BasicUnwireLaidOut(stream[..8]);
      assert forall i | 0 <= i < 8 :: stream[..8][i] == stream[i];
    }
    if |stream| >= 12 {
      Be32IsBig(stream, 8);
    }
  }

  /** `usbip_recv_device`. */
  method ReceiveRecord(sock: Socket) returns (image: Option<seq<byte>>)
    modifies sock`incoming, sock`script
    ensures forall o | o in sock.script :: o in old(sock.script)
    ensures image.Some? ==> |old(sock.incoming)| >= DEVICE_SIZE && sock.incoming == old(sock.incoming)[DEVICE_SIZE..]
    ensures image.Some? ==> image.value == Swap(old(sock.incoming)[..DEVICE_SIZE], DEVICE_WORDS, DEVICE_HALVES)
    ensures image.None? && Failed !in old(sock.script) ==> |old(sock.incoming)| < DEVICE_SIZE
  {
    var buf := new byte[DEVICE_SIZE];
    var n := NetRecvAll(sock, buf, DEVICE_SIZE);
    if n != DEVICE_SIZE {
      return None;
    }
    assert buf[..n] == buf[..] && old(sock.incoming)[..DEVICE_SIZE] == buf[..];
    PackDevice(buf);
    image := Some(buf[..]);
  }

  /** The loop that skips the interface records; a failure only ends the loop. */
  method SkipInterfaces(sock: Socket, count: nat)
    modifies sock`incoming, sock`script
    ensures forall o | o in sock.script :: o in old(sock.script)
    ensures Failed !in old(sock.script) ==> sock.incoming == Skipped(old(sock.incoming), INTERFACE_SIZE * count)
  {
    var buf := new byte[INTERFACE_SIZE];
    var j: nat := 0;
    while j < count
      invariant j <= count
      invariant forall o | o in sock.script :: o in old(sock.script)
      invariant Failed !in old(sock.script) ==>
        INTERFACE_SIZE * j <= |old(sock.incoming)| && sock.incoming == old(sock.incoming)[INTERFACE_SIZE * j..]
    {
      var n := NetRecvAll(sock, buf, INTERFACE_SIZE);
      if n != INTERFACE_SIZE {
        break;
      }
      j := j + 1;
    }
  }

  /** A record and the interface records after it. */
  method ReceiveDevice(sock: Socket) returns (image: Option<seq<byte>>)
    modifies sock`incoming, sock`script
    ensures forall o | o in sock.script :: o in old(sock.script)
    ensures Failed !in old(sock.script) ==>
      TakeDevice(old(sock.incoming)) == if image.Some? then Some((image.value, sock.incoming)) else None
  {
    image := ReceiveRecord(sock);
    if image.Some? {
      SkipInterfaces(sock, image.value[311]);
    }
  }

  /** What has been collected and what is left make up the whole. */
  predicate Collecting<T(==)>(step: seq<byte> -> Option<(T, seq<byte>)>, items: seq<T>, stream: seq<byte>,
                              n: nat, room: nat, all: seq<T>)
  {
    items + Collect(step, stream, n, room) == all
  }

  lemma CollectOne<T>(step: seq<byte> -> Option<(T, seq<byte>)>, items: seq<T>, stream: seq<byte>,
                      n: nat, room: nat, all: seq<T>)
    requires Collecting(step, items, stream, n, room, all) && n > 0 && room > 0 && step(stream).Some?
    ensures Collecting(step, items + [step(stream).value.0], step(stream).value.1, n - 1, room - 1, all)
  {
    Associative(items, [step(stream).value.0], Collect(step, step(stream).value.1, n - 1, room - 1));
  }

  lemma CollectNone<T>(step: seq<byte> -> Option<(T, seq<byte>)>, items: seq<T>, stream: seq<byte>,
                       n: nat, room: nat, all: seq<T>)
    requires Collecting(step, items, stream, n, room, all) && (n == 0 || room == 0 || step(stream).None?)
    ensures items == all
  {
    assert items + [] == items;
  }

  lemma CollectStart<T>(step: seq<byte> -> Option<(T, seq<byte>)>, stream: seq<byte>, n: nat, room: nat)
    ensures Collecting(step, [], stream, n, room, Collect(step, stream, n, room))
  {
    var all := Collect(step, stream, n, room);
    assert [] + all == all;
  }

  /** The receiving loop of `remote_server_list_devices`. */
  method ReceiveDevices(sock: Socket, ndev: nat, room: nat) returns (images: seq<seq<byte>>)
    modifies sock`incoming, sock`script
    ensures |images| <= room
    ensures Failed !in old(sock.script) ==> images == TakeDevices(old(sock.incoming), ndev, room)
  {
    images := [];
    ghost var all := TakeDevices(sock.incoming, ndev, room);
    CollectStart(TakeDevice, sock.incoming, ndev, room);
    var i: nat := 0;
    while i < ndev && |images| < room
      invariant i <= ndev && |images| == i <= room
      invariant forall o | o in sock.script :: o in old(sock.script)
      invariant Failed !in old(sock.script) ==> Collecting(TakeDevice, images, sock.incoming, ndev - i, room - i, all)
    {
      ghost var before := sock.incoming;
      var image := ReceiveDevice(sock);
      if image.None? {
        if Failed !in old(sock.script) {
          CollectNone(TakeDevice, images, before, ndev - i, room - i, all);
        }
        return;
      }
      if Failed !in old(sock.script) {
        CollectOne(TakeDevice, images, before, ndev - i, room - i, all);
      }
      images := images + [image.value];
      i := i + 1;
    }
    if Failed !in old(sock.script) {
      CollectNone(TakeDevice, images, sock.incoming, ndev - i, room - i, all);
    }
  }

  /** The status of the reply header. */
  method ReceiveStatus(sock: Socket) returns (status: Option<uint32>)
    modifies sock`incoming, sock`script
    ensures forall o | o in sock.script :: o in old(sock.script)
    ensures status.Some? ==>
      |old(sock.incoming)| >= HEADER_BASIC_SIZE && sock.incoming == old(sock.incoming)[HEADER_BASIC_SIZE..]
    ensures status.Some? ==> status.value == BasicUnwire(old(sock.incoming)[..HEADER_BASIC_SIZE]).status
    ensures status.None? && Failed !in old(sock.script) ==> |old(sock.incoming)| < HEADER_BASIC_SIZE
  {
    var buf := new byte[HEADER_BASIC_SIZE];
    var n := NetRecvAll(sock, buf, HEADER_BASIC_SIZE);
    if n != HEADER_BASIC_SIZE {
      return None;
    }
    assert buf[..n] == buf[..] && old(sock.incoming)[..HEADER_BASIC_SIZE] == buf[..];
    PackHeaderBasic(buf);
    status := Some(BasicHeaderOf(buf[..]).status);
  }

  method ReceiveCount(sock: Socket) returns (ndev: Option<uint32>)
    modifies sock`incoming, sock`script
    ensures forall o | o in sock.script :: o in old(sock.script)
    ensures ndev.Some? ==> |old(sock.incoming)| >= 4 && sock.incoming == old(sock.incoming)[4..]
    ensures ndev.Some? ==> ndev.value == Be32(old(sock.incoming)[..4])
    ensures ndev.None? && Failed !in old(sock.script) ==> |old(sock.incoming)| < 4
  {
    var buf := new byte[4];
    var n := NetRecvAll(sock, buf, 4);
    if n != 4 {
      return None;
    }
    assert buf[..n] == buf[..] && old(sock.incoming)[..4] == buf[..];
    ndev := Some(Be32(buf[..]));
  }

  lemma ReadingListing(stream: seq<byte>, room: nat)
    requires |stream| >= HEADER_BASIC_SIZE && BasicUnwire(stream[..HEADER_BASIC_SIZE]).status == 0
    ensures
      var body := stream[HEADER_BASIC_SIZE..];
      ReadListing(stream, room)
      == if |body| < 4 then NotReceived else Listed(TakeDevices(body[4..], Be32(body[..4]), room))
  {
    var body := stream[HEADER_BASIC_SIZE..];
    if |body| >= 4 {
      assert body[..4] == stream[HEADER_BASIC_SIZE..HEADER_BASIC_SIZE + 4];
      assert body[4..] == stream[HEADER_BASIC_SIZE + 4..];
    }
  }

  /** `remote_server_list_devices` once the request has been sent. */
  method ReceiveListing(sock: Socket, room: nat) returns (listing: Listing)
    modifies sock`incoming, sock`script
    ensures listing.Listed? ==> |listing.images| <= room
    ensures Failed !in old(sock.script) ==> listing == ReadListing(old(sock.incoming), room)
  {
    var status := ReceiveStatus(sock);
    if status.None? {
      return NotReceived;
    }
    if status.value != 0 {
      return Rejected;
    }
    ReadingListing(old(sock.incoming), room);
    var ndev := ReceiveCount(sock);
    if ndev.None? {
      return NotReceived;
    }
    var images := ReceiveDevices(sock, ndev.value, room);
    listing := Listed(images);
  }

  // ---- The exchange as a whole ----

  lemma TakeDeviceOf(record: seq<byte>, tail: seq<byte>)
    requires |record| == DEVICE_SIZE
    ensures
      var image := Swap(record, DEVICE_WORDS, DEVICE_HALVES);
      TakeDevice(record + tail) == Some((image, Skipped(tail, INTERFACE_SIZE * image[311])))
  {
    TwoParts(record, tail);
  }

  lemma DeviceRead(d: Device, rest: seq<byte>)
    requires HasInterfaces(d)
    ensures
      var tail := EncodeInterfaces(d, SentInterfaces(d)) + rest;
      TakeDevice(EncodeDevice(d) + rest)
      == Some((DeviceImage(d), Skipped(tail, INTERFACE_SIZE * d.descriptor.numInterfaces)))
  {
    var sent := EncodeInterfaces(d, SentInterfaces(d));
    SwapInvolution(DeviceImage(d), DEVICE_WORDS, DEVICE_HALVES);
    Associative(Record(d), sent, rest);
    TakeDeviceOf(Record(d), sent + rest);
  }

  /** Skipping as many as announced leaves what follows exactly if no more than 32 are, or nothing follows. */
  lemma SkipIff(sent: seq<byte>, rest: seq<byte>, announced: nat)
    requires |sent| == INTERFACE_SIZE * if announced < MAX_INTERFACES then announced else MAX_INTERFACES
    ensures Skipped(sent + rest, INTERFACE_SIZE * announced) == rest <==> announced <= MAX_INTERFACES || rest == []
  {
    var skipped, tail := INTERFACE_SIZE * announced, sent + rest;
    if announced <= MAX_INTERFACES {
      assert tail[skipped..] == rest;
    } else if skipped <= |tail| {
      assert |tail[skipped..]| < |rest|;
    }
  }

  /** A device and what follows are read back aligned exactly if it has at most 32 interfaces, or nothing follows. */
  lemma DeviceRoundTripIff(d: Device, rest: seq<byte>)
    requires HasInterfaces(d)
    ensures TakeDevice(EncodeDevice(d) + rest).Some?
    ensures TakeDevice(EncodeDevice(d) + rest).value.0 == DeviceImage(d)
    ensures TakeDevice(EncodeDevice(d) + rest).value.1 == rest <==> d.descriptor.numInterfaces <= 32 || rest == []
  {
    DeviceRead(d, rest);
    SkipIff(EncodeInterfaces(d, SentInterfaces(d)), rest, d.descriptor.numInterfaces);
  }

  /** How far too late the next record is read: four bytes for each interface beyond the 32 that are sent. */
  function Late(announced: nat): nat {
    if announced <= 32 then 0 else 4 * (announced - 32)
  }

  lemma SkipLate(sent: seq<byte>, rest: seq<byte>, announced: nat)
    requires |sent| == INTERFACE_SIZE * if announced < MAX_INTERFACES then announced else MAX_INTERFACES
    ensures Skipped(sent + rest, INTERFACE_SIZE * announced) == Skipped(rest, Late(announced))
  {
  }

  /** Wherever the next record is read too late, it is by the interfaces that were not sent. */
  lemma ReadLate(d: Device, rest: seq<byte>)
    requires HasInterfaces(d)
    ensures
      TakeDevice(EncodeDevice(d) + rest) == Some((DeviceImage(d), Skipped(rest, Late(d.descriptor.numInterfaces))))
  {
    DeviceRead(d, rest);
    SkipLate(EncodeInterfaces(d, SentInterfaces(d)), rest, d.descriptor.numInterfaces);
  }

  predicate AllFilled(ds: seq<Device>) {
    forall k | 0 <= k < |ds| :: HasInterfaces(ds[k])
  }

  /** The first n devices have at most 32 interfaces each. */
  predicate Aligned(ds: seq<Device>, n: int) {
    forall k | 0 <= k < |ds| && k < n :: ds[k].descriptor.numInterfaces <= MAX_INTERFACES
  }

  lemma {:induction false} EncodeFirst(ds: seq<Device>)
    requires ds != [] && forall d | d in ds :: HasInterfaces(d)
    ensures EncodeDevices(ds) == EncodeDevice(ds[0]) + EncodeDevices(ds[1..])
    decreases |ds|
  {
    if |ds| == 1 {
      var bytes := EncodeDevice(ds[0]);
      assert EncodeDevices(ds[..0]) == [] && EncodeDevices(ds[1..]) == [] && [] + bytes == bytes == bytes + [];
    } else {
      DropBothEnds(ds);
      EncodeFirst(ds[..|ds| - 1]);
      Associative(EncodeDevice(ds[0]), EncodeDevices(ds[1..][..|ds| - 2]), EncodeDevice(ds[|ds| - 1]));
    }
  }

  function Least(n: nat, room: nat): (k: nat)
    ensures k <= n && k <= room && (k == n || k == room)
  {
    if n < room then n else room
  }

  /** Each step yields its item, and all but the last one taken leave the reader at the next. */
  predicate Yields<T(==)>(step: seq<byte> -> Option<(T, seq<byte>)>, streams: seq<seq<byte>>, items: seq<T>, k: nat,
                          end: nat)
    requires k < |items| && |streams| == |items| + 1
  {
    var r := step(streams[k]);
    r.Some? && r.value.0 == items[k] && (k + 1 < end ==> r.value.1 == streams[k + 1])
  }

  lemma {:induction false} CollectAll<T>(step: seq<byte> -> Option<(T, seq<byte>)>, streams: seq<seq<byte>>,
                                         items: seq<T>, i: nat, n: nat, room: nat, end: nat)
    requires |streams| == |items| + 1 && end == i + Least(n, room) <= |items|
    requires forall k: nat | i <= k < end :: Yields(step, streams, items, k, end)
    ensures Collect(step, streams[i], n, room) == items[i..end]
    decreases n
  {
    if n > 0 && room > 0 {
      assert Yields(step, streams, items, i, end);
      var r := step(streams[i]);
      if n > 1 && room > 1 {
        CollectAll(step, streams, items, i + 1, n - 1, room - 1, end);
        var tail := Collect(step, streams[i + 1], n - 1, room - 1);
        SliceLonger(Collect(step, streams[i], n, room), tail, items, i, Least(n - 1, room - 1));
      } else {
        assert Collect(step, r.value.1, n - 1, room - 1) == [];
        assert items[i..i + 1] == [items[i]];
      }
    }
  }

  function Images(ds: seq<Device>): (images: seq<seq<byte>>)
    ensures |images| == |ds| && forall k | 0 <= k < |ds| :: images[k] == DeviceImage(ds[k])
  {
    seq(|ds|, k requires 0 <= k < |ds| => DeviceImage(ds[k]))
  }

  /** The bytes left to read before each device, and at the end. */
  function Tails(ds: seq<Device>): (streams: seq<seq<byte>>)
    requires AllFilled(ds)
    ensures |streams| == |ds| + 1
    ensures forall k | 0 <= k <= |ds| :: AllFilled(ds[k..]) && streams[k] == EncodeDevices(ds[k..])
  {
    seq(|ds| + 1, k requires 0 <= k <= |ds| => EncodeDevices(ds[k..]))
  }

  lemma DeviceTaken(ds: seq<Device>, k: nat, end: nat)
    requires AllFilled(ds) && k < |ds| && (k + 1 < end ==> ds[k].descriptor.numInterfaces <= MAX_INTERFACES)
    ensures Yields(TakeDevice, Tails(ds), Images(ds), k, end)
  {
    EncodeFirst(ds[k..]);
    assert ds[k..][1..] == ds[k + 1..];
    DeviceRoundTripIff(ds[k], EncodeDevices(ds[k + 1..]));
  }

  lemma TailsStart(ds: seq<Device>)
    requires AllFilled(ds)
    ensures Tails(ds)[0] == EncodeDevices(ds)
  {
    assert ds[0..] == ds;
  }

  lemma DevicesRoundTrip(ds: seq<Device>, n: nat, room: nat)
    requires AllFilled(ds) && n <= |ds| && Aligned(ds, Least(n, room) - 1)
    ensures TakeDevices(EncodeDevices(ds), n, room) == Images(ds)[..Least(n, room)]
  {
    var end := Least(n, room);
    forall k: nat | k < end ensures Yields(TakeDevice, Tails(ds), Images(ds), k, end) {
      DeviceTaken(ds, k, end);
    }
    TailsStart(ds);
    CollectAll(TakeDevice, Tails(ds), Images(ds), 0, n, room, end);
  }

  lemma {:induction false} AnnouncedAtMostShared(entries: seq<Entry>)
    ensures Announced(entries) <= |Shared(entries)|
    ensures Announced(entries) == |Shared(entries)| <==>
      forall k | 0 <= k < |entries| && entries[k].isShared :: entries[k].state == Available
    decreases |entries|
  {
    if entries != [] {
      var front := entries[..|entries| - 1];
      AnnouncedAtMostShared(front);
      assert forall k | 0 <= k < |front| :: front[k] == entries[k];
    }
  }

  lemma SharedFilled(entries: seq<Entry>)
    requires Sendable(entries)
    ensures AllFilled(Shared(entries))
  {
    forall k | 0 <= k < |Shared(entries)| ensures HasInterfaces(Shared(entries)[k]) {
      assert Shared(entries)[k] in Shared(entries);
    }
  }

  lemma ReadListingOf(header: seq<byte>, ndev: seq<byte>, body: seq<byte>, room: nat)
    requires |header| == HEADER_BASIC_SIZE && |ndev| == 4 && BasicUnwire(header).status == 0
    ensures ReadListing(header + ndev + body, room) == Listed(TakeDevices(body, Be32(ndev), room))
  {
    var stream := header + ndev + body;
    assert stream[..HEADER_BASIC_SIZE] == header;
    assert stream[HEADER_BASIC_SIZE..HEADER_BASIC_SIZE + 4] == ndev && stream[HEADER_BASIC_SIZE + 4..] == body;
  }

  lemma ReplyRead(entries: seq<Entry>, room: nat)
    requires Sendable(entries)
    ensures
      ReadListing(Reply(entries), room) == Listed(TakeDevices(SharedBytes(entries), Announced(entries), room))
  {
    BasicUnwireOfWire(ReplyHeader());
    ReadListingOf(BasicWire(ReplyHeader()), ToBe32(Announced(entries)), SharedBytes(entries), room);
  }

  /**
   * The client gets the first of the shared devices in list order, unchanged, as many as were announced and
   * it has room for, if all of these but the last have at most 32 interfaces.
   */
  lemma DevlistRoundTrip(entries: seq<Entry>, room: nat)
    requires Sendable(entries) && Aligned(Shared(entries), Least(Announced(entries), room) - 1)
    ensures
      var n := Announced(entries);
      && n <= |Shared(entries)|
      && ReadListing(Reply(entries), room) == Listed(Images(Shared(entries))[..Least(n, room)])
  {
    AnnouncedAtMostShared(entries);
    SharedFilled(entries);
    DevicesRoundTrip(Shared(entries), Announced(entries), room);
    ReplyRead(entries, room);
  }

  /** In every state the server gets to, its list can be sent, and no device has more than one interface. */
  lemma ReachedIsSendable(devices: seq<Device>, filter: seq<byte>, s: Cli.State)
    requires BusIds.AllEnumerated(devices) && Cli.ReachableFrom(BusIds.Started(devices, filter), s)
    ensures Sendable(s.server.entries) && Aligned(Shared(s.server.entries), |Shared(s.server.entries)|)
  {
    var start, entries := BusIds.Started(devices, filter).entries, s.server.entries;
    BusIds.StartedDevices(devices, filter);
    Cli.ReachedDevices(BusIds.Started(devices, filter), s);
    forall k | 0 <= k < |entries| ensures BusIds.EnumeratedDescriptor(entries[k].device.descriptor) {
      assert Cli.SameDevice(start[k], entries[k]) && BusIds.Enumerated(start[k].device);
    }
    forall k | 0 <= k < |Shared(entries)| ensures Shared(entries)[k].descriptor.numInterfaces <= MAX_INTERFACES {
      assert Shared(entries)[k] in Shared(entries);
    }
  }

  /**
   * Whatever devices are plugged in and whichever are shared, whenever the server answers a device list
   * request, what it announces is what it sends: all shared devices. The client gets them all unchanged, or
   * as many as it has room for.
   */
  lemma DevlistAgreement(devices: seq<Device>, filter: seq<byte>, s: Cli.State, room: nat)
    requires BusIds.AllEnumerated(devices)
    requires Cli.ReachableFrom(BusIds.Started(devices, filter), s) && Cli.Browsing(s)
    ensures
      var shared := Shared(s.server.entries);
      && Sendable(s.server.entries) && Announced(s.server.entries) == |shared|
      && ReadListing(Reply(s.server.entries), room) == Listed(Images(shared)[..Least(|shared|, room)])
  {
    BusIds.StartsUp(devices, filter);
    Cli.BrowsersSeeAllAvailable(s);
    ReachedIsSendable(devices, filter, s);
    AnnouncedAtMostShared(s.server.entries);
    DevlistRoundTrip(s.server.entries, room);
  }
}
