/** The import reply: how an attach's outcome reaches the client (client_handle_import, remote_device_connect). */
module Import {
  import opened Bytes
  import opened Seqs
  import opened Structs
  import opened Net
  import O = Ownership
  import Devlist
  import L = Layout
  import Session

  const OP_REP_IMPORT: uint16 := 0x0003
  const ST_OK: uint32 := 0
  const ST_NA: uint32 := 1
  const ST_DEV_BUSY: uint32 := 2

  /** The status sent for the outcome of an attach. */
  function Status(error: Option<O.Error>): uint32 {
    if error == None then ST_OK else if error.value.DeviceBusy? then ST_DEV_BUSY else ST_NA
  }

  function ReplyHeader(error: Option<O.Error>): BasicHeader {
    BasicHeader(Session.USBIP_PROTO_VERSION, OP_REP_IMPORT, Status(error))
  }

  /** The reply of `client_handle_import`: a device record follows success only. */
  function Reply(error: Option<O.Error>, d: O.Device): seq<byte> {
    BasicWire(ReplyHeader(error)) + if error == None then Devlist.Record(d) else []
  }

  /** What the client makes of it: the record and what follows it, or why there is none. */
  datatype Outcome = Incomplete | Busy | NotFound | Imported(image: seq<byte>, rest: seq<byte>)

  function Read(stream: seq<byte>): Outcome {
    if |stream| < HEADER_BASIC_SIZE then Incomplete
    else
      var status := BasicUnwire(stream[..HEADER_BASIC_SIZE]).status;
      var body := stream[HEADER_BASIC_SIZE..];
      if status != ST_OK then (if status == ST_DEV_BUSY then Busy else NotFound)
      else if |body| < DEVICE_SIZE then Incomplete
      else Imported(Swap(body[..DEVICE_SIZE], DEVICE_WORDS, DEVICE_HALVES), body[DEVICE_SIZE..])
  }

  lemma ReadHeader(h: BasicHeader, body: seq<byte>)
    ensures (BasicWire(h) + body)[..HEADER_BASIC_SIZE] == BasicWire(h)
    ensures (BasicWire(h) + body)[HEADER_BASIC_SIZE..] == body
    ensures BasicUnwire(BasicWire(h)) == h
  {
    BasicUnwireOfWire(h);
  }

  /**
   * The client learns the outcome: the device unchanged on success, "busy" exactly for a device in use, and
   * "not found" for every other error, with the URB traffic after a success untouched.
   */
  lemma ReplyRoundTrip(error: Option<O.Error>, d: O.Device, rest: seq<byte>)
    ensures error == None ==> Read(Reply(error, d) + rest) == Imported(Devlist.DeviceImage(d), rest)
    ensures error.Some? ==> Read(Reply(error, d)) == if error.value.DeviceBusy? then Busy else NotFound
  {
    var h := ReplyHeader(error);
    var record := Devlist.Record(d);
    if error == None {
      Associative(BasicWire(h), record, rest);
      ReadHeader(h, record + rest);
      assert (record + rest)[..DEVICE_SIZE] == record && (record + rest)[DEVICE_SIZE..] == rest;
      SwapInvolution(Devlist.DeviceImage(d), DEVICE_WORDS, DEVICE_HALVES);
    } else {
      ReadHeader(h, []);
    }
  }

  /** The reply's header tells success by status 0, a device in use by 2 and any other failure by 1. */
  lemma ReplyLaidOut(error: Option<O.Error>, d: O.Device)
    ensures
      var r := Reply(error, d);
      && L.IsBasicHeader(r, 0x0111, 0x0003, if error == None then 0 else if error == Some(O.DeviceBusy) then 2 else 1)
      && |r| == (if error == None then 320 else 8) && (error == None ==> r[8..] == Devlist.Record(d))
  {
    var h := ReplyHeader(error);
    var body := if error == None then Devlist.Record(d) else [];
    L.BasicWireLaidOut(h);
    L.BasicInFront(BasicWire(h), body, h.version, h.command, h.status);
    TwoParts(BasicWire(h), body);
  }

  /** What the client makes of the bytes of a reply: only the status decides, and after success the record. */
  lemma ReplyRead(stream: seq<byte>)
    ensures
      var outcome := Read(stream);
      && (outcome == Incomplete <==> |stream| < 8 || (Big32(stream, 4, 0) && |stream| < 320))
      && (outcome == Busy <==> |stream| >= 8 && Big32(stream, 4, 2))
      && (outcome == NotFound <==> |stream| >= 8 && !Big32(stream, 4, 0) && !Big32(stream, 4, 2))
      && (outcome.Imported? ==> outcome.rest == stream[320..] && DeviceReversed(stream[8..320], outcome.image))
  {
    if |stream| >= 8 {
      L.BasicUnwireLaidOut(stream[..8]);
      assert forall i | 0 <= i < 8 :: stream[..8][i] == stream[i];
    }
    if |stream| >= 320 {
      var body := stream[8..];
      assert body[..312] == stream[8..320] && body[312..] == stream[320..];
      DeviceSwapped(body[..312]);
    }
  }

  /** What the client makes of the reply alone. */
  function Learnt(error: Option<O.Error>, d: O.Device): Outcome {
    match error
    case None => Imported(Devlist.DeviceImage(d), [])
    case Some(e) => if e.DeviceBusy? then Busy else NotFound
  }

  lemma ReplyAlone(error: Option<O.Error>, d: O.Device)
    ensures Read(Reply(error, d)) == Learnt(error, d)
  {
    ReplyRoundTrip(error, d, []);
    assert Reply(error, d) + [] == Reply(error, d);
  }

  // ---- The exchange ----

  /**
   * The sending part of `client_handle_import`. What is on the wire is the first `sent` bytes of the reply:
   * the header went out exactly if they include it, and the record, which is attempted only after that, exactly
   * if they are the whole reply to a success.
   */
  method SendReply(sock: Socket, error: Option<O.Error>, d: O.Device)
    returns (headerSent: bool, deviceSent: bool, ghost sent: nat)
    modifies sock`outgoing, sock`script
    ensures forall o | o in sock.script :: o in old(sock.script)
    ensures sent <= |Reply(error, d)| && sock.outgoing == old(sock.outgoing) + Reply(error, d)[..sent]
    ensures headerSent <==> sent >= HEADER_BASIC_SIZE
    ensures deviceSent <==> error == None && sent == |Reply(error, d)|
    ensures Reliable(old(sock.script)) ==> sent == |Reply(error, d)|
  {
    ghost var out := sock.outgoing;
    deviceSent := false;
    headerSent, sent := Session.SendPart(sock, BasicWire(ReplyHeader(error)));
    PartOfReply(out, error, d, sent, 0);
    if headerSent && error == None {
      ghost var k;
      deviceSent, k := Devlist.SendRecord(sock, d);
      PartOfReply(out, error, d, sent, k);
      sent := sent + k;
    }
  }

  lemma PartOfReply(out: seq<byte>, error: Option<O.Error>, d: O.Device, h: nat, k: nat)
    requires h <= HEADER_BASIC_SIZE && k <= DEVICE_SIZE
    ensures Reply(error, d)[..h] == BasicWire(ReplyHeader(error))[..h]
    ensures h == HEADER_BASIC_SIZE && error == None ==>
      out + Reply(error, d)[..h] + Devlist.Record(d)[..k] == out + Reply(error, d)[..h + k]
  {
    var header, record := BasicWire(ReplyHeader(error)), Devlist.Record(d);
    if h == HEADER_BASIC_SIZE && error == None {
      assert header[..h] == header;
      assert Reply(error, d)[..h + k] == header + record[..k];
      Associative(out, header, record[..k]);
    }
  }

  /** The part of `remote_device_connect` that reads the reply. */
  method ReceiveReply(sock: Socket) returns (outcome: Outcome)
    modifies sock`incoming, sock`script
    ensures outcome.Imported? ==> outcome.rest == sock.incoming
    ensures Failed !in old(sock.script) ==> outcome == Read(old(sock.incoming))
  {
    var status := Devlist.ReceiveStatus(sock);
    if status.None? {
      return Incomplete;
    }
    if status.value != ST_OK {
      return if status.value == ST_DEV_BUSY then Busy else NotFound;
    }
    var image := Devlist.ReceiveRecord(sock);
    if image.None? {
      return Incomplete;
    }
    outcome := Imported(image.value, sock.incoming);
  }

  /** Whatever pieces the bytes travel in, the client learns what the attach came to. */
  method Exchange(error: Option<O.Error>, d: O.Device, sendScript: seq<Net.Outcome>, recvScript: seq<Net.Outcome>)
    returns (outcome: Outcome)
    requires Reliable(sendScript) && Failed !in recvScript
    ensures outcome == Learnt(error, d)
  {
    var sender := new Socket([], sendScript);
    var headerSent, deviceSent;
    ghost var sent;
    headerSent, deviceSent, sent := SendReply(sender, error, d);
    assert Reply(error, d)[..sent] == Reply(error, d);
    var receiver := new Socket(sender.outgoing, recvScript);
    assert [] + Reply(error, d) == Reply(error, d);
    ReplyAlone(error, d);
    outcome := ReceiveReply(receiver);
  }

  lemma AttachMarks(s: O.Server, i: nat, busid: seq<byte>, f: O.Faults)
    requires i < |s.clients| && O.AttachError(s, busid, f) == None
    ensures
      var t, j := O.Attach(s, i, busid, f), O.Find(s.entries, busid);
      && j < |t.entries| && t.entries[j].device.busid == busid && t.entries[j].state == O.Exported
      && i < |t.clients| && t.clients[i].device == Some(busid) && t.clients[i].state == O.Attached
  {
  }

  /** What the client makes of a reply to a failure, whichever the device. */
  predicate Refused(error: O.Error, d: O.Device) {
    Read(Reply(Some(error), d)) == if error.DeviceBusy? then Busy else NotFound
  }

  /**
   * What the client learns of any attach to any server: on success the record is that of the device it named,
   * which is now its own, and what the server writes next is unread; otherwise just why there is none.
   */
  lemma AttachAnswered(s: O.Server, i: nat, busid: seq<byte>, f: O.Faults, rest: seq<byte>)
    requires i < |s.clients|
    ensures
      var error, t, j := O.AttachError(s, busid, f), O.Attach(s, i, busid, f), O.Find(s.entries, busid);
      if error == None then
        && j < |t.entries| && t.entries[j].device.busid == busid && t.entries[j].state == O.Exported
        && i < |t.clients| && t.clients[i].device == Some(busid) && t.clients[i].state == O.Attached
        && Read(Reply(None, t.entries[j].device) + rest) == Imported(Devlist.DeviceImage(t.entries[j].device), rest)
      else forall d :: Refused(error.value, d)
  {
    var error := O.AttachError(s, busid, f);
    if error == None {
      AttachMarks(s, i, busid, f);
      ReplyRoundTrip(None, O.Attach(s, i, busid, f).entries[O.Find(s.entries, busid)].device, rest);
    } else {
      forall d ensures Refused(error.value, d) {
        ReplyRoundTrip(error, d, []);
      }
    }
  }
}
