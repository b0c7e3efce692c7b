/** USB request blocks: how a submission becomes one, what can happen to it, and how it is answered. */
module Urbs {
  import opened Bytes
  import opened Structs

  const EIO: int := 5
  const ECANCELED: int := 105

  /** The arguments of one `urb_handler_submit` call. */
  datatype Request = Request(header: UrbHeader, data: seq<byte>)
  {
    predicate Valid() {
      header.Valid()
    }
  }

  /**
   * The fields of `urb_entry_t` and `usb_urb_t` the handler reads or writes. `id` numbers the accepted
   * submissions: it tells entries apart where client-chosen sequence numbers repeat, and no operation reads it.
   * `buffer` is the part of the data buffer with known contents.
   */
  datatype Urb = Urb(id: nat, seqnum: uint32, devid: uint32, endpoint: byte, direction: byte, control: bool,
                     transferFlags: uint32, bufferLength: uint32, interval: uint32, startFrame: uint32,
                     numberOfPackets: uint32, setup: seq<byte>, buffer: seq<byte>, actualLength: uint32,
                     status: int, completed: bool, cancelled: bool)

  /** The entry that `urb_handler_submit` queues: endpoint and direction are cut to 8 bits, IN sets bit 7. */
  function Create(id: nat, r: Request): Urb
    requires r.Valid()
  {
    var h := r.header;
    var endpoint := h.ep % 0x100;
    var direction := h.direction % 0x100;
    var length := h.arm[1];
    Urb(id, h.seqnum, h.devid,
        if direction == USBIP_DIR_IN && endpoint < 0x80 then endpoint + 0x80 else endpoint,
        direction, endpoint == 0, h.arm[0], length, h.arm[4], h.arm[2], h.arm[3], h.setup,
        if direction != 0 then [] else if |r.data| < length then r.data else r.data[..length],
        0, 0, false, false)
  }

  /** What the device is to be given for a request, field by field of the message format. */
  predicate AsSubmitted(u: Urb, r: Request)
    requires r.Valid()
  {
    var h := r.header;
    && u.seqnum == h.seqnum && u.devid == h.devid && u.setup == h.setup
    && u.transferFlags == h.arm[0] && u.bufferLength == h.arm[1] && u.startFrame == h.arm[2]
    && u.numberOfPackets == h.arm[3] && u.interval == h.arm[4]
    && u.endpoint % 0x80 == h.ep % 0x80
    && (u.endpoint >= 0x80 <==> h.ep % 0x100 >= 0x80 || h.direction % 0x100 == 1)
    && u.direction == h.direction % 0x100 && (u.control <==> h.ep % 0x100 == 0)
    && (if h.direction % 0x100 == 0 then
          u.buffer <= r.data && (|u.buffer| == |r.data| <= u.bufferLength || |u.buffer| == u.bufferLength)
        else u.buffer == [])
    && u.actualLength == 0 && u.status == 0 && !u.completed && !u.cancelled
  }

  lemma CreatedAsSubmitted(id: nat, r: Request)
    requires r.Valid()
    ensures AsSubmitted(Create(id, r), r)
  {
    AddressOf(r.header.ep);
  }

  /** The low seven bits of an endpoint, with the eighth clear or set. */
  lemma AddressOf(ep: uint32)
    ensures ep % 0x100 % 0x80 == ep % 0x80
    ensures ep % 0x100 < 0x80 ==> (ep % 0x100 + 0x80) % 0x80 == ep % 0x80
  {
    var e, q := ep % 0x100, ep / 0x100;
    var bit: nat := if e < 0x80 then 0 else 1;
    var low: nat := e - 0x80 * bit;
    assert ep == 0x80 * (2 * q + bit) + low && e == 0x80 * bit + low;
    LowBits(ep, 2 * q + bit, low);
    LowBits(e, bit, low);
    LowBits(e + 0x80, bit + 1, low);
  }

  lemma LowBits(x: nat, q: nat, low: nat)
    requires x == 0x80 * q + low && low < 0x80
    ensures x % 0x80 == low
  {
  }

  datatype TransferKind = ControlTransfer | BulkTransfer | InterruptTransfer

  /** How `usb_submit_urb` carries out an entry: by its endpoint address, which IN has changed, then by its type. */
  function Dispatch(u: Urb): TransferKind {
    if u.endpoint == 0 then ControlTransfer else if !u.control then BulkTransfer else InterruptTransfer
  }

  /** Requests to endpoint 0 are carried out as control transfers exactly if they are not IN. */
  lemma DispatchedAsControlIff(id: nat, r: Request)
    requires r.Valid()
    ensures
      var kind := Dispatch(Create(id, r));
      && (kind == ControlTransfer <==> r.header.ep % 0x100 == 0 && r.header.direction % 0x100 != 1)
      && (kind == InterruptTransfer <==> r.header.ep % 0x100 == 0 && r.header.direction % 0x100 == 1)
  {
  }

  function Cancel(u: Urb): Urb {
    u.(status := -ECANCELED, cancelled := true, completed := true)
  }

  /** The outcome of `usb_submit_urb`: whether it succeeded and the bytes that were moved. */
  datatype DeviceResult = DeviceResult(ok: bool, moved: seq<byte>)

  /** A device never moves more than the buffer holds. */
  predicate Fits(u: Urb, result: DeviceResult) {
    |result.moved| <= u.bufferLength
  }

  /** The transfer reads from the device: a control transfer by its set-up packet, others by their endpoint address. */
  predicate Reads(u: Urb) {
    if Dispatch(u) == ControlTransfer then u.setup != [] && u.setup[0] >= 0x80 else u.endpoint >= 0x80
  }

  /** A buffer after the bytes read have been put at its start. */
  function Overwritten(buffer: seq<byte>, moved: seq<byte>): (r: seq<byte>)
    ensures moved <= r
  {
    moved + if |moved| < |buffer| then buffer[|moved|..] else []
  }

  function Execute(u: Urb, result: DeviceResult): Urb
    requires Fits(u, result)
  {
    u.(actualLength := |result.moved|,
       buffer := if Reads(u) then Overwritten(u.buffer, result.moved) else u.buffer,
       status := if result.ok then 0 else -EIO,
       completed := true)
  }

  /**
   * Data is read from the device without being sent back exactly for a request that is not IN but names an
   * endpoint with bit 7 set, or endpoint 0 with a set-up packet that asks for data.
   */
  lemma ReadInVainIff(id: nat, r: Request)
    requires r.Valid()
    ensures
      var u, h := Create(id, r), r.header;
      Reads(u) && u.direction != USBIP_DIR_IN <==>
        && h.direction % 0x100 != USBIP_DIR_IN
        && (h.ep % 0x100 >= 0x80 || (h.ep % 0x100 == 0 && h.setup[0] >= 0x80))
  {
  }

  /** What becomes of a request: the device's outcome for it, or none if it is cancelled before. */
  function Settle(id: nat, r: Request, outcome: Option<DeviceResult>): Urb
    requires r.Valid() && (outcome.Some? ==> Fits(Create(id, r), outcome.value))
  {
    if outcome.None? then Cancel(Create(id, r)) else Execute(Create(id, r), outcome.value)
  }

  // ---- Answers ----

  /** A RET_SUBMIT header and the data that follows it. */
  datatype Reply = Reply(header: UrbHeader, payload: seq<byte>)

  /** `urb_handler_create_return`: the signed status travels as its 32-bit two's complement. */
  function CreateReturn(u: Urb): UrbHeader {
    UrbHeader(USBIP_RET_SUBMIT, u.seqnum, u.devid, u.direction, u.endpoint % 0x10,
              [u.status % 0x1_0000_0000, u.actualLength, u.startFrame, u.numberOfPackets, 0], u.setup)
  }

  /** The bytes that an IN answer announces are there. */
  predicate Answerable(u: Urb) {
    u.direction == USBIP_DIR_IN ==> |u.buffer| >= u.actualLength
  }

  /** What `client_send_urb_completion` sends for an entry: data follows only an IN transfer that moved some. */
  function ReplyFor(u: Urb): Reply
    requires Answerable(u)
  {
    Reply(CreateReturn(u),
          if u.direction == USBIP_DIR_IN && u.actualLength > 0 then u.buffer[..u.actualLength] else [])
  }

  /** The fields that every answer repeats, endpoint and direction only as far as they fit; no errors are counted. */
  predicate RepeatsRequest(h: UrbHeader, q: UrbHeader)
    requires q.Valid()
  {
    && h.Valid() && h.command == 3
    && h.seqnum == q.seqnum && h.devid == q.devid && h.setup == q.setup
    && h.arm[2] == q.arm[2] && h.arm[3] == q.arm[3] && h.arm[4] == 0
    && h.ep == q.ep % 0x10 && (h.ep == q.ep <==> q.ep < 16)
    && h.direction == q.direction % 0x100 && (h.direction == q.direction <==> q.direction < 256)
  }

  /** Length, data and status (0, or -5 in 32 bits) are those of the device's outcome; without one it is -105. */
  predicate TellsOutcome(reply: Reply, q: UrbHeader, outcome: Option<DeviceResult>)
    requires reply.header.Valid() && q.Valid()
  {
    var arm := reply.header.arm;
    match outcome
    case None => arm[0] == 0xFFFF_FF97 && arm[1] == 0 && reply.payload == []
    case Some(result) =>
      && arm[0] == (if result.ok then 0 else 0xFFFF_FFFB)
      && arm[1] == |result.moved| <= q.arm[1]
      && reply.payload == if q.direction % 0x100 == 1 then result.moved else []
  }

  /** The answer to a request that the device executed with an outcome, or that was cancelled. */
  predicate AnswersRequest(reply: Reply, r: Request, outcome: Option<DeviceResult>)
    requires r.Valid()
  {
    RepeatsRequest(reply.header, r.header) && TellsOutcome(reply, r.header, outcome)
  }

  lemma LowNibble(ep: uint32)
    ensures ep % 0x100 % 0x10 == ep % 0x10
    ensures ep % 0x100 < 0x80 ==> (ep % 0x100 + 0x80) % 0x10 == ep % 0x10
    ensures ep % 0x10 == ep <==> ep < 16
  {
    var e, high := ep % 0x100, ep / 0x100;
    var low := e % 0x10;
    assert ep == 0x10 * (0x10 * high + e / 0x10) + low;
    assert e + 0x80 == 0x10 * (e / 0x10 + 8) + low;
  }

  lemma EndpointRepeated(id: nat, r: Request)
    requires r.Valid()
    ensures Create(id, r).endpoint % 0x10 == r.header.ep % 0x10
    ensures r.header.ep % 0x10 == r.header.ep <==> r.header.ep < 16
  {
    LowNibble(r.header.ep);
  }

  lemma StatusTold(u: Urb, outcome: Option<DeviceResult>)
    requires outcome.Some? ==> Fits(u, outcome.value)
    ensures
      var v := if outcome.None? then Cancel(u) else Execute(u, outcome.value);
      v.status % 0x1_0000_0000 ==
        if outcome.None? then 0xFFFF_FF97 else if outcome.value.ok then 0 else 0xFFFF_FFFB
  {
  }

  lemma PayloadTold(id: nat, r: Request, result: DeviceResult)
    requires r.Valid() && Fits(Create(id, r), result)
    ensures
      var u := Execute(Create(id, r), result);
      && Answerable(u)
      && ReplyFor(u).payload == if u.direction == USBIP_DIR_IN then result.moved else []
  {
    var u := Create(id, r);
    if u.direction == USBIP_DIR_IN {
      assert Reads(u) && Overwritten(u.buffer, result.moved)[..|result.moved|] == result.moved;
    }
  }

  /** The answer to a settled entry describes the request it settles and what became of it. */
  lemma ReplyAnswersRequest(id: nat, r: Request, outcome: Option<DeviceResult>)
    requires r.Valid() && (outcome.Some? ==> Fits(Create(id, r), outcome.value))
    ensures Answerable(Settle(id, r, outcome)) && AnswersRequest(ReplyFor(Settle(id, r, outcome)), r, outcome)
  {
    EndpointRepeated(id, r);
    StatusTold(Create(id, r), outcome);
    if outcome.Some? {
      PayloadTold(id, r, outcome.value);
    }
  }
}
