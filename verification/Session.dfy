/** What travels on a client connection: operation requests, then URB messages both ways (server/main.c). */
module Session {
  import opened Bytes
  import opened Config
  import opened Seqs
  import opened Structs
  import opened Net
  import Auth
  import L = Layout

  const USBIP_PROTO_VERSION: uint16 := 0x0111
  const OP_REQ_DEVLIST: uint16 := 0x8005
  const OP_REQ_IMPORT: uint16 := 0x8003

  // ---- URB messages ----

  datatype Message = Message(header: UrbHeader, payload: seq<byte>)

  /** The end of the connection that reads a stream. */
  datatype Side = Server | Client

  /**
   * The number of payload bytes that follow a header: to the server only an OUT submission carries any, to
   * the client only the answer to an IN submission.
   */
  function PayloadLength(h: UrbHeader, reader: Side): nat
    requires h.Valid()
  {
    match reader
    case Server => if h.command == USBIP_CMD_SUBMIT && h.direction == USBIP_DIR_OUT then h.arm[1] else 0
    case Client => if h.command == USBIP_RET_SUBMIT && h.direction == USBIP_DIR_IN then h.arm[1] else 0
  }

  function Size(m: Message): nat {
    URB_HEADER_SIZE + |m.payload|
  }

  predicate WellFormed(m: Message, reader: Side) {
    m.header.Valid() && |m.payload| == PayloadLength(m.header, reader)
  }

  predicate AllWellFormed(ms: seq<Message>, reader: Side) {
    forall m | m in ms :: WellFormed(m, reader)
  }

  /** A message as the sending side of common/protocol.c puts it on the wire. */
  function Encode(m: Message): (bytes: seq<byte>)
    requires m.header.Valid()
    ensures |bytes| == Size(m)
  {
    Wire(m.header) + m.payload
  }

  function EncodeAll(ms: seq<Message>): seq<byte>
    requires forall m | m in ms :: m.header.Valid()
  {
    if ms == [] then [] else Encode(ms[0]) + EncodeAll(ms[1..])
  }

  /** The first message of a stream and what follows it. */
  function Parse(stream: seq<byte>, reader: Side): (r: Option<(Message, seq<byte>)>)
    ensures r.Some? ==> |r.value.1| < |stream|
  {
    if |stream| < URB_HEADER_SIZE then None
    else
      var h := Unwire(stream[..URB_HEADER_SIZE]);
      var end := URB_HEADER_SIZE + PayloadLength(h, reader);
      if |stream| < end then None else Some((Message(h, stream[URB_HEADER_SIZE..end]), stream[end..]))
  }

  /** All messages of a stream up to its first incomplete one. */
  function ParseAll(stream: seq<byte>, reader: Side): (ms: seq<Message>)
    ensures AllWellFormed(ms, reader)
    decreases |stream|
  {
    var r := Parse(stream, reader);
    if r.None? then [] else [r.value.0] + ParseAll(r.value.1, reader)
  }

  /** What is left of a stream after its complete messages. */
  function Remainder(stream: seq<byte>, reader: Side): seq<byte>
    decreases |stream|
  {
    var r := Parse(stream, reader);
    if r.None? then stream else Remainder(r.value.1, reader)
  }

  lemma Reassemble(stream: seq<byte>, n: nat, end: nat)
    requires n <= end <= |stream|
    ensures stream == stream[..n] + stream[n..end] + stream[end..]
  {
  }

  lemma EncodedIfParsed(stream: seq<byte>, m: Message, rest: seq<byte>, reader: Side)
    requires Parse(stream, reader) == Some((m, rest))
    ensures WellFormed(m, reader) && stream == Encode(m) + rest
  {
    WireOfUnwire(stream[..URB_HEADER_SIZE]);
    Reassemble(stream, URB_HEADER_SIZE, URB_HEADER_SIZE + |m.payload|);
  }

  lemma ParsedIfEncoded(m: Message, rest: seq<byte>, reader: Side)
    requires WellFormed(m, reader)
    ensures Parse(Encode(m) + rest, reader) == Some((m, rest))
  {
    var stream := Encode(m) + rest;
    UnwireOfWire(m.header);
    assert stream[..URB_HEADER_SIZE] == Wire(m.header);
    var end := URB_HEADER_SIZE + |m.payload|;
    assert stream[URB_HEADER_SIZE..end] == m.payload && stream[end..] == rest;
  }

  /** A header with the first `len` bytes of what follows as its payload, if that many follow. */
  function WithPayload(h: UrbHeader, len: nat, rest: seq<byte>): Option<(Message, seq<byte>)> {
    if len <= |rest| then Some((Message(h, rest[..len]), rest[len..])) else None
  }

  lemma ParseHeader(h: UrbHeader, rest: seq<byte>, reader: Side)
    requires h.Valid()
    ensures Parse(Wire(h) + rest, reader) == WithPayload(h, PayloadLength(h, reader), rest)
  {
    var stream, len := Wire(h) + rest, PayloadLength(h, reader);
    UnwireOfWire(h);
    assert stream[..URB_HEADER_SIZE] == Wire(h);
    if len <= |rest| {
      assert stream[URB_HEADER_SIZE..URB_HEADER_SIZE + len] == rest[..len];
      assert stream[URB_HEADER_SIZE + len..] == rest[len..];
    }
  }

  /**
   * Data follows a header on its way to the server exactly in a submission (command 1) in direction OUT (0): as
   * many bytes as its second word says. Every other header is a message by itself.
   */
  lemma ServerReads(h: UrbHeader, rest: seq<byte>)
    requires h.Valid()
    ensures Parse(Wire(h) + rest, Server) ==
      if h.command == 1 && h.direction == 0 then WithPayload(h, h.arm[1], rest) else Some((Message(h, []), rest))
  {
    ParseHeader(h, rest, Server);
    assert rest[..0] == [] && rest[0..] == rest;
  }

  /** On its way to the client, exactly in the answer to a submission (command 3) in direction IN (1). */
  lemma ClientReads(h: UrbHeader, rest: seq<byte>)
    requires h.Valid()
    ensures Parse(Wire(h) + rest, Client) ==
      if h.command == 3 && h.direction == 1 then WithPayload(h, h.arm[1], rest) else Some((Message(h, []), rest))
  {
    ParseHeader(h, rest, Client);
    assert rest[..0] == [] && rest[0..] == rest;
  }

  /** A stream starts with a message exactly when it is that message's encoding and then the rest. */
  lemma ParseIffEncoded(stream: seq<byte>, m: Message, rest: seq<byte>, reader: Side)
    ensures Parse(stream, reader) == Some((m, rest)) <==> WellFormed(m, reader) && stream == Encode(m) + rest
  {
    if Parse(stream, reader) == Some((m, rest)) {
      EncodedIfParsed(stream, m, rest, reader);
    }
    if WellFormed(m, reader) && stream == Encode(m) + rest {
      ParsedIfEncoded(m, rest, reader);
    }
  }

  lemma ParseAllStep(stream: seq<byte>, m: Message, rest: seq<byte>, reader: Side)
    requires Parse(stream, reader) == Some((m, rest))
    ensures ParseAll(stream, reader) == [m] + ParseAll(rest, reader)
    ensures Remainder(stream, reader) == Remainder(rest, reader)
  {
  }

  lemma MessageRoundTrip(m: Message, rest: seq<byte>, reader: Side)
    requires WellFormed(m, reader)
    ensures ParseAll(Encode(m) + rest, reader) == [m] + ParseAll(rest, reader)
    ensures Remainder(Encode(m) + rest, reader) == Remainder(rest, reader)
  {
    ParsedIfEncoded(m, rest, reader);
    ParseAllStep(Encode(m) + rest, m, rest, reader);
  }

  /** Any sequence of messages is read back exactly, and the reader stands at the boundary after the last one. */
  lemma {:induction false} StreamRoundTrip(ms: seq<Message>, tail: seq<byte>, reader: Side)
    requires AllWellFormed(ms, reader)
    ensures ParseAll(EncodeAll(ms) + tail, reader) == ms + ParseAll(tail, reader)
    ensures Remainder(EncodeAll(ms) + tail, reader) == Remainder(tail, reader)
    decreases |ms|
  {
    if ms == [] {
      assert EncodeAll(ms) + tail == tail;
    } else {
      var m, more := ms[0], ms[1..];
      assert WellFormed(m, reader) && AllWellFormed(more, reader);
      Associative(Encode(m), EncodeAll(more), tail);
      MessageRoundTrip(m, EncodeAll(more) + tail, reader);
      StreamRoundTrip(more, tail, reader);
      FirstApart(ms, ParseAll(tail, reader));
    }
  }

  /** Every stream is the encoding of its complete messages and then the remainder. */
  lemma {:induction false} StreamIsEncoded(stream: seq<byte>, reader: Side)
    ensures stream == EncodeAll(ParseAll(stream, reader)) + Remainder(stream, reader)
    decreases |stream|
  {
    var r := Parse(stream, reader);
    if r.None? {
      assert EncodeAll([]) + stream == stream;
    } else {
      var (m, rest) := r.value;
      EncodedIfParsed(stream, m, rest, reader);
      StreamIsEncoded(rest, reader);
      var ms := ParseAll(rest, reader);
      assert ([m] + ms)[1..] == ms;
      Associative(Encode(m), EncodeAll(ms), Remainder(rest, reader));
    }
  }

  /** A proper part of a message is not a message: nothing is delivered early. */
  lemma NoPartialMessage(m: Message, cut: nat, reader: Side)
    requires WellFormed(m, reader) && cut < |Encode(m)|
    ensures Parse(Encode(m)[..cut], reader) == None
  {
    var part := Encode(m)[..cut];
    if Parse(part, reader).Some? {
      var (n, rest) := Parse(part, reader).value;
      EncodedIfParsed(part, n, rest, reader);
      SplitPart(Encode(m), cut, Encode(n), rest);
      ParsedIfEncoded(n, rest + Encode(m)[cut..], reader);
      ParsedIfEncoded(m, [], reader);
    }
  }

  lemma SplitPart(whole: seq<byte>, cut: nat, first: seq<byte>, rest: seq<byte>)
    requires cut < |whole| && whole[..cut] == first + rest
    ensures whole + [] == first + (rest + whole[cut..]) && rest + whole[cut..] != []
  {
    Associative(first, rest, whole[cut..]);
    assert whole == whole[..cut] + whole[cut..];
  }

  /** `usbip_recv_urb_header`: 48 bytes received into a header and unpacked in place. */
  method ReceiveHeader(sock: Socket) returns (h: Option<UrbHeader>)
    modifies sock`incoming, sock`script
    ensures forall o | o in sock.script :: o in old(sock.script)
    ensures h.Some? ==> |old(sock.incoming)| >= URB_HEADER_SIZE
    ensures h.Some? ==> h.value == Unwire(old(sock.incoming)[..URB_HEADER_SIZE])
    ensures h.Some? ==> sock.incoming == old(sock.incoming)[URB_HEADER_SIZE..]
    ensures h.None? && Failed !in old(sock.script) ==> |old(sock.incoming)| < URB_HEADER_SIZE
  {
    var buf := new byte[URB_HEADER_SIZE];
    var n := NetRecvAll(sock, buf, URB_HEADER_SIZE);
    if n != URB_HEADER_SIZE {
      return None;
    }
    assert buf[..n] == buf[..] && old(sock.incoming)[..URB_HEADER_SIZE] == buf[..];
    UnpackHeader(buf);
    h := Some(HeaderOf(buf[..]));
  }

  /** `usbip_recv_urb_data`. */
  method ReceiveData(sock: Socket, len: nat) returns (data: Option<seq<byte>>)
    modifies sock`incoming, sock`script
    ensures forall o | o in sock.script :: o in old(sock.script)
    ensures data.Some? ==> len <= |old(sock.incoming)| && data.value == old(sock.incoming)[..len]
    ensures data.Some? ==> sock.incoming == old(sock.incoming)[len..]
    ensures data.None? && Failed !in old(sock.script) ==> |old(sock.incoming)| < len
  {
    if len == 0 {
      return Some([]);
    }
    var buf := new byte[len];
    var n := NetRecvAll(sock, buf, len);
    if n != len {
      return None;
    }
    assert buf[..n] == buf[..];
    data := Some(buf[..]);
  }

  lemma SliceOfTail(stream: seq<byte>, n: nat, len: nat)
    requires n + len <= |stream|
    ensures stream[n..][..len] == stream[n..n + len] && stream[n..][len..] == stream[n + len..]
  {
  }

  /** The stream starts with a header that calls for a payload, so a buffer is allocated. */
  predicate NeedsBuffer(stream: seq<byte>) {
    |stream| >= URB_HEADER_SIZE && PayloadLength(Unwire(stream[..URB_HEADER_SIZE]), Server) > 0
  }

  /**
   * One turn of the receiving part of `handle_client_session`: a header, and the payload its command
   * calls for, if the buffer for it can be allocated. Without a failing call the outcome depends only on
   * the bytes sent and on that.
   */
  method ReceiveMessage(sock: Socket, fits: bool) returns (m: Option<Message>)
    modifies sock`incoming, sock`script
    ensures forall o | o in sock.script :: o in old(sock.script)
    ensures m.Some? ==> Parse(old(sock.incoming), Server) == Some((m.value, sock.incoming))
    ensures m.Some? ==> fits || !NeedsBuffer(old(sock.incoming))
    ensures m.None? && Failed !in old(sock.script) ==>
      Parse(old(sock.incoming), Server).None? || (!fits && NeedsBuffer(old(sock.incoming)))
  {
    ghost var stream := sock.incoming;
    var h := ReceiveHeader(sock);
    if h.None? {
      return None;
    }
    var len := 0;
    if h.value.command == USBIP_CMD_SUBMIT && h.value.direction == USBIP_DIR_OUT && h.value.arm[1] > 0 {
      len := h.value.arm[1];
      if !fits {
        return None;
      }
    }
    var data := ReceiveData(sock, len);
    if data.None? {
      return None;
    }
    SliceOfTail(stream, URB_HEADER_SIZE, len);
    m := Some(Message(h.value, data.value));
  }

  /** The messages delivered while the server runs; `fits` tells for each turn whether a buffer can be had. */
  function Delivered(stream: seq<byte>, fits: seq<bool>): seq<Message>
    decreases |fits|
  {
    var r := Parse(stream, Server);
    if fits == [] || r.None? || (!fits[0] && NeedsBuffer(stream)) then []
    else [r.value.0] + Delivered(r.value.1, fits[1..])
  }

  /** Enough turns, and a buffer for each message that carries data. */
  predicate Plenty(ms: seq<Message>, fits: seq<bool>) {
    |ms| <= |fits| && forall i | 0 <= i < |ms| :: fits[i] || ms[i].payload == []
  }

  lemma BufferForPayload(stream: seq<byte>, m: Message, rest: seq<byte>)
    requires Parse(stream, Server) == Some((m, rest))
    ensures NeedsBuffer(stream) <==> m.payload != []
  {
  }

  lemma PlentyNext(m: Message, ms: seq<Message>, fits: seq<bool>)
    requires fits != []
    ensures Plenty([m] + ms, fits) <==> (fits[0] || m.payload == []) && Plenty(ms, fits[1..])
  {
    var all := [m] + ms;
    if Plenty(all, fits) {
      assert fits[0] || all[0].payload == [];
      forall i | 0 <= i < |ms| ensures fits[1..][i] || ms[i].payload == [] {
        assert fits[i + 1] || all[i + 1].payload == [];
      }
    }
    if (fits[0] || m.payload == []) && Plenty(ms, fits[1..]) {
      forall i | 0 <= i < |all| ensures fits[i] || all[i].payload == [] {
        assert i > 0 ==> fits[1..][i - 1] || ms[i - 1].payload == [];
      }
    }
  }

  /** What is delivered is an initial part of the stream's messages, all exactly with turns and buffers enough. */
  lemma {:induction false} AllDeliveredIff(stream: seq<byte>, fits: seq<bool>)
    ensures Delivered(stream, fits) <= ParseAll(stream, Server)
    ensures Delivered(stream, fits) == ParseAll(stream, Server) <==> Plenty(ParseAll(stream, Server), fits)
    decreases |fits|
  {
    var r := Parse(stream, Server);
    if r.Some? && fits != [] {
      var (m, rest) := r.value;
      BufferForPayload(stream, m, rest);
      PlentyNext(m, ParseAll(rest, Server), fits);
      AllDeliveredIff(rest, fits[1..]);
    }
  }

  /** Nothing is delivered in a turn that finds no message, or one with data and no buffer for it. */
  predicate Stops(unread: seq<byte>, fits: bool) {
    Parse(unread, Server).None? || (!fits && NeedsBuffer(unread))
  }

  lemma StopsAlike(stream: seq<byte>, unread: seq<byte>, fits: bool)
    requires ParseAll(stream, Server) == ParseAll(unread, Server) && Stops(unread, fits)
    ensures Stops(stream, fits)
  {
    var r, q := Parse(stream, Server), Parse(unread, Server);
    if r.Some? && q.Some? {
      ParseAllStep(stream, r.value.0, r.value.1, Server);
      ParseAllStep(unread, q.value.0, q.value.1, Server);
      assert r.value.0 == ParseAll(stream, Server)[0] == q.value.0;
      BufferForPayload(stream, r.value.0, r.value.1);
      BufferForPayload(unread, q.value.0, q.value.1);
    }
  }

  lemma FirstOfAll(stream: seq<byte>, ms: seq<Message>, more: seq<Message>) returns (rest: seq<byte>)
    requires ms != [] && ParseAll(stream, Server) == ms + more
    ensures Parse(stream, Server) == Some((ms[0], rest)) && ParseAll(rest, Server) == ms[1..] + more
  {
    var m := Parse(stream, Server).value.0;
    rest := Parse(stream, Server).value.1;
    ParseAllStep(stream, m, rest, Server);
    SameFirst(m, ParseAll(rest, Server), ms, more);
  }

  /** The next turn delivers nothing, if there is one. */
  predicate NoneIn(unread: seq<byte>, fits: seq<bool>) {
    fits == [] || Stops(unread, fits[0])
  }

  lemma DeliveredNone(stream: seq<byte>, unread: seq<byte>, fits: seq<bool>)
    requires ParseAll(stream, Server) == ParseAll(unread, Server) && NoneIn(unread, fits)
    ensures Delivered(stream, fits) == []
  {
    if fits != [] {
      StopsAlike(stream, unread, fits[0]);
    }
  }

  lemma DeliveredNext(stream: seq<byte>, ms: seq<Message>, rest: seq<byte>, fits: seq<bool>, later: seq<bool>)
    requires ms != [] && Parse(stream, Server) == Some((ms[0], rest)) && Plenty(ms, fits)
    requires Delivered(rest, fits[1..] + later) == ms[1..]
    ensures Delivered(stream, fits + later) == ms
  {
    BufferForPayload(stream, ms[0], rest);
    assert (fits + later)[1..] == fits[1..] + later;
    assert fits[0] || ms[0].payload == [];
  }

  lemma PlentyRest(ms: seq<Message>, fits: seq<bool>)
    requires ms != [] && Plenty(ms, fits)
    ensures Plenty(ms[1..], fits[1..])
  {
  }

  /** What is delivered is known by the buffers there were and by the reason to stop. */
  lemma {:induction false} DeliveredUntil(stream: seq<byte>, fits: seq<bool>, later: seq<bool>, ms: seq<Message>,
                                          unread: seq<byte>)
    requires ParseAll(stream, Server) == ms + ParseAll(unread, Server)
    requires |fits| == |ms| && Plenty(ms, fits) && NoneIn(unread, later)
    ensures Delivered(stream, fits + later) == ms
    decreases |ms|
  {
    if ms == [] {
      assert fits + later == later;
      DeliveredNone(stream, unread, later);
    } else {
      var rest := FirstOfAll(stream, ms, ParseAll(unread, Server));
      PlentyRest(ms, fits);
      DeliveredUntil(rest, fits[1..], later, ms[1..], unread);
      DeliveredNext(stream, ms, rest, fits, later);
    }
  }

  /**
   * The receiving loop, with one entry of `fits` for each turn for which the running flag is found set: it
   * delivers the messages of the stream up to the first failure, exactly the predicted ones if no call fails.
   */
  method ReceiveAll(sock: Socket, fits: seq<bool>) returns (ms: seq<Message>)
    modifies sock`incoming, sock`script
    ensures ms <= Delivered(old(sock.incoming), fits)
    ensures Failed !in old(sock.script) ==> ms == Delivered(old(sock.incoming), fits)
  {
    ms := [];
    var turn: nat := 0;
    while turn < |fits|
      invariant turn <= |fits|
      invariant ms + Delivered(sock.incoming, fits[turn..]) == Delivered(old(sock.incoming), fits)
      invariant forall o | o in sock.script :: o in old(sock.script)
    {
      ghost var before := sock.incoming;
      assert fits[turn..][1..] == fits[turn + 1..];
      var m := ReceiveMessage(sock, fits[turn]);
      if m.None? {
        assert Failed !in old(sock.script) ==> Delivered(before, fits[turn..]) == [];
        return;
      }
      Associative(ms, [m.value], Delivered(sock.incoming, fits[turn + 1..]));
      ms := ms + [m.value];
      turn := turn + 1;
    }
  }

  /** `net_send_all`, noting how much of the data went out. */
  method SendPart(sock: Socket, data: seq<byte>) returns (ok: bool, ghost sent: nat)
    modifies sock`outgoing, sock`script
    ensures forall o | o in sock.script :: o in old(sock.script)
    ensures sent <= |data| && (ok <==> sent == |data|)
    ensures sock.outgoing == old(sock.outgoing) + data[..sent]
    ensures Reliable(old(sock.script)) ==> ok
  {
    var n := NetSendAll(sock, data);
    ok := n == |data|;
    if ok {
      sent := |data|;
      assert data[..sent] == data;
    } else {
      sent :| sent < |data| && sock.outgoing == old(sock.outgoing) + data[..sent];
    }
  }

  /** `usbip_send_urb_header`: a copy of the header is packed and sent. */
  method SendHeader(sock: Socket, h: UrbHeader) returns (ok: bool, ghost sent: nat)
    requires h.Valid()
    modifies sock`outgoing, sock`script
    ensures forall o | o in sock.script :: o in old(sock.script)
    ensures sent <= URB_HEADER_SIZE && (ok <==> sent == URB_HEADER_SIZE)
    ensures sock.outgoing == old(sock.outgoing) + Wire(h)[..sent]
    ensures Reliable(old(sock.script)) ==> ok
  {
    var buf := new byte[URB_HEADER_SIZE];
    Store(buf, 0, Image(h));
    assert buf[..] == Image(h);
    PackHeader(buf, h.command);
    ok, sent := SendPart(sock, buf[..]);
  }

  /**
   * `usbip_send_urb_header` followed by `usbip_send_urb_data`. Success appends the whole message; a failure
   * appends a proper part of it, of length `sent`.
   */
  method SendMessage(sock: Socket, m: Message) returns (ok: bool, ghost sent: nat)
    requires m.header.Valid()
    modifies sock`outgoing, sock`script
    ensures forall o | o in sock.script :: o in old(sock.script)
    ensures sent <= Size(m) && (ok <==> sent == Size(m))
    ensures sock.outgoing == old(sock.outgoing) + Encode(m)[..sent]
    ensures Reliable(old(sock.script)) ==> ok
  {
    ghost var out := sock.outgoing;
    ok, sent := SendHeader(sock, m.header);
    if !ok || |m.payload| == 0 {
      PartOfHeader(m, sent);
      return;
    }
    ghost var k;
    ok, k := SendPart(sock, m.payload);
    PartOfMessage(out, m, k);
    sent := URB_HEADER_SIZE + k;
  }

  lemma PartOfHeader(m: Message, k: nat)
    requires m.header.Valid() && k <= URB_HEADER_SIZE
    ensures Encode(m)[..k] == Wire(m.header)[..k]
  {
  }

  lemma PartOfMessage(out: seq<byte>, m: Message, k: nat)
    requires m.header.Valid() && k <= |m.payload|
    ensures out + Wire(m.header)[..URB_HEADER_SIZE] + m.payload[..k] == out + Encode(m)[..URB_HEADER_SIZE + k]
  {
    assert Encode(m)[..URB_HEADER_SIZE + k] == Wire(m.header) + m.payload[..k];
    assert Wire(m.header)[..URB_HEADER_SIZE] == Wire(m.header);
    Associative(out, Wire(m.header), m.payload[..k]);
  }

  method SendMessages(sock: Socket, ms: seq<Message>)
    requires forall m | m in ms :: m.header.Valid()
    requires Reliable(sock.script)
    modifies sock`outgoing, sock`script
    ensures sock.outgoing == old(sock.outgoing) + EncodeAll(ms)
  {
    var i: nat := 0;
    assert ms[0..] == ms;
    while i < |ms|
      invariant i <= |ms|
      invariant sock.outgoing + EncodeAll(ms[i..]) == old(sock.outgoing) + EncodeAll(ms)
      invariant Reliable(sock.script)
    {
      EncodeNext(sock.outgoing, ms, i);
      var ok;
      ghost var sent;
      ok, sent := SendMessage(sock, ms[i]);
      assert Encode(ms[i])[..sent] == Encode(ms[i]);
      i := i + 1;
    }
    assert sock.outgoing + EncodeAll([]) == sock.outgoing;
  }

  lemma EncodeNext(sent: seq<byte>, ms: seq<Message>, i: nat)
    requires i < |ms| && forall m | m in ms :: m.header.Valid()
    ensures sent + EncodeAll(ms[i..]) == sent + Encode(ms[i]) + EncodeAll(ms[i + 1..])
  {
    assert ms[i..][1..] == ms[i + 1..];
  }

  /** Whatever pieces both ends move the bytes in, the receiver delivers the messages that were sent. */
  method Transfer(ms: seq<Message>, sendScript: seq<Outcome>, recvScript: seq<Outcome>) returns (got: seq<Message>)
    requires AllWellFormed(ms, Server)
    requires Reliable(sendScript) && Failed !in recvScript
    ensures got == ms
  {
    var sender := new Socket([], sendScript);
    SendMessages(sender, ms);
    var receiver := new Socket(sender.outgoing, recvScript);
    var fits := seq(|ms|, i => true);
    StreamRoundTrip(ms, [], Server);
    assert [] + EncodeAll(ms) == EncodeAll(ms) + [] == sender.outgoing;
    assert ms + ParseAll([], Server) == ms;
    AllDeliveredIff(sender.outgoing, fits);
    got := ReceiveAll(receiver, fits);
  }

  // ---- Operation requests ----

  datatype Request = Devlist | Import(busid: seq<byte>) | Unsupported(command: uint16)

  function RequestHeader(command: uint16): BasicHeader {
    BasicHeader(USBIP_PROTO_VERSION, command, 0)
  }

  function EncodeDevlistRequest(): seq<byte> {
    BasicWire(RequestHeader(OP_REQ_DEVLIST))
  }

  function EncodeImportRequest(busid: seq<byte>): seq<byte> {
    BasicWire(RequestHeader(OP_REQ_IMPORT)) + Pad(busid, BUSID_MAX)
  }

  /** The request at the start of a stream, as `client_handle_request` reads it, and what follows. */
  function ParseRequest(stream: seq<byte>): Option<(Request, seq<byte>)> {
    if |stream| < HEADER_BASIC_SIZE then None
    else
      var h := BasicUnwire(stream[..HEADER_BASIC_SIZE]);
      var rest := stream[HEADER_BASIC_SIZE..];
      if h.command == OP_REQ_DEVLIST then Some((Devlist, rest))
      else if h.command != OP_REQ_IMPORT then Some((Unsupported(h.command), rest))
      else if |rest| < BUSID_MAX then None
      else Some((Import(CStr(rest[..BUSID_MAX - 1])), rest[BUSID_MAX..]))
  }

  method ReceiveRequest(sock: Socket) returns (r: Option<Request>)
    modifies sock`incoming, sock`script
    ensures forall o | o in sock.script :: o in old(sock.script)
    ensures r.Some? ==> ParseRequest(old(sock.incoming)) == Some((r.value, sock.incoming))
    ensures r.None? && Failed !in old(sock.script) ==> ParseRequest(old(sock.incoming)).None?
  {
    ghost var stream := sock.incoming;
    var buf := new byte[HEADER_BASIC_SIZE];
    var n := NetRecvAll(sock, buf, HEADER_BASIC_SIZE);
    if n != HEADER_BASIC_SIZE {
      return None;
    }
    assert buf[..n] == buf[..] && stream[..HEADER_BASIC_SIZE] == buf[..];
    ghost var rest := sock.incoming;
    assert stream[HEADER_BASIC_SIZE..] == rest;
    PackHeaderBasic(buf);
    var h := BasicHeaderOf(buf[..]);
    if h.command == OP_REQ_DEVLIST {
      r := Some(Devlist);
    } else if h.command == OP_REQ_IMPORT {
      var busid := new byte[BUSID_MAX];
      n := NetRecvAll(sock, busid, BUSID_MAX);
      if n != BUSID_MAX {
        return None;
      }
      assert busid[..n] == busid[..] && rest[..BUSID_MAX] == busid[..];
      assert rest[..BUSID_MAX - 1] == busid[..BUSID_MAX - 1];
      r := Some(Import(CStr(busid[..BUSID_MAX - 1])));
    } else {
      r := Some(Unsupported(h.command));
    }
  }

  /** The string read from a padded field whose last byte is replaced by a NUL. */
  lemma FieldRead(name: seq<byte>, n: nat)
    requires NulFree(name) && n > 1
    ensures CStr(Pad(name, n)[..n - 1]) == Truncate(name, n)
  {
    var kept := Truncate(name, n);
    var rest := Zeros(n - 1 - |kept|);
    assert Pad(name, n)[..n - 1] == kept + rest;
    if |kept| < n - 1 {
      CStrUntilNul(kept, rest);
    } else {
      assert kept + rest == kept;
      CStrOfNulFree(kept);
    }
  }

  lemma HeaderApart(h: BasicHeader, body: seq<byte>)
    ensures
      var stream := BasicWire(h) + body;
      && stream[..HEADER_BASIC_SIZE] == BasicWire(h) && stream[HEADER_BASIC_SIZE..] == body
      && BasicUnwire(stream[..HEADER_BASIC_SIZE]) == h
  {
    BasicUnwireOfWire(h);
  }

  lemma FieldApart(field: seq<byte>, rest: seq<byte>)
    requires |field| == BUSID_MAX
    ensures
      var body := field + rest;
      body[..BUSID_MAX - 1] == field[..BUSID_MAX - 1] && body[BUSID_MAX..] == rest
  {
  }

  /** The bytes of the two requests. */
  lemma RequestsLaidOut(busid: seq<byte>)
    ensures
      var r := EncodeDevlistRequest();
      |r| == 8 && L.IsBasicHeader(r, 0x0111, 0x8005, 0)
    ensures
      var r := EncodeImportRequest(busid);
      && |r| == 40 && L.IsBasicHeader(r, 0x0111, 0x8003, 0)
      && forall i | 0 <= i < 32 :: r[8 + i] == if i < |busid| && i < 31 then busid[i] else 0
  {
    L.BasicWireLaidOut(RequestHeader(OP_REQ_DEVLIST));
    L.BasicWireLaidOut(RequestHeader(OP_REQ_IMPORT));
    L.BasicInFront(BasicWire(RequestHeader(OP_REQ_IMPORT)), Pad(busid, BUSID_MAX), 0x0111, 0x8003, 0);
  }

  /** What the server makes of the bytes of a request: bytes 2 and 3 are the command, the others of a header unread. */
  lemma RequestRead(stream: seq<byte>)
    requires |stream| >= 8
    ensures
      var hi: int, lo: int := stream[2], stream[3];
      var command := 0x100 * hi + lo;
      ParseRequest(stream) ==
        if command == 0x8005 then Some((Devlist, stream[8..]))
        else if command != 0x8003 then Some((Unsupported(command), stream[8..]))
        else if |stream| < 40 then None
        else Some((Import(CStr(stream[8..39])), stream[40..]))
  {
    L.BasicUnwireLaidOut(stream[..8]);
    var rest := stream[8..];
    if |stream| >= 40 {
      assert rest[..31] == stream[8..39] && rest[32..] == stream[40..];
    }
  }

  /** An import request names the first 31 bytes of the bus id; the bytes after it are untouched. */
  lemma ImportRequestRoundTrip(busid: seq<byte>, rest: seq<byte>)
    requires NulFree(busid)
    ensures ParseRequest(EncodeImportRequest(busid) + rest) == Some((Import(Truncate(busid, BUSID_MAX)), rest))
  {
    var field := Pad(busid, BUSID_MAX);
    Associative(BasicWire(RequestHeader(OP_REQ_IMPORT)), field, rest);
    HeaderApart(RequestHeader(OP_REQ_IMPORT), field + rest);
    FieldApart(field, rest);
    FieldRead(busid, BUSID_MAX);
  }

  lemma DevlistRequestRoundTrip(rest: seq<byte>)
    ensures ParseRequest(EncodeDevlistRequest() + rest) == Some((Devlist, rest))
  {
    HeaderApart(RequestHeader(OP_REQ_DEVLIST), rest);
  }

  lemma {:induction false} CStrOfNulFree(s: seq<byte>)
    requires NulFree(s)
    ensures CStr(s) == s
  {
    if s != [] {
      CStrOfNulFree(s[1..]);
    }
  }

  /**
   * All that the client sends on an attaching connection: handshake, import request, URB messages. The server
   * accepts the token, reads which device is asked for, and decodes exactly the messages, with nothing misread
   * in between.
   */
  lemma ConnectionRoundTrip(token: seq<byte>, busid: seq<byte>, ms: seq<Message>)
    requires |token| <= Auth.AUTH_TOKEN_MAX_LEN
    requires NulFree(busid) && |busid| < BUSID_MAX
    requires AllWellFormed(ms, Server)
    ensures
      var messages := EncodeAll(ms);
      var request := EncodeImportRequest(busid) + messages;
      var stream := (if Auth.Enabled(token) then Auth.Handshake(token) else []) + request;
      && Auth.Accepts(token, stream, request)
      && ParseRequest(request) == Some((Import(busid), messages))
      && ParseAll(messages, Server) == ms && Remainder(messages, Server) == []
  {
    var messages := EncodeAll(ms);
    var request := EncodeImportRequest(busid) + messages;
    if Auth.Enabled(token) {
      Auth.HandshakeRoundTrip(token, token, request);
    } else {
      assert [] + request == request;
    }
    ImportRequestRoundTrip(busid, messages);
    StreamRoundTrip(ms, [], Server);
    assert messages + [] == messages;
    assert ms + ParseAll([], Server) == ms;
  }
}
