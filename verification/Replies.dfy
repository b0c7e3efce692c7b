/**
 * What the server writes to an attached client (server/main.c, server/client_manager.c): answers to
 * submissions and to unlinks. A failed send ends only the loop over the completed entries, so further answers
 * may follow a torn one on the same connection. What it amounts to is what a reader of the message format on
 * the other end makes of it; this repository's own client receives no URB message.
 */
module Replies {
  import opened Bytes
  import opened Seqs
  import opened Structs
  import opened Net
  import opened Session
  import Urbs
  import M = UrbMachine
  import T = UrbTheorems

  /** A message handed to the send calls and how many of its bytes they moved. */
  datatype Attempt = Attempt(message: Message, sent: nat)
  {
    predicate Valid() {
      WellFormed(message, Client) && sent <= Size(message)
    }
    predicate Whole() {
      sent == Size(message)
    }
    /** Some of the message is on the wire, but not all of it. */
    predicate Torn() {
      0 < sent < Size(message)
    }
  }

  predicate AllValid(attempts: seq<Attempt>) {
    forall i | 0 <= i < |attempts| :: attempts[i].Valid()
  }

  /** The bytes that a sequence of attempts puts on the wire. */
  function Written(attempts: seq<Attempt>): seq<byte>
    requires AllValid(attempts)
  {
    if attempts == [] then []
    else
      var last := attempts[|attempts| - 1];
      Written(attempts[..|attempts| - 1]) + Encode(last.message)[..last.sent]
  }

  /** The messages that went out whole. */
  function Sent(attempts: seq<Attempt>): (ms: seq<Message>)
    requires AllValid(attempts)
    ensures AllWellFormed(ms, Client)
  {
    if attempts == [] then []
    else
      var last := attempts[|attempts| - 1];
      Sent(attempts[..|attempts| - 1]) + if last.Whole() then [last.message] else []
  }

  predicate NoneTorn(attempts: seq<Attempt>) {
    forall i | 0 <= i < |attempts| :: !attempts[i].Torn()
  }

  /** A reader of the message format finds exactly these messages and nothing is left over. */
  predicate ReadsExactly(stream: seq<byte>, ms: seq<Message>) {
    ParseAll(stream, Client) == ms && Remainder(stream, Client) == []
  }

  lemma {:induction false} EncodeAppend(ms: seq<Message>, m: Message)
    requires AllWellFormed(ms, Client) && WellFormed(m, Client)
    ensures AllWellFormed(ms + [m], Client) && EncodeAll(ms + [m]) == EncodeAll(ms) + Encode(m)
  {
    if ms == [] {
      assert [m][1..] == [];
      assert Encode(m) + [] == Encode(m);
    } else {
      assert WellFormed(ms[0], Client) && AllWellFormed(ms[1..], Client);
      EncodeAppend(ms[1..], m);
      FirstApart(ms, [m]);
      Associative(Encode(ms[0]), EncodeAll(ms[1..]), Encode(m));
    }
  }

  lemma EncodingReadsBack(ms: seq<Message>)
    requires AllWellFormed(ms, Client)
    ensures ReadsExactly(EncodeAll(ms), ms)
  {
    StreamRoundTrip(ms, [], Client);
    assert EncodeAll(ms) + [] == EncodeAll(ms) && ms + [] == ms;
  }

  lemma ReadsBackEncoding(stream: seq<byte>, ms: seq<Message>)
    requires AllWellFormed(ms, Client) && ReadsExactly(stream, ms)
    ensures stream == EncodeAll(ms)
  {
    StreamIsEncoded(stream, Client);
  }

  /** Every torn attempt makes the stream longer than what went out whole; without one it is just that. */
  lemma {:induction false} WrittenLength(attempts: seq<Attempt>)
    requires AllValid(attempts)
    ensures |Written(attempts)| >= |EncodeAll(Sent(attempts))|
    ensures NoneTorn(attempts) ==> Written(attempts) == EncodeAll(Sent(attempts))
    ensures !NoneTorn(attempts) ==> |Written(attempts)| > |EncodeAll(Sent(attempts))|
  {
    if attempts != [] {
      var front, last := attempts[..|attempts| - 1], attempts[|attempts| - 1];
      WrittenLength(front);
      TornInFront(attempts);
      if last.Whole() {
        EncodeAppend(Sent(front), last.message);
        assert Encode(last.message)[..last.sent] == Encode(last.message);
      } else {
        assert Sent(attempts) == Sent(front);
      }
    }
  }

  lemma TornInFront(attempts: seq<Attempt>)
    requires attempts != [] && AllValid(attempts)
    ensures NoneTorn(attempts) <==> NoneTorn(attempts[..|attempts| - 1]) && !attempts[|attempts| - 1].Torn()
  {
    var front := attempts[..|attempts| - 1];
    forall i | 0 <= i < |front| ensures front[i] == attempts[i] {
    }
  }

  /**
   * A reader finds exactly the answers that went out whole, with nothing left over, if and only if no
   * failing send had put a part of an answer on the wire.
   */
  lemma ReadsSentIff(attempts: seq<Attempt>)
    requires AllValid(attempts)
    ensures ReadsExactly(Written(attempts), Sent(attempts)) <==> NoneTorn(attempts)
  {
    WrittenLength(attempts);
    EncodingReadsBack(Sent(attempts));
    if ReadsExactly(Written(attempts), Sent(attempts)) {
      ReadsBackEncoding(Written(attempts), Sent(attempts));
    }
  }

  /** A torn answer after which nothing is written delivers nothing more: what came before is read, the rest waits. */
  lemma TornLast(attempts: seq<Attempt>, last: Attempt)
    requires AllValid(attempts) && NoneTorn(attempts) && last.Valid() && !last.Whole()
    ensures
      var stream := Written(attempts) + Encode(last.message)[..last.sent];
      ParseAll(stream, Client) == Sent(attempts) && Remainder(stream, Client) == Encode(last.message)[..last.sent]
  {
    var part := Encode(last.message)[..last.sent];
    WrittenLength(attempts);
    NoPartialMessage(last.message, last.sent, Client);
    StreamRoundTrip(Sent(attempts), part, Client);
    assert Sent(attempts) + [] == Sent(attempts);
  }

  // ---- The answers ----

  /** `usbip_create_urb_unlink_ret` with the status 0 that the server always gives. */
  function UnlinkReturn(seqnum: uint32, devid: uint32): (m: Message)
    ensures WellFormed(m, Client)
  {
    Message(UrbHeader(USBIP_RET_UNLINK, seqnum, devid, 0, 0, [0, 0, 0, 0, 0], Zeros(8)), [])
  }

  function AsMessage(reply: Urbs.Reply): Message {
    Message(reply.header, reply.payload)
  }

  /** An answer that tells the outcome of a request announces exactly the data that follows it. */
  lemma AnswerWellFormed(reply: Urbs.Reply, r: Urbs.Request, outcome: Option<Urbs.DeviceResult>)
    requires r.Valid() && Urbs.AnswersRequest(reply, r, outcome)
    ensures WellFormed(AsMessage(reply), Client)
  {
  }

  function AsMessages(replies: seq<Urbs.Reply>): (ms: seq<Message>)
    ensures |ms| == |replies|
  {
    seq(|replies|, i requires 0 <= i < |replies| => AsMessage(replies[i]))
  }

  /** In every run of the handler all answers sent are framed so that a reader gets them back one by one. */
  lemma AnswersReadBack(s: M.State)
    requires M.Reachable(s)
    ensures
      var ms := AsMessages(s.h.replies);
      AllWellFormed(ms, Client) && ReadsExactly(EncodeAll(ms), ms)
  {
    T.ReplyMatching(s);
    var ms := AsMessages(s.h.replies);
    forall k: nat | k < |ms| ensures WellFormed(ms[k], Client) {
      assert T.Matched(s, k);
      var id := T.AnsweredId(s, k);
      AnswerWellFormed(s.h.replies[k], s.h.requests[id], T.OutcomeOf(s.h, id));
    }
    EncodingReadsBack(ms);
  }

  /** The RET_SUBMIT messages (command 3) that went out whole, in order. */
  function AnswersSent(attempts: seq<Attempt>): seq<Message> {
    if attempts == [] then []
    else
      var last := attempts[|attempts| - 1];
      var front := AnswersSent(attempts[..|attempts| - 1]);
      if last.message.header.command == 3 && last.sent == 48 + |last.message.payload| then front + [last.message]
      else front
  }

  /** The bytes of data that messages carry, together. */
  function DataBytes(ms: seq<Message>): nat {
    if ms == [] then 0 else DataBytes(ms[..|ms| - 1]) + |ms[|ms| - 1].payload|
  }

  lemma {:induction false} DataOfReplies(replies: seq<Urbs.Reply>)
    ensures DataBytes(AsMessages(replies)) == M.PayloadBytes(replies)
    decreases |replies|
  {
    if replies != [] {
      DataOfReplies(replies[..|replies| - 1]);
      assert AsMessages(replies)[..|replies| - 1] == AsMessages(replies[..|replies| - 1]);
    }
  }

  lemma AnswersSentNext(attempts: seq<Attempt>, a: Attempt)
    ensures AnswersSent(attempts + [a]) ==
      if a.message.header.command == 3 && a.sent == 48 + |a.message.payload| then AnswersSent(attempts) + [a.message]
      else AnswersSent(attempts)
  {
    assert (attempts + [a])[..|attempts|] == attempts;
  }

  lemma AsMessagesNext(replies: seq<Urbs.Reply>, reply: Urbs.Reply)
    ensures AsMessages(replies + [reply]) == AsMessages(replies) + [AsMessage(reply)]
  {
  }

  /** An answer to a submission. */
  predicate IsAnswer(m: Message) {
    WellFormed(m, Client) && m.header.command == USBIP_RET_SUBMIT
  }

  predicate AllAnswers(ms: seq<Message>) {
    forall i | 0 <= i < |ms| :: IsAnswer(ms[i])
  }

  lemma AnswersSplit(ms: seq<Message>)
    requires AllAnswers(ms) && ms != []
    ensures IsAnswer(ms[0]) && AllAnswers(ms[1..]) && ms == [ms[0]] + ms[1..]
  {
  }

  lemma AnswersJoin(ms: seq<Message>, more: seq<Message>)
    requires AllAnswers(ms) && AllAnswers(more)
    ensures AllAnswers(ms + more)
  {
  }

  /** What one turn of the session brings: newly completed entries, or an unlink to answer. */
  datatype Turn = Completed(messages: seq<Message>) | Unlink(seqnum: uint32, devid: uint32)
  {
    predicate Valid() {
      Completed? ==> AllAnswers(messages)
    }
    /** The queue of completed entries, longer by those that complete. */
    function Joined(queue: seq<Message>): seq<Message> {
      if Completed? then queue + messages else queue
    }
  }

  /** The answers to submissions among the attempts, in order. */
  function Answers(attempts: seq<Attempt>): seq<Message> {
    if attempts == [] then []
    else
      var m := attempts[|attempts| - 1].message;
      var front := Answers(attempts[..|attempts| - 1]);
      if m.header.command == USBIP_RET_SUBMIT then front + [m] else front
  }

  /** All entries that complete during the turns, in order. */
  function Completions(turns: seq<Turn>): seq<Message> {
    if turns == [] then []
    else
      turns[|turns| - 1].Joined(Completions(turns[..|turns| - 1]))
  }

  lemma CompletionsNext(turns: seq<Turn>, i: nat, answered: seq<Message>, queued: seq<Message>)
    requires i < |turns| && answered + queued == Completions(turns[..i])
    ensures answered + turns[i].Joined(queued) == Completions(turns[..i + 1])
  {
    assert turns[..i + 1][..i] == turns[..i];
    if turns[i].Completed? {
      Associative(answered, queued, turns[i].messages);
    }
  }

  lemma OneMore(attempts: seq<Attempt>, a: Attempt)
    requires AllValid(attempts) && a.Valid()
    ensures AllValid(attempts + [a])
    ensures Written(attempts + [a]) == Written(attempts) + Encode(a.message)[..a.sent]
    ensures Answers(attempts + [a]) ==
      if a.message.header.command == USBIP_RET_SUBMIT then Answers(attempts) + [a.message] else Answers(attempts)
  {
    assert (attempts + [a])[..|attempts|] == attempts;
  }

  /** One send of an answer; `before` are the attempts made so far on top of the bytes `base`. */
  method TrySend(sock: Socket, m: Message, ghost base: seq<byte>, ghost before: seq<Attempt>)
    returns (ok: bool, ghost attempts: seq<Attempt>)
    requires WellFormed(m, Client) && AllValid(before) && sock.outgoing == base + Written(before)
    modifies sock`outgoing, sock`script
    ensures AllValid(attempts) && sock.outgoing == base + Written(attempts)
    ensures Answers(attempts) ==
      if m.header.command == USBIP_RET_SUBMIT then Answers(before) + [m] else Answers(before)
    ensures |attempts| == |before| + 1 && before <= attempts
    ensures attempts[|before|].message == m && (ok <==> attempts[|before|].Whole())
    ensures (forall o | o in sock.script :: o in old(sock.script)) && (Reliable(old(sock.script)) ==> ok)
  {
    ghost var sent;
    ok, sent := SendMessage(sock, m);
    ghost var a := Attempt(m, sent);
    attempts := before + [a];
    OneMore(before, a);
    Associative(base, Written(before), Encode(m)[..sent]);
  }

  /** These are the same attempts and perhaps some more, all of these whole. */
  predicate AllWholeAfter(before: seq<Attempt>, attempts: seq<Attempt>) {
    before <= attempts && forall i | |before| <= i < |attempts| :: attempts[i].Whole()
  }

  lemma OneMoreAfter(before: seq<Attempt>, some: seq<Attempt>, attempts: seq<Attempt>)
    requires AllWholeAfter(before, some) && some <= attempts && |attempts| <= |some| + 1
    ensures EndsWithFailure(before, attempts)
    ensures (|attempts| > |some| ==> attempts[|some|].Whole()) ==> AllWholeAfter(before, attempts)
  {
  }

  /** These are the same attempts and perhaps some more, all of them but the last whole. */
  predicate EndsWithFailure(before: seq<Attempt>, attempts: seq<Attempt>) {
    before <= attempts && forall i | |before| <= i < |attempts| - 1 :: attempts[i].Whole()
  }

  predicate LastFailed(before: seq<Attempt>, attempts: seq<Attempt>) {
    |attempts| > |before| && !attempts[|attempts| - 1].Whole()
  }

  /** One turn of the loop over the completed entries. */
  method AnswerNext(sock: Socket, queued: seq<Message>, ghost base: seq<byte>, ghost before: seq<Attempt>)
    returns (ok: bool, left: seq<Message>, ghost attempts: seq<Attempt>)
    requires queued != [] && AllAnswers(queued) && AllValid(before) && sock.outgoing == base + Written(before)
    modifies sock`outgoing, sock`script
    ensures AllValid(attempts) && sock.outgoing == base + Written(attempts) && before <= attempts
    ensures Answers(attempts) + left == Answers(before) + queued && AllAnswers(left) && |left| < |queued|
    ensures |attempts| == |before| + 1 && (ok <==> attempts[|before|].Whole())
    ensures !ok ==> LastFailed(before, attempts)
  {
    var m := queued[0];
    left := queued[1..];
    AnswersSplit(queued);
    Associative(Answers(before), [m], left);
    ok, attempts := TrySend(sock, m, base, before);
  }

  /**
   * The loop over the completed entries: each is freed after one attempt, and a failing one ends the loop.
   * What is left stays queued.
   */
  method AnswerCompleted(sock: Socket, completed: seq<Message>, ghost base: seq<byte>, ghost before: seq<Attempt>)
    returns (ok: bool, left: seq<Message>, ghost attempts: seq<Attempt>)
    requires AllAnswers(completed) && AllValid(before) && sock.outgoing == base + Written(before)
    modifies sock`outgoing, sock`script
    ensures AllValid(attempts) && sock.outgoing == base + Written(attempts) && before <= attempts
    ensures Answers(attempts) + left == Answers(before) + completed && AllAnswers(left)
    ensures (left != [] ==> !ok) && (!ok ==> LastFailed(before, attempts)) && EndsWithFailure(before, attempts)
  {
    ok, left, attempts := true, completed, before;
    while left != [] && ok
      invariant AllValid(attempts) && sock.outgoing == base + Written(attempts) && before <= attempts
      invariant Answers(attempts) + left == Answers(before) + completed && AllAnswers(left)
      invariant !ok ==> LastFailed(before, attempts)
      invariant EndsWithFailure(before, attempts) && (ok ==> AllWholeAfter(before, attempts))
      decreases |left|
    {
      ghost var some := attempts;
      ok, left, attempts := AnswerNext(sock, left, base, some);
      OneMoreAfter(before, some, attempts);
    }
  }

  /** One turn, with the entries still queued from the turns before. */
  method TakeTurn(sock: Socket, turn: Turn, queued: seq<Message>, ghost base: seq<byte>, ghost before: seq<Attempt>)
    returns (left: seq<Message>, ghost attempts: seq<Attempt>)
    requires turn.Valid() && AllAnswers(queued) && AllValid(before) && sock.outgoing == base + Written(before)
    modifies sock`outgoing, sock`script
    ensures AllValid(attempts) && sock.outgoing == base + Written(attempts)
    ensures Answers(attempts) + left == Answers(before) + turn.Joined(queued) && AllAnswers(left)
  {
    var ok;
    if turn.Completed? {
      AnswersJoin(queued, turn.messages);
      ok, left, attempts := AnswerCompleted(sock, queued + turn.messages, base, before);
    } else {
      left := queued;
      ok, attempts := TrySend(sock, UnlinkReturn(turn.seqnum, turn.devid), base, before);
    }
  }

  /**
   * The writing side of `handle_client_session`, over any turns and any behaviour of the connection: every
   * completed entry is attempted at most once and in order, the others are still queued; and a reader
   * finds exactly the answers that went out whole if and only if none was torn.
   */
  method AnswerTurns(sock: Socket, turns: seq<Turn>) returns (left: seq<Message>, ghost attempts: seq<Attempt>)
    requires forall i | 0 <= i < |turns| :: turns[i].Valid()
    modifies sock`outgoing, sock`script
    ensures AllValid(attempts) && sock.outgoing == old(sock.outgoing) + Written(attempts)
    ensures Answers(attempts) + left == Completions(turns)
    ensures ReadsExactly(Written(attempts), Sent(attempts)) <==> NoneTorn(attempts)
  {
    ghost var base := sock.outgoing;
    left, attempts := [], [];
    assert base + Written([]) == base;
    var i: nat := 0;
    while i < |turns|
      invariant i <= |turns| && AllValid(attempts) && sock.outgoing == base + Written(attempts)
      invariant Answers(attempts) + left == Completions(turns[..i]) && AllAnswers(left)
    {
      CompletionsNext(turns, i, Answers(attempts), left);
      left, attempts := TakeTurn(sock, turns[i], left, base, attempts);
      i := i + 1;
    }
    assert turns[..i] == turns;
    ReadsSentIff(attempts);
  }
}
