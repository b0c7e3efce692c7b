# A verified model of the USB/IP server and client

The repository shares USB devices over a network: a server exports devices, a client attaches them to virtual
ports, and USB request blocks (URBs) travel between them in the format of the Linux kernel's "USB/IP protocol"
document. This project models the parts of it in which something can go wrong between operations, and proves
what they guarantee. `dafny verify dfyconfig.toml` checks all of it.

- **The URB handler** (`UrbMachine`, `UrbInvariant`, `UrbTheorems`). Two threads, two mutex-protected queues,
  an auto-reset event and a flag without a lock, as a transition system whose atomic steps are the locked
  regions. An entry on its way between the queues is held by a thread and is in neither. The theorems hold in
  every interleaving. Entries carry a number of their own, because sequence numbers are chosen by the client
  and may repeat. The event stays set until a wait consumes it, as Win32 events do, although a comment in
  `server/urb_handler.c:75` says that a signal nobody waits for is dropped.
- **The same on the heap** (`UrbQueue`, `UrbStore`, `UrbHandler`). The linked queues with head, tail, next and
  count represent sequences; each locked region on them performs exactly the step of the transition system, and
  any run of it is followed by them (`UrbHandler.Handler.Perform`).
- **Ownership** (`Ownership`, `OwnershipInvariant`, `OwnershipRuns`, `Cli`, `ServerObjects`). Client list,
  device list and the open and claimed flags of the devices agree in every run, through five points of
  failure and roll-back in an attach. `ServerObjects` has the entries and clients as objects whose fields are
  updated in place and that refer to each other, in lists that are sequences of objects, proved against the
  functions of `Ownership`; `Cli` is the accept and session loop of the server.
- **The device list** (`Refresh`, `ListOrder`, `BusIds`, `Devlist`, `Import`). Refreshing it, the bus ids it is
  keyed by, and its exchange with a client, byte by byte, as well as the reply to an import.
- **The session end to end** (`Attached`, `Serving`). Received messages, handler, worker and written bytes of an
  attached client in one transition system: which submission each answer on the wire is for. `Serving` is the loop
  itself on the socket and the linked queues, with the worker moving in between; whatever it does is a run of that
  system.
- **Wire format and framing** (`Bytes`, `Structs`, `Layout`, `Net`, `Auth`, `Session`, `Replies`). The layout of every
  header by its bytes, written out apart from the code that packs it; byte order conversion in place, loops over
  calls that move any part of what is asked, the handshake, and the message stream in both directions, with sends
  that fail part-way.
- **The client's ports** (`Vhci`, `RemoteDevices`). Connecting in many steps that may each fail, and the
  bijection between occupied ports and listed devices.
- **The client limit** (`Capacity`). The test of the count is made outside the lock.

What a call outside the program does is a parameter or a script: partial, blocking, failing or expiring
socket calls, allocation, how a device opens, whether it succeeds and how many bytes it moves (never more than
the buffer holds), whether the driver accepts a device. Attaching assumes, as `server/main.c:156` ensures, that
the client has no device yet; `AttachKeepsInvIff` says what happens otherwise.

## Where the code does less than one might expect

Each of these is stated exactly by a lemma.

- A refresh restores all exports only while at most 32 devices are exported (`RestoresIff`); with at most 16
  clients that is always so (`ExportsAtMostClients`).
- The bus ids that "keep siblings distinct" (`server/usb_host_win32.c:44-48`) show seven bits of a hash: ids that
  agree in these get the same one (`SameBusIdIff`), as "BU" and "CB" do (`CollidingPair`), and a device loses its
  entry exactly if one reported later collides with it (`LosesEntryIff`, `AllListedIff`).
- The device count announced leaves out exported devices, the records sent do not (`AnnouncedAtMostShared`);
  the server's one-client loop makes them agree (`DevlistAgreement`).
- Up to 32 interface records are sent, but as many skipped as the device has (`DeviceRoundTripIff`, `ReadLate`);
  the enumeration reports one interface for every device, so this server never gets there.
- After an answer that was sent in part the connection stays in use: a reader of the message format finds exactly the
  answers that went out whole if and only if none was torn (`ReadsSentIff`).
- A roll-back leaves the noted interface number at -1 (`AttachAllOrNothing`, `DetachUndoesAttach`).
- The comparison of tokens cuts the configured length to 8 bits (`OnlyTheTokenIff`).
- An answer repeats endpoint and direction only as far as they fit (`ReplyAnswersRequest`).
- A failed handshake closes the client's socket twice (`ClosedOnceIff`).
- The limit of 16 clients holds exactly with one accepting thread (`LimitHoldsIff`).
- IN requests to endpoint 0 are not carried out as control transfers (`DispatchedAsControlIff`), and requests that
  are not IN may read from the device data that nobody gets (`ReadInVainIff`).

## Model

| member | source | states |
|---|---|---|
| `Structs.SwapInvolution` | common/protocol.c:13-27 | Swapping the same groups of bytes twice gives back the original bytes, for any set of 2- and 4-byte groups. |
| `Structs.PackHeaderBasic` | common/protocol.c:31-41 | In place: the bytes of the two 16-bit fields and of the 32-bit field of the 8-byte header are reversed at offsets 0, 2 and 4. |
| `Structs.PackDevice` | common/protocol.c:43-59 | In place: the bytes of three words at 288, 292 and 296 and of three half words at 300, 302 and 304 of the 312-byte record are reversed, and no other byte changes. |
| `Structs.PackIsoPacket` | common/protocol.c:133-145 | In place: the bytes of each of the four words of an isochronous descriptor are reversed. |
| `Structs.PackHeader` | common/protocol.c:61-95 | In place, byte by byte: the words at 0 to 16 are reversed; then five words from 20 on for the commands 1 and 3, the one at 20 for 2 and 4, none for others; every other byte stays. |
| `Structs.UnpackHeader` | common/protocol.c:97-131 | In place, byte by byte: the same, for the command that the first four received bytes are in big-endian order. |
| `Structs.UrbHeaderRoundTrip` | common/protocol.c:61-131 | Every 48-byte header, known command or not, survives packing for its own command and unpacking. |
| `Structs.UrbHeaderRoundTripIff` | common/protocol.c:61-131 | Packing for any command is undone exactly if the words that only one of the two arms swaps are palindromes. |
| `Layout.WireLaidOut` | common/protocol.c:61-95 | What is sent for a header has command, seqnum, devid, direction and ep big-endian at 0, 4, 8, 12 and 16; after commands 1 and 3 five big-endian words from 20 on, after 2 and 4 one, and the remaining words as they lie in memory; set-up bytes at 40 to 47. |
| `Layout.UnwireLaidOut` | common/protocol.c:97-131 | Whatever 48 bytes arrive, the header read from them is the one laid out in them like that. |
| `Layout.BasicWireLaidOut` | common/protocol.c:31-41 | The 8-byte header has version, command and status big-endian at 0, 2 and 4. |
| `Structs.UnwireOfWire` | common/protocol.c:302-337 | A header is received as it was sent. |
| `Structs.WireOfUnwire` | common/protocol.c:323-337 | Any 48 received bytes are the wire form of the header they are read as. |
| `Structs.BasicUnwireOfWire` | common/protocol.c:234-262 | An 8-byte operation header is received as it was sent. |
| `Net.NetRecvAll` | common/network_win32.c:330-353 | For every sequence of partial, blocking and failing calls: the bytes received so far and those still to come are the stream; a short count means end of stream, -1 a failed call. |
| `Net.NetRecvAllTimeout` | common/network_win32.c:396-432 | The same, with -1 also when the time runs out. |
| `Net.NetSendAll` | common/network_win32.c:303-325 | The full count exactly appends the data; any other result appended a proper prefix of it. |
| `Net.NetSendAllTimeout` | common/network_win32.c:358-391 | All data or -1, which only a failing call or running out of time causes. |
| `Auth.BuildHandshake` | common/auth.c:29-45 | A length is returned exactly for tokens of 1 to 64 bytes that fit; the buffer then starts with magic, length and token. |
| `Auth.CompareTokens` | common/auth.c:79-90 | The xor-and-or loop accepts exactly if the presented token is a prefix and the lengths agree in 8 bits. |
| `Auth.ServerHandshake` | common/auth.c:47-91 | The peer is let through only on an accepted stream, of which exactly the handshake has been read; without failing calls or time-outs an accepted stream is never turned away. |
| `Auth.ClientHandshake` | common/auth.c:93-110 | One handshake is sent, nothing for an empty token, and an error exactly for one over 64 bytes. |
| `Auth.HandshakeLaidOut` | common/auth.c:29-45 | The handshake is the four bytes of "UBON", one with the length, and the token. |
| `Auth.AcceptsIff` | common/auth.c:47-91 | With a token configured, exactly those streams are let through that start with these four bytes, a length from 1 to 64 and a token of that length which the configured one starts with and whose length agrees with its in 8 bits; without one, all. |
| `Auth.MatchesIsEquality` | common/auth.c:80-85 | For configured tokens of up to 256 bytes the comparison is equality. |
| `Auth.HandshakeRoundTrip` | common/auth.c:29-110 | Presenting a token of 1 to 64 bytes gets through exactly if it is the configured one, leaving what follows unread. |
| `Auth.OnlyTheTokenIff` | common/auth.c:82-85 | Only the configured token gets through if and only if its length, cut to 8 bits, is not that of a shorter plausible token. |
| `Session.SendMessage` | common/protocol.c:302-352 | Success appends exactly header and payload in wire form; a failure appends a proper part of them, of the noted length. |
| `Session.ReceiveHeader` | common/protocol.c:323-337 | The header of the next 48 bytes, or nothing exactly if the stream is shorter or a call failed. |
| `Session.ReceiveMessage` | server/main.c:168-196 | The next message of the stream: payload only after an OUT submission with a length, and only if its buffer can be allocated; the reader then stands at the next message. Without failing calls nothing is delivered exactly if the stream has no message left or the buffer is missing. |
| `Session.ServerReads` | server/main.c:177-196 | After a header the server takes data exactly for command 1 in direction 0: as many bytes as the second word of its arm says; every other header is a message by itself, and what follows is left. |
| `Session.ClientReads` | server/client_manager.c:604-627 | A reader of the answers takes data exactly after command 3 in direction 1, as many bytes as the second word of its arm says. |
| `Session.ReceiveAll` | server/main.c:155-231 | Over the turns for which the server runs, with or without memory for each buffer, the loop delivers an initial part of the predicted messages, all of them unless a call fails. |
| `Session.AllDeliveredIff` | server/main.c:155-196 | What is predicted is an initial part of the stream's messages, all of them exactly if there are turns enough and a buffer for each message with data. |
| `Session.ParseIffEncoded` | server/main.c:168-196 | A stream starts with a message exactly if it is that message's encoding followed by the rest. |
| `Session.StreamRoundTrip` | server/main.c:168-226 | Any sequence of messages is read back exactly, and the reader stands at the boundary after the last one. |
| `Session.StreamIsEncoded` | server/main.c:168-226 | Every stream whatever is the encoding of the messages read from it followed by what is left. |
| `Session.NoPartialMessage` | server/main.c:171-195 | A proper part of a message is never delivered. |
| `Session.Transfer` | common/network_win32.c:303-353 | Whatever pieces both ends move the bytes in, the receiver delivers exactly the messages sent. |
| `Session.ReceiveRequest` | server/client_manager.c:428-459 | The operation request at the start of the stream, by command, leaving what follows unread. |
| `Session.RequestsLaidOut` | common/protocol.c:149-172 | The requests are headers of version 0x0111, command 0x8005 or 0x8003 and status 0; a 32-byte field follows the latter with at most 31 bytes of the bus id and zeros. |
| `Session.RequestRead` | server/client_manager.c:428-459 | Bytes 2 and 3 decide: 0x8005 is a device list, 0x8003 an import of the string in the next 32 bytes, whose last is ignored; everything else is unsupported. |
| `Session.ImportRequestRoundTrip` | common/protocol.c:164-172 | An import request names the first 31 bytes of the bus id, and the bytes after it are untouched. |
| `Session.DevlistRequestRoundTrip` | common/protocol.c:149-154 | A device list request is recognised and the bytes after it are untouched. |
| `Session.ConnectionRoundTrip` | server/main.c:254-277 | The client's bytes of a whole connection (handshake, import request, URB messages): the token is accepted, the named device is read and the messages are decoded exactly. |
| `Replies.AnswerTurns` | server/main.c:205-226 | Over any turns, whatever completes in them, and any behaviour of the connection, completed entries are attempted at most once, in order, and the others are still queued; a reader of the message format finds exactly what went out whole if and only if nothing was torn. |
| `Replies.AnswerCompleted` | server/main.c:206-215 | The loop over completed entries ends exactly after a failed attempt or with none left: all attempts but the last are whole; a failed one is not repeated and the rest stays queued in order. |
| `Replies.ReadsSentIff` | server/main.c:208-225 | For any attempts with any cuts: a reader of the message format finds exactly the answers sent whole, with nothing left over, if and only if no failing send had written a part. |
| `Replies.TornLast` | server/client_manager.c:611-624 | A torn answer with nothing after it is not read; everything before it is, and the part waits. |
| `Replies.AnswersReadBack` | server/client_manager.c:604-627 | In every run of the URB handler the answers sent are framed so that a reader of the message format gets back each of them and nothing else. |
| `Attached.InvKept` | server/main.c:168-228 | Every event of the session, and every step of the worker in between, keeps what ties input, handler and output together: the handler's requests are the accepted submissions received, each freed entry was answered once, each unlink too. |
| `Attached.EndToEnd` | server/main.c:168-228 | For every stream sent by the client and every interleaving with the worker: what is received is an initial part of its messages; each answer is for a submission of its own among them and tells what the device did with that one; the answers on record, whose data is counted in 64 bits, are exactly those sent whole; each entry cancelled was named by an unlink of its own, received later; each unlink is answered once, in order, by command 4 with its seqnum and devid and zeros; a reader finds exactly what was sent whole if and only if nothing was torn. |
| `Attached.DrainingGoesOnIff` | server/main.c:206-215 | The loop over completed entries goes on exactly while there is one and its answer, 48 bytes and the data, went out whole. |
| `Attached.UnlinkServed` | server/urb_handler.c:284-312 | An unlink takes the oldest pending entry whose seqnum is the first word of its arm, marked cancelled with status -105, out of the queue; with no such entry it changes nothing in the handler. |
| `Attached.NeverStuck` | server/main.c:168-228 | Until the session ends the session thread always has a step of its own: it never waits for the worker. |
| `Serving.Serve` | server/main.c:155-231 | The session loop on socket and linked queues, for any behaviour of socket, memory and device and any steps of the worker between a message or an entry and the next: the objects end in a state of a run of `Attached` for the bytes received, and what is written are that run's sends; all predicted messages are delivered unless a call fails, a submission is refused exactly for lack of memory in its turn, and every send goes out whole unless a call fails. |
| `Serving.ServeTurn` | server/main.c:168-226 | One turn takes exactly the next message that there is, and a buffer for, and ends between two messages or ends the session; the handler's state and the bytes written advance together. |
| `Serving.HandleMessage` | server/main.c:177-226 | After a submission, accepted or refused, the completed entries are drained up to the first failing send; an unlink is carried out and answered, with its seqnum and devid, before the next message; any other command changes nothing. |
| `Serving.AnswerAll` | server/main.c:206-215 | The loop over completed entries, while the worker completes more, ends with none left or with the first failing send; received messages and the fates of submissions stay as they are. |
| `Serving.WorkerMove` | server/urb_handler.c:127-170 | One step of the worker thread on the heap, wherever it is, leaves socket, log and session thread as they are and reaches the state after it. |
| `Urbs.ReplyAnswersRequest` | server/urb_handler.c:428-449 | The answer has command 3, repeats seqnum, devid, set-up and iso fields and counts no error; ep and direction are cut to 4 and 8 bits and agree exactly if they fit; status, length and IN payload are those of the device's outcome: 0 or -5, without one -105 and nothing. |
| `Urbs.CreatedAsSubmitted` | server/urb_handler.c:227-270 | Every field of the entry from those of the request: the low seven bits of the endpoint stay, and the eighth is set exactly if it was or the direction is IN; it is a control transfer exactly for endpoint 0; OUT data is cut to the buffer's length, others have none. |
| `Urbs.DispatchedAsControlIff` | server/usb_host_win32.c:741-757 | Requests to endpoint 0 are carried out as control transfers exactly if they are not IN, because IN has changed the endpoint before. |
| `Urbs.ReadInVainIff` | server/usb_host_win32.c:696-704 | Data is read from the device without being sent back exactly for requests that are not IN but name an endpoint with bit 7 set, or endpoint 0 with a set-up packet that asks for data. |
| `UrbInvariant.InvKept` | server/urb_handler.c:62-377 | Every step of either thread keeps the protocol's invariant: order, cancellation, wake-up, control, outcomes and answers. |
| `UrbInvariant.ReachableInv` | server/urb_handler.c:62-377 | Every state of every interleaving satisfies the invariant. |
| `UrbTheorems.Conservation` | server/urb_handler.c:62-169 | At every point of every interleaving each accepted submission is in exactly one place: pending, held by the worker, held by the session thread, completed, or freed. |
| `UrbTheorems.OrderAndExclusion` | server/urb_handler.c:96-169 | What went to the device is an initial part of the submission order without the cancelled requests, each once; nothing cancelled is executed; answers come in execution order and cancelled ones in cancellation order. |
| `UrbTheorems.DeviceGetsTheRequest` | server/urb_handler.c:215-282 | The device is given each request exactly as it was submitted, field by field. |
| `UrbTheorems.NoLostWakeup` | server/urb_handler.c:62-77 | A worker that waits, or is about to, while something is pending or it must stop, has the event set or a signaller between its update and its signal. |
| `UrbTheorems.WorkerNeedsNoWatchdog` | server/urb_handler.c:132-144 | With no wait ever timing out, the worker on its own executes everything not cancelled and parks, or, once told to stop, exits so that the join returns. |
| `UrbTheorems.StopDrains` | server/urb_handler.c:346-377 | When stop returns, the worker has exited and the handler is stopped and drained. |
| `UrbTheorems.StoppedIsDrained` | server/urb_handler.c:346-377 | In every reachable state in which the handler is stopped with nothing pending: no worker is left, every accepted submission was answered or is completed, everything not cancelled was executed, and each completed entry is its request executed with the recorded outcome or cancelled. |
| `UrbTheorems.CleanupFreesOnce` | server/urb_handler.c:199-211 | After clean-up every accepted submission has been freed exactly once and no thread holds any. |
| `UrbTheorems.ReplyMatching` | server/client_manager.c:604-627 | Every RET_SUBMIT ever sent settles an accepted submission of its own and agrees with it field by field; status, length and data are what the device did with this very request, -ECANCELED exactly for cancelled ones; the byte counter is the sum of the payloads sent, in 64 bits. |
| `UrbTheorems.RecordedAreSent` | server/main.c:208-215 | In every run one entry is freed for each answer made, and the answers recorded and counted are exactly those whose send succeeded. |
| `UrbTheorems.UnlinkTakesOldest` | server/urb_handler.c:96-122 | The oldest pending entry with the number leaves the queue marked cancelled, the others keep their order, and nothing else changes. |
| `UrbQueue.Queue.PushLocked` | server/urb_handler.c:62-74 | On the linked nodes: head, tail, links and count represent the old sequence with the entry appended. |
| `UrbQueue.Queue.Push` | server/urb_handler.c:62-77 | The same, with the event set afterwards. |
| `UrbQueue.Queue.Pop` | server/urb_handler.c:79-94 | The first entry is returned unlinked and the rest remain in order; null exactly for an empty queue. |
| `UrbQueue.Queue.FindRemove` | server/urb_handler.c:96-123 | Exactly the first entry with the sequence number is unlinked, at the head, in the middle or at the tail, and the rest keep their order. |
| `UrbQueue.Queue.Cleanup` | server/urb_handler.c:43-60 | Each entry is freed once, in order, and the queue is empty. |
| `UrbStore.Store.TakeMatching` | server/urb_handler.c:284-300 | With both queues on the heap, the first match leaves the pending queue, marked, for the session thread; the other queue and the worker's entry are untouched. |
| `UrbStore.Store.CompleteForWorker` | server/urb_handler.c:163-164 | The worker's entry is appended to the completed queue and held by nobody; the pending queue is untouched. |
| `UrbHandler.Handler.Start` | server/urb_handler.c:325-344 | Already running is no failure; otherwise the heap reaches the state after the start step, or is as before with an error exactly if the thread cannot be created. |
| `UrbHandler.Handler.Submit` | server/urb_handler.c:215-279 | With memory for the entry, and for its buffer if it has one, the linked queues reach the state after the submit step, the new entry last in line; without, an error and no change. |
| `UrbHandler.Handler.Signal` | server/urb_handler.c:75-77 | The heap reaches the state after the signal step. |
| `UrbHandler.Handler.FindUnlink` | server/urb_handler.c:284-300 | The linked queues reach the state after the unlink step; it is reported whether an entry was found. |
| `UrbHandler.Handler.PushUnlinked` | server/urb_handler.c:302-304 | The cancelled entry enters the completed queue. |
| `UrbHandler.Handler.Reap` | server/urb_handler.c:311-317 | The oldest completed entry is handed to the session thread. |
| `UrbHandler.Handler.Answered` | server/main.c:208-215 | After the answer attempt, sent or not, the entry is freed. |
| `UrbHandler.Handler.ClearRunning` | server/urb_handler.c:346-351 | The heap reaches the state after the running flag is cleared. |
| `UrbHandler.Handler.SignalStop` | server/urb_handler.c:352-353 | The event is set after the flag has been cleared. |
| `UrbHandler.Handler.CancelAll` | server/urb_handler.c:365-377 | After the join all pending entries, in order, have been moved to the end of the completed queue, each cancelled, by steps of the transition system. |
| `UrbHandler.Handler.Check` | server/urb_handler.c:132-132 | The worker goes on exactly while the flag is set. |
| `UrbHandler.Handler.Pop` | server/urb_handler.c:134-147 | The worker takes the oldest pending entry, or is about to wait exactly if there is none. |
| `UrbHandler.Handler.Wait` | server/urb_handler.c:136-144 | A wait that does not fail consumes the signal. |
| `UrbHandler.Handler.Transfer` | server/urb_handler.c:149-161 | The worker's entry gets the outcome of the device. |
| `UrbHandler.Handler.PushDone` | server/urb_handler.c:163-164 | The executed entry enters the completed queue. |
| `UrbHandler.Handler.Cleanup` | server/urb_handler.c:199-211 | Exactly the entries of both queues are freed, in order. |
| `UrbHandler.Handler.Perform` | server/urb_handler.c:62-377 | The simulation: after any run of the transition system, in any interleaving, the linked queues, the flag and the event represent the state in which the run ends. |
| `UrbHandler.Handler.Stop` | server/urb_handler.c:346-363 | Whatever the worker does until it exits, after stop the heap is drained: nothing pending, no worker, every accepted submission answered or settled in the completed queue; without effect if the handler does not run. |
| `OwnershipInvariant.AttachAllOrNothing` | server/client_manager.c:303-360 | Whichever step fails, clients, sharing, states and device flags are as before; the whole server is, exactly if the attach was refused outright or no interface number was noted. |
| `OwnershipInvariant.RollBackRestoresIff` | server/client_manager.c:321-326 | The roll-back gives any device its flags back exactly if it was closed, or claimed under an unusable number. |
| `OwnershipInvariant.AttachFailsIff` | server/client_manager.c:283-308 | A device is not found exactly if it is not listed or not shared, and busy exactly if it is shared but not available. |
| `OwnershipInvariant.AttachDecidedBy` | server/client_manager.c:312-371 | For a shared and available device: which missing path, claim, memory or system failure gives which error, and success exactly without any of them. |
| `OwnershipInvariant.AddDecidedBy` | server/client_manager.c:105-140 | A client is refused exactly with 16 connected; otherwise the id is used up, and with memory the new client comes first, with nothing but its id and address. |
| `OwnershipInvariant.AttachKeepsInv` | server/client_manager.c:275-375 | A successful attach keeps the agreement of client list, device list and device flags. |
| `OwnershipInvariant.DetachUndoesAttach` | server/client_manager.c:377-412 | Detaching restores the server as it was before the attach, up to the noted interface number. |
| `OwnershipInvariant.TeardownEquivalence` | server/main.c:279-281 | Detaching and then removing a client ends exactly where removing it alone does. |
| `OwnershipInvariant.RemoveKeepsInv` | server/client_manager.c:142-180 | Removing any client, attached or not, keeps the agreement. |
| `OwnershipRuns.AttachKeepsInvIff` | server/main.c:156-158 | An attach keeps the agreement exactly if the client has no device yet or the attach is refused outright. |
| `OwnershipRuns.DisconnectAllFrees` | server/client_manager.c:689-699 | Disconnecting everyone ends with no clients and exactly the exported entries given back. |
| `OwnershipRuns.OwnershipAgrees` | server/client_manager.c:105-412 | In every run from start-up: a client is attached exactly if it has a bus id, a handler and a device; that entry is exported to it, open and claimed; no device is shared; every exported entry has its client. |
| `ServerObjects.Acquire` | server/client_manager.c:311-360 | Open, claim, create, initialise, start, with each roll-back: the error is the first cause and the device ends acquired or rolled back. |
| `ServerObjects.Entry.Open` | server/usb_host_win32.c:405-458 | Fails exactly without a path, leaves an open device alone, otherwise opens it, possibly in virtual mode. |
| `ServerObjects.Entry.Claim` | server/usb_host_win32.c:588-607 | Refuses a closed device and one of which another interface is claimed, claims interface 0 of a free one, accepts a repeated claim; a refusal changes nothing. |
| `ServerObjects.Entry.Release` | server/usb_host_win32.c:609-624 | Only the claimed interface of an open device is released. |
| `ServerObjects.Entry.Close` | server/usb_host_win32.c:460-492 | An open device is closed, and released if its interface number fits 8 bits; a closed one is left alone. |
| `ServerObjects.Manager.FindEntry` | server/device_list.c:228-242 | The first entry with the bus id, or null exactly if there is none. |
| `ServerObjects.Manager.AttachDevice` | server/client_manager.c:275-375 | On the objects, in place: error and resulting lists are those of the ownership model; the ignored result of the export is always success. |
| `ServerObjects.Manager.DetachDevice` | server/client_manager.c:377-412 | On the objects: the detach of the model, through the client's device pointer. |
| `ServerObjects.Manager.UnexportEntry` | server/device_list.c:332-354 | On the objects: exactly the named entry becomes available. |
| `ServerObjects.Manager.RemoveClient` | server/client_manager.c:142-180 | On the objects: exactly this client is unlinked, its device unexported and closed; not found changes nothing. |
| `ServerObjects.Manager.AddClient` | server/client_manager.c:105-140 | On the objects: refused at 16 clients, an id used up even when allocation fails, otherwise a fresh client first in the list. |
| `ServerObjects.Manager.DisconnectAll` | server/client_manager.c:689-699 | On the objects: the loop ends with no clients, in the state of the model. |
| `ServerObjects.Manager.HandleImport` | server/client_manager.c:548-589 | For any client: a failed device record detaches again, any other failure leaves the attach to the session's end; the session goes on exactly after a complete success. |
| `Cli.LoopInvKept` | server/main.c:235-285 | Every event of the accept and session loops keeps ownership and at most one client. |
| `Cli.EventKeepsDevices` | server/main.c:235-285 | No event of the loops changes what a device is, in which order the devices are listed, or which are shared. |
| `Cli.BrowsersSeeAllAvailable` | server/main.c:155-167 | Whenever a client of this server browses, every device is available. |
| `Cli.ImportDecides` | server/client_manager.c:548-589 | After an import the client's traffic is served exactly if the attach succeeded and header and record were sent, otherwise the session ends; a record that fails after its header leaves the client without a device and every device available and closed. |
| `Cli.DevlistDecides` | server/main.c:156-167 | A device list changes nothing, and the session goes on exactly if it was sent. |
| `Refresh.DeviceList.Add` | server/device_list.c:138-166 | A known bus id gets the new device information, a new one an available, shared entry at the head, or an error and no change if there is no memory for it; the count follows. |
| `Refresh.DeviceList.SaveExports` | server/device_list.c:94-113 | The table holds the first 32 exports in list order. |
| `Refresh.DeviceList.Refresh` | server/device_list.c:84-136 | The loops compute the refreshed list of the model, with its count; devices without memory for their entry are as good as not reported. |
| `Refresh.RefreshedLookup` | server/device_list.c:84-166 | Distinct bus ids, exactly those enumerated, each with the last device reported under it, shared, and exported to the saved client exactly if saved. |
| `Refresh.NoNewExports` | server/device_list.c:121-130 | A refresh exports nothing that was not exported to that client before. |
| `Refresh.RestoresIff` | server/device_list.c:100-130 | All exports whose devices are found again are restored, for every enumeration, if and only if at most 32 were exported. |
| `Refresh.SurvivesIff` | server/device_list.c:84-136 | An export whose device is found again survives, with its client, exactly if fewer than 32 exported entries stand before it in the list. |
| `ListOrder.RefreshedInOrder` | server/device_list.c:138-164 | After a refresh the entries stand in the reverse order in which their bus ids were first reported. |
| `Refresh.ExportsAtMostClients` | server/client_manager.c:112-115 | Never more devices are exported than there are clients, at most 16, so the table never loses one. |
| `BusIds.ParseBusId` | server/usb_host_win32.c:43-56 | The loop computes the FNV-1a hash and the bus id made of it. |
| `BusIds.BusIdText` | server/usb_host_win32.c:55-56 | The text: a digit from 1 to 8 for bits 8 to 10 of the hash, a hyphen, and a number from 1 to 16 for bits 0 to 3, without leading zero. |
| `BusIds.SameBusIdIff` | server/usb_host_win32.c:44-55 | Two instance ids get the same bus id exactly if bits 8 to 10 and bits 0 to 3 of their hashes agree. |
| `BusIds.SiblingsCollide` | server/usb_host_win32.c:44-55 | Among any 129 instance ids two get the same bus id. |
| `BusIds.SerialsCollide` | server/usb_host_win32.c:44-55 | Of any model of device, two of those with the serial numbers "A0" to "M8" get the same bus id. |
| `BusIds.CollidingPair` | server/usb_host_win32.c:49-55 | "BU" and "CB" both get the bus id "1-1". |
| `BusIds.ListedIff` | server/device_list.c:138-149 | A reported device is listed exactly if it is the last one reported under its bus id. |
| `BusIds.LosesEntryIff` | server/device_list.c:143-149 | An enumerated device loses its entry exactly if its id collides with that of a device reported later. |
| `BusIds.AllListedIff` | server/usb_host_win32.c:44-48 | All enumerated devices are listed exactly if no two of their instance ids collide. |
| `BusIds.RefreshedIsSmall` | server/usb_host_win32.c:54-55 | A refreshed list has at most 128 entries. |
| `BusIds.RefreshStartsUp` | server/main.c:334-337 | The refresh at start-up yields a list the server can start from. |
| `BusIds.StartsUp` | server/main.c:334-342 | The same with a device filter, which shares one device only. |
| `BusIds.SharedByFilter` | server/main.c:339-344 | With a device filter an entry is shared exactly if it has that bus id, without one every entry is. |
| `BusIds.StartedDevices` | server/usb_host_win32.c:270-306 | The server starts with at most 128 devices, each as the enumeration reports it. |
| `Devlist.SendDevice` | server/client_manager.c:468-492 | On success exactly the record and the first 32 interface records at most have been sent. |
| `Devlist.CountAnnounced` | server/client_manager.c:501-513 | The loop counts the shared and available entries. |
| `Devlist.SendDeviceList` | server/client_manager.c:494-546 | On success exactly the reply of the model has been sent. |
| `Devlist.RecordStrings` | server/usb_host_win32.c:806-810 | Path and bus id are read back, cut to their fields. |
| `Devlist.RecordNumbers` | server/usb_host_win32.c:811-822 | Bus number, device number and speed are big-endian at 288, 292 and 296, vendor, product and version at 300, 302 and 304; class, subclass, protocol, configuration, number of configurations and of interfaces are the last six bytes. |
| `Devlist.RecordText` | server/usb_host_win32.c:809-810 | Path and bus id stand at the start of fields of 256 and 32 bytes, cut to 255 and 31, the rest zeros. |
| `Devlist.InterfacesLaidOut` | server/usb_host_win32.c:825-830 | The interface records follow in the order of the table: class, subclass, protocol and a zero. |
| `Devlist.SharedInOrder` | server/device_list.c:516-536 | The devices sent are the shared ones in list order. |
| `Devlist.ReplyLaidOut` | server/client_manager.c:516-530 | The reply starts with version 0x0111, command 0x0005 and status 0, then the number announced in 32 big-endian bits, then the records. |
| `Devlist.ListingRead` | client/remote_device.c:443-483 | A status other than 0 in bytes 4 to 7 rejects; otherwise bytes 8 to 11 are the number of devices, and a reply shorter than that is no list. |
| `Devlist.ReceiveDevices` | client/remote_device.c:465-483 | Without failing calls the loop yields exactly the records of the stream, as many as announced and wanted. |
| `Devlist.ReceiveListing` | client/remote_device.c:443-489 | Without failing calls the outcome depends only on the bytes the server sent. |
| `Devlist.DeviceRoundTripIff` | client/remote_device.c:474-480 | The record arrives unchanged; the reader is aligned afterwards exactly if there are at most 32 interfaces or nothing follows. |
| `Devlist.ReadLate` | client/remote_device.c:474-480 | The record after a device is read too late by exactly four bytes for each interface beyond 32. |
| `Devlist.AnnouncedAtMostShared` | server/device_list.c:516-535 | The announced number never exceeds the number sent, and equals it exactly if every shared entry is available. |
| `Devlist.DevlistRoundTrip` | client/remote_device.c:455-483 | The client gets the first shared devices in list order, unchanged, as many as announced and as it has room for, if all of them but the last have at most 32 interfaces. |
| `Devlist.DevlistAgreement` | server/client_manager.c:494-546 | For any enumerated devices and any filter, in every state the started server reaches in which a list is requested, what is announced is what is sent: all shared devices, which the client gets unchanged. |
| `Import.ReplyRoundTrip` | client/remote_device.c:143-162 | The client learns the outcome: the device unchanged, "busy" exactly for a device in use, "not found" for every other error. |
| `Import.ReplyLaidOut` | server/client_manager.c:558-587 | The reply is a header of version 0x0111, command 0x0003 and status 0 for success, 2 for a device in use and 1 for any other failure; 312 bytes of the record follow success only. |
| `Import.ReplyRead` | client/remote_device.c:144-166 | Only the status decides: 2 is "busy", any other but 0 "not found", and 0 needs the whole record. |
| `Import.SendReply` | server/client_manager.c:558-586 | What is on the wire is the noted number of first bytes of the reply; the header went out exactly if they include it, and the record, attempted only after that, exactly if they are the whole reply to a success. |
| `Import.ReceiveReply` | client/remote_device.c:143-162 | Without failing calls the outcome depends only on the bytes received, and what follows them is unread. |
| `Import.Exchange` | server/client_manager.c:548-589 | Whatever pieces the bytes travel in, the client learns what the attach came to. |
| `Import.AttachAnswered` | server/client_manager.c:548-589 | For any attach to any server: on success the client reads the record of the device it named, which is now exported to it, and what the server writes next is unread; otherwise it learns just the reason. |
| `Vhci.Controller.constructor` | client/vhci_win32.c:104-117 | Eight free, cleared ports. |
| `Vhci.Init` | client/vhci_win32.c:93-141 | Fails exactly without memory for the ports; a missing driver is no failure. |
| `Vhci.Controller.FindFreePort` | client/vhci_win32.c:180-192 | The lowest free port, or -1 exactly if there is none. |
| `Vhci.Controller.AttachPort` | client/vhci_win32.c:223-291 | In place, step by step: error and resulting table of the model. |
| `Vhci.AttachDecidedBy` | client/vhci_win32.c:223-296 | Which of port, state, driver and its answer gives which error; only this port changes: occupied or faulty, with bus id, address, port and speed, and the bus number above the device number in its device id. |
| `Vhci.Controller.DetachPort` | client/vhci_win32.c:293-342 | The port is free and cleared; a free or unknown one is left alone. |
| `Vhci.Controller.DetachAll` | client/vhci_win32.c:344-354 | In place: the loop detaches every port that is not free, in order. |
| `Vhci.DetachEachPort` | client/vhci_win32.c:344-354 | Detaching all clears exactly the ports that were not free. |
| `Vhci.DetachUndoesFailedAttachIff` | client/vhci_win32.c:254-282 | The detach after a failed attach restores the table exactly if the free port had been cleared. |
| `Vhci.DevIdRoundTripIff` | client/vhci_win32.c:248-248 | Bus and device number are recovered from a device id exactly if both fit 16 bits. |
| `RemoteDevices.DeviceList.Import` | client/remote_device.c:107-162 | The first error on the way; the socket is closed once, but twice when the handshake fails. |
| `RemoteDevices.ClosedOnceIff` | client/remote_device.c:107-162 | A failing import closes the socket exactly if it was opened, and then twice exactly if the handshake could not be presented, otherwise once. |
| `RemoteDevices.ImportErrorIsRead` | client/remote_device.c:142-166 | A client that has asked fails as the bytes of the reply say: busy, not found, or a lost connection for a reply that is cut off. |
| `RemoteDevices.AnswerToAttach` | client/remote_device.c:142-166 | Over both ends: the client gets the device exactly if the server has attached it, and is told "busy" exactly for a shared device that is not available. |
| `RemoteDevices.ConnectNotes` | client/remote_device.c:102-198 | A successful connect puts the device first, with address, port and bus id as asked and the record received, on the lowest free port, which alone changes and is told all that. |
| `RemoteDevices.DeviceList.ConnectDevice` | client/remote_device.c:86-204 | List and ports reach the state of the model, on every path. |
| `RemoteDevices.DeviceList.DisconnectAt` | client/remote_device.c:206-240 | Exactly this device leaves the list and its port is detached; a device that is not listed is reported and changes nothing. |
| `RemoteDevices.DeviceList.DisconnectEach` | client/remote_device.c:250-258 | The loop ends in the state of the model. |
| `RemoteDevices.FailedConnectChangesNothing` | client/remote_device.c:107-186 | A connect that fails, at whichever step, leaves the list and all ports as they were. |
| `RemoteDevices.DisconnectUndoesConnect` | client/remote_device.c:206-240 | Disconnecting the device just connected restores the list and all ports. |
| `RemoteDevices.PortsMatchDevices` | client/remote_device.c:86-258 | In every run ports and listed devices are in bijection: every occupied port belongs to exactly one listed device and holds its data; every other port is free and cleared. |
| `RemoteDevices.DisconnectAllFrees` | client/remote_device.c:250-258 | Disconnecting everything leaves no device and every port free. |
| `RemoteDevices.NoFreePortIff` | client/remote_device.c:171-176 | At most eight devices hold ports, and a connect that got that far finds none exactly if eight do. |
| `Capacity.CountBounded` | server/client_manager.c:112-135 | With n accepting threads and any removals the counter is the list's length and never exceeds 15 + n. |
| `Capacity.BoundReached` | server/client_manager.c:112-135 | For every n a run reaches 15 + n clients. |
| `Capacity.LimitHoldsIff` | server/client_manager.c:112-117 | The limit of 16 holds in every run exactly if at most one thread accepts. |

## Left out

- Replies.AnswerTurns: takes what completes in each turn as given, to say what follows from the sends alone;
  `Serving.Serve` has the sends, the handler and its worker together.
- Serving.Serve: lets the worker move before each reception, before the second half of a submission or an unlink and
  before each entry is taken, not between any two statements; `Attached` and `UrbHandler.Handler.Perform` have every
  interleaving.
- Delivery of completions is not promised: they are sent only after a further CMD_SUBMIT has arrived
  (`server/main.c:206-215`), so the theorems about answers are about those that are sent.
- An unlinked URB is answered with a RET_SUBMIT of status -ECANCELED besides the RET_UNLINK, unlike in the kernel
  document; the RET_UNLINK, which always reports 0, is modelled as bytes only.
- The unsynchronised reads of the running flag are taken as atomic; a compiler that hoists them is not modelled.
- Interleaving of server operations other than the URB handler's and the client count: each is one atomic step,
  and `client_attach_device` looks at states without the list's lock.
- Freed memory: objects that the code frees are merely unreachable here, and a handler overwritten by a second
  attach is lost rather than leaked.
- The URB handler inside the server's objects is one flag; that stopping and cleaning it up works is shown for the
  handler itself.
- The failing branches of `urb_handler_init` and `queue_init` are outcomes, not code; a thread that cannot be
  started is one of them.
- Isochronous payloads, descriptor reads, hot-plug, `usb_reap_urb` and `usb_cancel_urb`: unused or stubs.
- Calls with lengths of 2 GiB and more, whose `(int)` conversion in the socket loops would go wrong.
- Counters of 32 bits and more other than the bytes sent and the client ids are unbounded; time stamps, ports of
  clients and statistics are left out.
- MAX_PENDING_URBS is never enforced by the code, so the pending queue is unbounded here too.
- The error code of a failed handshake, which the header file describes differently from the code: the model says
  only whether the peer is let through.
- The time limit of the timed loops is the script's: any call may be the one at which it expires.
- Device lists that are refreshed or shortened while clients hold devices: the server refreshes at start-up only,
  before there are clients that point into the list, so `Refresh` has the entries as values.
- The links of the client and device lists: these lists are sequences, of objects in `ServerObjects` and of values in
  `Refresh` and `RemoteDevices`. Only the URB queues are linked nodes here.
- The forwarding thread of the client, which only sleeps, and the connection of the socket to the driver.
- The GUI, UDP discovery, logging, error strings, argument parsing and name resolution.
