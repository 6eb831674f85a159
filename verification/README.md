# hyprwire: protocol, wire format and bindings, verified

hyprwire is a two-party object protocol over a byte stream with file descriptors beside it.
A client binds a protocol, receives objects, calls methods on them, some of which return new
objects; a server answers, allocates ids and sends events. This project models that system
in Dafny and proves what its design promises, for all inputs and all runs.

There are four parts.

* **The composed system.** One client, one server and the two FIFO directions between them
  (`ClientModel`, `ServerModel`, `System`). A step is one action of an application, one turn
  of a `handle_message` loop, one turn of the deferred flush, the collection of one orphan,
  or a disconnect with what its handlers send. Application code runs between dispatches and,
  inside one, only in the handler of the event just delivered. `Invariant`, `ClientSteps`, `ClientReads`,
  `ServerSteps`, `ServerRequests` and `Disconnection` show that every step keeps the
  invariant; `Protocol`, `CallOrder`, `Deferral`, `Failures`, `Progress`, `Limits` and
  `Refusals` state what follows for every reachable state; `Witnesses` holds concrete runs. Channels are kept
  whole, with read cursors; the fields `calls`, `alloc`, `handled`, `reqAt`, `ackAt`,
  `protoAt` and `adv`, and the `call` of a request, are history that no step's outcome
  depends on.
* **The wire format.** Length integers (`VarInt`), the schema-less scanner and the field
  grammar it accepts (`Payload`, `Scanning`), the spec-driven encoder (`Encoder`), the
  emitted decoding statements (`Decoder`), the theorem that joins the three (`EndToEnd`),
  the patching of parked requests (`Resolve`), the fixed messages with their UTF-8 check
  (`Frames`, `Utf8`), the `handle_message` loops as framers (`Framing`), and the messages of
  the protocol model as bytes (`Wire`, `Delivery`, `Adverts`).
* **The endpoints as objects.** `ClientEndpoint.ClientSocket`, `ServerEndpoint.ServerClientState`
  and `Resolve.Message` are classes updated in place, with the loops of the sources. Their
  small methods build up to `DispatchEvents` and `DispatchClient`, whole dispatches over a
  batch of messages with the calls and events of the handlers; those are proved to end where
  a run of the composed system ends (`Passes`, `DispatchRuns`). What they leave behind and put
  on the wire is stated besides in terms of their inputs alone (`DispatchEffects`).
  `ClientTable` does the same for the server's client table and poller.
* **The scanner's trait bounds.** `Returns` models the worklist that collects which returned
  interfaces a generated type must be able to dispatch.

Seven findings came out of stating the properties exactly.

* Calls on one object do not always reach the wire in call order. The handler of a new
  object's first event runs after the object has its id and before the flush, so a call it
  makes is sent ahead of calls parked earlier. `CallOrder.CallOrderIff` gives the exact
  condition, `Witnesses.OvertakingRun` a run that does it.
* A bind with version 0 passes every check of the client (`Failures.VersionZeroIsSent`), and
  the server's parser ends the connection over it (`Wire.BindAcceptedIff`,
  `Witnesses.VersionZeroRun`).
* A call or event with an array of 10000 elements or more is encoded and sent without
  complaint (`Failures.LongArraysAreSent`), refused by every receiver (`EndToEnd.EndToEnd`),
  and ends the connection (`Witnesses.LongArrayRun`). `Failures.AbortsIff` says exactly which
  messages the server gives up over.
* A server with 2048 registrations or more can be connected to by nobody: the client gives up
  over its list (`Witnesses.LongListRun`). `Failures.ClientFailsIff` says exactly which
  messages the client gives up over.
* A client that drops an object while an event for it is on its way disconnects itself
  (`Witnesses.ReleasedObjectRun`). `Limits.PeacefulIff` puts these four threats together: it
  says exactly which live connections survive, and `Limits.UnpeacefulDies` that no schedule
  saves the others.
* A call can wait for ever on a live connection: the server creates nothing for an object it
  has destroyed and does not say so (`Witnesses.WaitingForEverRun`).
  `Refusals.EveryCallAccounted` says exactly which calls wait, `Refusals.RefusedForEver` that
  they do so in every run.
* At a disconnect an object can be left without its destructor, if the handler of a newer
  object's destructor sends that object's destructor event first
  (`Witnesses.StolenDestructorRun`). `Protocol.DestructorDelivery` is the exact condition.

Where the comments of `hyprwire-core/src/types.rs:26-27` describe an object field as carrying
a name, the code writes and reads four bytes only; the model follows the code. An object
returned by a call has version 0 at the client, whatever version its creator has
(`hyprwire/src/client/client_socket.rs:190`), so the client would refuse any of its methods
with a `since`; generated descriptions have none (`hyprwire-scanner/src/generate.rs:644`).
`Protocol.VersionsAgree` says which versions the two ends hold.

## Assumptions

One event queue per connection and single-threaded use; the queue's mutex is held for a whole
dispatch, so a handler can only call objects whose id is known, and
`Client::bind` hands a root object out only once it has one. Fewer than 2^32 sequence
numbers, ids and roundtrips. A read delivers whole messages with their fds in order. Both
ends were generated from the same descriptions (`Catalog`). Applications hand strings to
the library as `str`, so they are UTF-8, and call through generated call sites, so arguments
have the types of their parameters; how long they are is up to the application.

## Specification functions

The contracts below speak of these functions, which follow the cited code branch by branch.

* `ClientModel.Bind`, `MakeObject`, `OnSeq`, `OnGeneric`, `Handle`, `Unspeakable`: hyprwire/src/client/mod.rs:84-106,
  hyprwire/src/client/client_socket.rs:89-301, hyprwire/src/message.rs:31-172
* `ClientModel.Call`, `AutoDestructor`: hyprwire/src/implementation/wire_object.rs:31-267,
  hyprwire/src/client/client_object.rs:23-57
* `ClientModel.StartFlush`, `FlushOne`, `Roundtrip`, `Orphan`, `Discard`: hyprwire/src/client/event_queue.rs:144-210,
  hyprwire/src/client/client_socket.rs:247-263
* `ServerModel.ServerHandle`, `Unparsable`, `ServerOnGeneric`, `Finish`, `DestroyTurn`, `DestroyFrom`, `SendEvent`, `RaiseError`:
  hyprwire/src/message.rs:203-335, hyprwire/src/server/server_client.rs:103-263, hyprwire/src/server/server_object.rs:48-140
* `ServerModel.EndDispatch`: hyprwire/src/server/server_socket.rs:103-150
* `Passes.FlushPass`, `CollectPass`, `DispatchRuns.DispatchPass`: hyprwire/src/client/event_queue.rs:62-176
* `DispatchRuns.ServePass`: hyprwire/src/server/server_socket.rs:103-150
* `Utf8.Valid`: the encodings of RFC 3629, section 4, which Rust's `str::from_utf8` accepts
* `VarInt.Encode`, `VarInt.ParseAt`: hyprwire-core/src/message/mod.rs:66-113
* `Payload.Skip`, `SkipArray`, `Scan`, `Header`, `FromBytes`, `DataSpan`: hyprwire-core/src/message/wire/generic_protocol_message.rs:33-158
* `Encoder.EncodeFrom`, `EncodeCall`: hyprwire/src/implementation/wire_object.rs:70-221
* `Decoder.Magics`, `ParseArg`, `Decode`: hyprwire-scanner/src/generate.rs:90-126, 150-314
* `Frames.ReadFixed`, `Framing.TakeOne`, `Framing.HandleFrom`: hyprwire-core/src/message/wire/bind_protocol.rs:58-116 and its siblings, hyprwire/src/message.rs:15-347
* `Returns.Closure`, `Returns.AllFrom`: hyprwire-scanner/src/generate.rs:956-1006
* `ClientTable.Add`, `Remove`, `Round`: hyprwire/src/server/server_socket.rs:152-325

## Model

| member | source | states |
|---|---|---|
| Protocol.StepKeepsInv | hyprwire/src/implementation/wire_object.rs:223-264 | every step of the composed system keeps the invariant and rewrites no history: sent messages stay, ids once given stay, objects never come back into the table |
| Protocol.RunKeepsInv | hyprwire/src/client/event_queue.rs:62-176 | the same along every run of any length |
| Protocol.Agreement | hyprwire/src/client/client_socket.rs:230-238 | a client object with an id has exactly the id the server allocated for its sequence number, and both ends hold the same protocol and interface for it |
| Protocol.DistinctIdentities | hyprwire/src/client/client_socket.rs:107-131 | distinct client objects have distinct sequence numbers and distinct resolved ids; likewise on the server |
| Protocol.Addressing | hyprwire/src/implementation/wire_object.rs:223-250 | every request on the wire, direct or deferred, is one accepted call unchanged, addressed to the nonzero id the server allocated to the object it was made on, whose creation was requested earlier on the wire |
| Protocol.VersionsAgree | hyprwire/src/server/server_client.rs:130-141 | a root object has at both ends the version its bind named; a returned object has version 0 at the client and its creator's version at the server |
| Protocol.CallsInVersion | hyprwire/src/implementation/wire_object.rs:43-53 | every request on the wire, direct or deferred, is of a method no newer than the object it was made on, at the client and at the server |
| Protocol.EventsInVersion | hyprwire/src/implementation/wire_object.rs:43-68 | every event on the wire is of a method of its source that is no newer than it and returns nothing |
| Protocol.CreationPrecedesEvents | hyprwire/src/server/server_client.rs:158-168 | the NewObject of an object is on the wire before every event from it |
| Protocol.UnknownObjectIff | hyprwire/src/client/client_socket.rs:265-301 | reading an event that parses takes the disconnect branch if and only if the client no longer has the object; otherwise the event reaches that very object |
| Protocol.RoundtripBarrier | hyprwire/src/client/event_queue.rs:187-210 | once request k counts as acknowledged the server has processed everything sent before it and the client has handled everything the server sent meanwhile |
| Protocol.AcksMonotone | hyprwire/src/message.rs:144-160 | acknowledgements never go back and never run ahead of the requests, along every run |
| Protocol.NoRequestLost | hyprwire/src/server/server_socket.rs:141-149 | answering only the last roundtrip request of a batch leaves no processed request unanswered |
| Protocol.HandshakeSafety | hyprwire/src/message.rs:59-76 | a finished handshake means the server recorded version 1 after its first poll and the client's specs are exactly what the server had registered when it answered; before the first poll there are no objects |
| Protocol.AtMostOneDestructor | hyprwire/src/server/server_object.rs:48-68 | over any run no server object receives two destructors |
| Protocol.DestructorDelivery | hyprwire/src/server/server_client.rs:246-263 | whatever the handlers send, a disconnect delivers a destructor to exactly the undestroyed objects that have a parameterless, return-less one and whose destructor event no handler of a newer object sent first; newest first, each once ever; it empties the table, sends exactly what the handlers said, and destroys exactly those delivered to and those whose destructor event was sent |
| Protocol.SilentDelivery | hyprwire/src/server/server_object.rs:48-64 | if the handlers send nothing, every object that wants a destructor receives one |
| CallOrder.CallOrderIff | hyprwire/src/implementation/wire_object.rs:223-250 | the calls on an object are on the wire in call order without gaps if and only if none was sent at once while an earlier one was unsent |
| CallOrder.BetweenDispatchesNoJump | hyprwire/src/client/event_queue.rs:144-167 | a call made between dispatches never overtakes a parked one |
| Witnesses.OvertakingRun | hyprwire/src/client/event_queue.rs:137-167 | a reachable state without client error in which the call of a child's event handler has overtaken a call parked on that child |
| Witnesses.VersionZeroRun | hyprwire/src/client/client_socket.rs:95-131 | a reachable state in which a version 0 bind has made the server give the connection up |
| Witnesses.LongArrayRun | hyprwire-core/src/message/wire/generic_protocol_message.rs:80-124 | a reachable live state with a request for an array of 10000 numbers on its way, whose handling puts the server in error |
| Witnesses.LongListRun | hyprwire-core/src/message/wire/handshake_protocols.rs:71-74 | a reachable live state after 2048 registrations in which reading the list makes the client give up before its handshake is done |
| Witnesses.ReleasedObjectRun | hyprwire/src/client/client_socket.rs:292-300 | a reachable state in which an event for an object the application released has made the client disconnect |
| Witnesses.WaitingForEverRun | hyprwire/src/server/server_object.rs:108-111 | a reachable live state in which nothing can move and a call is still parked, on an object that the root was asked for, whose server object is destroyed |
| Witnesses.StolenDestructorRun | hyprwire/src/server/server_client.rs:246-263 | a reachable state with two objects that want a destructor and handlers with which only the newer one receives it |
| Failures.VersionZeroIsSent | hyprwire/src/client/client_socket.rs:95-131 | where the client sends a bind with some version it would send one with version 0 |
| Failures.LongArraysAreSent | hyprwire/src/implementation/wire_object.rs:161-250 | where a call is accepted with some arguments it is accepted, and sent if the object has an id, with any others, however long |
| Failures.AbortsIff | hyprwire/src/server/server_socket.rs:130-139 | the server gives a dispatch up if and only if the next message is a bind with version 0 or a request with an array of 10000 elements or more; nothing of it is then handled or answered, and every other message is handled |
| Failures.BindAnswered | hyprwire-core/src/message/wire/bind_protocol.rs:98-101 | a bind with another version than 0 makes its object and is answered; one with version 0 aborts |
| Failures.ClientFailsIff | hyprwire/src/client/event_queue.rs:137-142 | in every reachable state, a dispatch of the client fails if and only if the next message is a list of 2048 protocols or more or an event with an array of 10000 elements or more; nothing of it is then handled and nothing flushed |
| Failures.AbortIsFinal | hyprwire/src/server/server_socket.rs:130-139 | after an abort, in every run, the error flag stays set and no further message of that client is handled |
| Failures.FailureIsFinal | hyprwire/src/client/event_queue.rs:68-70 | after a failed dispatch, in every run, the client reads nothing more |
| Deferral.NoDeferredCallLost | hyprwire/src/client/event_queue.rs:144-169 | between dispatches every parked request waits for an object without id that is in the table; a request is dropped only after the client read a destructor event of its object |
| Deferral.NothingDropped | hyprwire/src/client/event_queue.rs:152-153 | without destructor events the dropping branch is never taken |
| Progress.QuietDecreases | hyprwire/src/client/event_queue.rs:144-167 | every step that is not an application's lowers a lexicographic measure of parked and undelivered work, so quiet runs end |
| Progress.StuckIsDrained | hyprwire/src/client/event_queue.rs:144-167 | a live connection on which nothing can move, whose server destroyed nothing and granted every creation, and that dropped no call, has sent every parked request, resolved every object and acknowledged every roundtrip, however long the deferral chains were |
| Progress.QuietRunsDrain | hyprwire/src/server/server_client.rs:130-169 | for a protocol without destructors, from a live peaceful state (no version 0 bind in flight, no array too long in flight or parked, a protocol list under 2048 entries sent or to be sent, every event in flight for an object the client still has) every quiet run stays alive and can only end drained |
| Progress.EveryStateCanDrain | hyprwire/src/client/client_socket.rs:136-153 | and from every such state one quiet run that ends drained exists |
| Limits.QuietRunsBounded | hyprwire/src/client/event_queue.rs:144-167 | no run of quiet steps is longer than a number computed from its first state |
| Limits.PeacefulIff | hyprwire/src/client/client_socket.rs:265-301 | a live connection of a protocol without destructors survives every quiet run if and only if it is peaceful in that sense |
| Limits.UnpeacefulDies | hyprwire/src/client/event_queue.rs:137-142 | and if it is not, every quiet run that cannot go on has ended it |
| Limits.UnclearDies | hyprwire/src/server/server_socket.rs:130-139 | for every protocol, with destructors too: once something undelivered threatens a connection (the same conditions without the parked requests), every quiet run that cannot go on has ended it |
| Refusals.CreationRefusedIff | hyprwire/src/server/server_object.rs:108-111 | a request for a returned object, on an object in the table, makes none if and only if that object is destroyed |
| Refusals.DestroyedFlagIff | hyprwire/src/server/server_object.rs:178-180 | in every reachable state an object in the table of a connected client is destroyed if and only if a destructor event of it was sent |
| Refusals.RefusedIsUnresolved | hyprwire/src/client/client_socket.rs:230-238 | in every reachable state an object is without an id if the request for it was processed after a destructor event of its creator had been sent, or was dropped, or waits for such an object |
| Refusals.StuckUnresolvedIff | hyprwire/src/server/server_object.rs:108-121 | for every protocol: on a live connection where nothing moves, exactly those objects are without an id |
| Refusals.RefusedForEver | hyprwire/src/client/event_queue.rs:152-157 | in every run from there such an object stays without an id and every call on it parked |
| Refusals.EveryCallAccounted | hyprwire/src/client/event_queue.rs:144-167 | for every protocol: on a live connection where nothing moves, a call waits if and only if its object was refused in that sense; a dropped call is on an object whose destructor event was read; every other call was sent |
| Passes.FlushPartition | hyprwire/src/client/event_queue.rs:144-167 | the flush is a stable partition of the queue into kept, released (each to its object's id) and dropped requests |
| Passes.FlushIdempotent | hyprwire/src/client/event_queue.rs:144-167 | a second flush sends and moves nothing |
| Passes.FlushPassRuns | hyprwire/src/client/event_queue.rs:144-167 | the whole flush loop is a run of the composed system with the same client and the same messages sent |
| Passes.CollectExact | hyprwire/src/client/client_socket.rs:247-263 | collection removes exactly the unheld objects with an id, keeps the order of the others and changes nothing else but destroyed flags |
| Passes.CollectPassRuns | hyprwire/src/client/client_socket.rs:247-263 | the whole collection loop, with the destructors its drops call, is a run of the composed system |
| Passes.DropSays | hyprwire/src/client/client_object.rs:23-57 | dropping an object sends one request without arguments, and destroys the object, exactly when it is undestroyed, has an id, and the first destructor of its version takes and returns nothing; otherwise it does nothing |
| Passes.CollectSays | hyprwire/src/client/client_socket.rs:247-263 | collection sends exactly these requests of the orphans it finds, each once, in table order |
| Passes.ReleaseSays | hyprwire/src/client/client_object.rs:23-57 | letting go of the last handle sends that request at once if the object is off the table and nothing otherwise |
| ClientEndpoint.ClientSocket.constructor | hyprwire/src/client/client_socket.rs:30-50 | a new socket is the initial client and has written the hello |
| ClientEndpoint.ClientSocket.ObjectForSeq | hyprwire/src/client/client_socket.rs:230-238 | the loop finds the first table entry with the sequence number |
| ClientEndpoint.ClientSocket.GetSpec | hyprwire/src/client/client_socket.rs:80-87 | the loop finds the first advertised spec of the name, or says there is none |
| ClientEndpoint.ClientSocket.ServerSpecs | hyprwire/src/client/client_socket.rs:204-223 | the advertised entries that parse are appended in order, the others skipped |
| ClientEndpoint.ClientSocket.OnSeq | hyprwire/src/client/client_socket.rs:230-238 | the in-place update is the system's `OnSeq` |
| ClientEndpoint.ClientSocket.DestroyObject | hyprwire/src/client/client_socket.rs:240-245 | the retain loop keeps exactly the entries with another id, in order |
| ClientEndpoint.ClientSocket.OnGeneric | hyprwire/src/client/client_socket.rs:265-301 | an event for an id nobody in the table has sets the error flag and changes nothing else; a destructor event marks its object and takes it off the table; any other event changes nothing here |
| ClientEndpoint.ClientSocket.HandleMessage | hyprwire/src/message.rs:31-172 | one turn of the loop is the system's client step: a refused message fails the dispatch and changes only the flags, a fatal error sets the error flag, the list is appended and ends the handshake, an acknowledgement is recorded, and only HandshakeBegin is answered |
| ClientEndpoint.ClientSocket.Bind | hyprwire/src/client/client_socket.rs:89-134 | a bind within the advertised version adds an unresolved root object of that version under a fresh sequence number and writes BindProtocol; otherwise nothing changes and the error says whether the protocol is not advertised, the version too high, or the protocol without objects |
| ClientEndpoint.ClientSocket.MakeObject | hyprwire/src/client/client_socket.rs:155-198 | an object is made if and only if the protocol is registered and has the interface |
| ClientEndpoint.ClientSocket.Call | hyprwire/src/implementation/wire_object.rs:31-267 | a call goes through if and only if the object has the method in its version, and changes nothing otherwise; then the returned sequence number is allocated, the request written if the callee has an id and parked if not, a destructor marks the callee, and the returned object is made if its protocol is registered and has it; the caller gets the number, 0 without one, or an error when the object cannot be made |
| ClientEndpoint.ClientSocket.SendRoundtrip | hyprwire/src/client/event_queue.rs:197-203 | the next token is written and remembered |
| ClientEndpoint.ClientSocket.FlushDeferred | hyprwire/src/client/event_queue.rs:144-167 | the take-and-walk loop is the stable partition |
| ClientEndpoint.ClientSocket.DropHandle | hyprwire/src/client/client_object.rs:23-57 | the drop writes the request of the object's first destructor in its version, without arguments, if the object is undestroyed and has an id and that method takes and returns nothing, and marks the object; otherwise nothing changes |
| ClientEndpoint.ClientSocket.CollectOrphanedObjects | hyprwire/src/client/client_socket.rs:247-263 | exactly the unheld objects with an id leave the table, the others keep their order, and the stream grows by exactly the destructor requests of those that left, in table order |
| ClientEndpoint.ClientSocket.HandleBatch | hyprwire/src/message.rs:21-184 | the loop over a batch, with the calls of the handlers it runs, stops at the first message it fails on, for its version or its length |
| ClientEndpoint.ClientSocket.RunHandler | hyprwire/src/client/client_socket.rs:279-280 | a handler writes exactly the requests of its calls on held objects with an id and with the method in their version, in order, numbered in sequence |
| ClientEndpoint.ClientSocket.DispatchEvents | hyprwire/src/client/event_queue.rs:62-176 | collect, handle, flush, collect: from every system state with this client and these messages next, the system can run to exactly the client and stream left behind; no orphan found at entry is in the table afterwards and their destructor requests are written before anything else; a batch that begins with an event for nobody but orphans ends the connection; after success nothing that could be sent is parked and no orphan is left |
| DispatchRuns.DispatchPassRuns | hyprwire/src/client/event_queue.rs:62-176 | the specification of a client dispatch is a run of the composed system for every batch and all handler calls |
| DispatchRuns.DispatchSettles | hyprwire/src/client/event_queue.rs:144-169 | after a dispatch that did not fail every parked request waits for an unresolved object and no orphan is left |
| DispatchRuns.ServePassRuns | hyprwire/src/server/server_socket.rs:103-150 | the specification of a server dispatch is a run of the composed system for every batch and all events sent meanwhile |
| DispatchEffects.OrphansGoFirst | hyprwire/src/client/event_queue.rs:68-72 | every client dispatch begins with the orphans: none is in the table afterwards, their destructor requests are on the wire before anything the batch causes, and a first event for one of them finds nobody and sets the error flag |
| DispatchEffects.CallSays | hyprwire/src/implementation/wire_object.rs:31-267 | the whole effect of a call in terms of the callee's description, version and id |
| DispatchEffects.HandlerVoices | hyprwire/src/client/client_socket.rs:279-280 | what a handler sends depends only on the objects at its start: one request for each possible call, in order |
| DispatchEffects.TurnVoices | hyprwire/src/message.rs:31-172 | what one message makes the client send: the calls of the handler of an event for one of its objects, the handshake acknowledgement, or nothing |
| DispatchEffects.SpeechJoins | hyprwire/src/server/server_object.rs:90-106 | what the server's application says in one go is what it says in two |
| DispatchEffects.SpeechOne | hyprwire/src/implementation/wire_object.rs:31-68 | a destroyed object says nothing; an event it has in its version is sent and a destructor event marks it; anything else is a fatal error of the connection |
| DispatchEffects.GenericSays | hyprwire/src/server/server_client.rs:201-216 | a request for an id nobody has is answered with the fatal error; any other creates what the method returns, with the callee's version, unless the callee is destroyed, and hands a destructor over |
| DispatchEffects.TurnDestroys | hyprwire/src/server/server_client.rs:218-230 | a destructor request has destroyed its object and taken it off the table by the end of its turn, whatever the handler says |
| DispatchEffects.DispatchEnds | hyprwire/src/server/server_socket.rs:130-149 | every server dispatch ends: with the fatal error and the flag if a message did not parse, and otherwise with nothing scheduled and the acknowledgement of the last roundtrip request as the last thing written and the only acknowledgement |
| DispatchEffects.DueIsLast | hyprwire/src/message.rs:305-322 | what is acknowledged is the token of the batch's last roundtrip request, or what was scheduled before |
| ServerEndpoint.ServerClientState.constructor | hyprwire/src/server/server_client.rs:75-94 | the initial server: no objects, first id 1 |
| ServerEndpoint.ServerClientState.PickInterface | hyprwire/src/server/server_client.rs:145-156 | the nested loops find the named interface of the registered protocol, or the root one, and find none if and only if the protocol is not registered or has none of that name |
| ServerEndpoint.ServerClientState.CreateObject | hyprwire/src/server/server_client.rs:130-169 | takes the next id, answers NewObject and registers an undestroyed object of the version asked for, with the interface of that name or, for the empty name, the first |
| ServerEndpoint.ServerClientState.DestroyObject | hyprwire/src/server/server_client.rs:194-199 | the retain loop keeps exactly the other ids |
| ServerEndpoint.ServerClientState.OnGeneric | hyprwire/src/server/server_client.rs:201-244 | the fatal error for an id nobody has; otherwise the dispatch to the object, with the returned object created first under the next id and with the callee's version |
| ServerEndpoint.ServerClientState.FinishDestructor | hyprwire/src/server/server_client.rs:218-230 | after the handler exactly the objects with that id are marked destroyed and leave the table |
| ServerEndpoint.ServerClientState.ProtocolNames | hyprwire/src/message.rs:237-249 | the names collected for HandshakeProtocols are `name@version` for every registration in order |
| ServerEndpoint.ServerClientState.Take | hyprwire/src/message.rs:203-335 | what each message the parser took does: the greeting is answered with the one version offered, the chosen version is stored and answered with every registration formatted in order, a bind makes an object of its version, a request goes to its object, a token is scheduled |
| ServerEndpoint.ServerClientState.HandleMessage | hyprwire/src/message.rs:203-335 | one turn of the loop, refusals of the parser included, is the system's server step |
| ServerEndpoint.ServerClientState.EndOfDispatch | hyprwire/src/server/server_socket.rs:130-149 | a failure is reported with the fatal error and flagged; otherwise the scheduled roundtrip, if any, is acknowledged and forgotten |
| ServerEndpoint.ServerClientState.HandleBatch | hyprwire/src/message.rs:193-340 | the loop over a batch, with what the handlers say meanwhile and the ends of destructors, fails if and only if the parser refuses one of its messages, and has then taken exactly those before it |
| ServerEndpoint.ServerClientState.DispatchClient | hyprwire/src/server/server_socket.rs:103-150 | from every system state with this server and these messages next, the system can run to exactly the server and stream left behind; afterwards the dispatch is over; if a message did not parse the last thing written is the fatal error and the connection is flagged; otherwise nothing is scheduled and the last thing written, and the only acknowledgement, is that of the batch's last roundtrip request (a token 0 is acknowledged by nothing) |
| ServerEndpoint.ServerClientState.Call | hyprwire/src/server/server_object.rs:90-106 | an undestroyed object sends the event if and only if it has it in its version and it returns nothing, and a destructor event marks it; any other call writes the fatal error of its id and flags the connection; a destroyed object changes nothing |
| ServerEndpoint.ServerClientState.Error | hyprwire/src/server/server_object.rs:127-139 | a fatal error is written and the connection flagged unless the object is destroyed |
| ServerEndpoint.ServerClientState.DestroyForDisconnect | hyprwire/src/server/server_object.rs:48-64 | one object gets its destructor exactly when it is undestroyed and has one that takes and returns nothing; what its handler says is sent before the object counts as destroyed |
| ServerEndpoint.ServerClientState.DestroyObjectsForDisconnect | hyprwire/src/server/server_client.rs:246-263 | the reverse loop, with the handlers it runs, is the system's disconnect and clears the table |
| VarInt.EncodeVarInt | hyprwire-core/src/message/mod.rs:66-83 | the loop writes the encoding into the front of the buffer and leaves the rest alone |
| VarInt.ParseVarIntSpan | hyprwire-core/src/message/mod.rs:93-113 | the accumulating loop yields the value and length of the specification, for any bytes |
| VarInt.ParseVarInt | hyprwire-core/src/message/mod.rs:85-91 | the same at any offset, and (0, 0) behind the end |
| VarInt.RoundTrip | hyprwire-core/src/message/mod.rs:66-113 | parsing at the position of an encoding returns the number and the encoding's length, with any bytes around it |
| VarInt.FitsTenBytes | hyprwire-core/src/message/mod.rs:66-83 | every number below 2^64 fits the ten-byte buffer |
| VarInt.Shortest | hyprwire-core/src/message/mod.rs:66-83 | no complete LEB128 string of a number is shorter than its encoding |
| VarInt.PrefixFree | hyprwire-core/src/message/mod.rs:66-83 | no encoding is a proper prefix of another |
| VarInt.ParseSound | hyprwire-core/src/message/mod.rs:93-113 | a parse that ends inside the buffer read a complete LEB128 string of that value |
| VarInt.ParseLocal | hyprwire-core/src/message/mod.rs:85-113 | such a parse depends only on the bytes it consumed |
| VarInt.U32RoundTrip | hyprwire-core/src/message/wire/mod.rs:22-31 | four little-endian bytes read back as the number |
| Payload.ScanMessage | hyprwire-core/src/message/wire/generic_protocol_message.rs:33-154 | the cursor loop is the specification, and on error the caller's fds are untouched |
| Payload.ScanArray | hyprwire-core/src/message/wire/generic_protocol_message.rs:80-124 | the array branch with its loops over strings and fds is the specification |
| Payload.FieldsScanned | hyprwire-core/src/message/wire/generic_protocol_message.rs:61-138 | every sequence of well-formed fields is scanned exactly to its End byte with exactly its fds, or refused for an array of 10000 elements or more |
| Payload.FieldsDerived | hyprwire-core/src/message/wire/generic_protocol_message.rs:61-138 | whatever the scan accepts is a sequence of well-formed fields inside the buffer demanding exactly the fds counted |
| Scanning.CallAccepted | hyprwire-core/src/message/wire/generic_protocol_message.rs:33-154 | a generic message at any offset is accepted as written, what follows it untouched, unless an array is too long |
| Scanning.AcceptedCall | hyprwire-core/src/message/wire/generic_protocol_message.rs:33-154 | an accepted message is a derivation of the grammar wholly inside the buffer |
| Scanning.AcceptedIff | hyprwire-core/src/message/wire/generic_protocol_message.rs:33-154 | acceptance is exactly being such a derivation |
| Scanning.ExtensionStable | hyprwire-core/src/message/wire/generic_protocol_message.rs:140-153 | appending bytes and fds changes nothing about an accepted message |
| Scanning.FrameMoves | hyprwire-core/src/message/wire/generic_protocol_message.rs:146-153 | the stored frame parses to the same message alone and at any other place |
| Scanning.CallsDelimited | hyprwire-core/src/message/wire/generic_protocol_message.rs:61-138 | two derivations at one place are the same bytes |
| Scanning.SpanOfCall | hyprwire-core/src/message/wire/generic_protocol_message.rs:156-158 | the span handlers decode is the fields and the End byte |
| Encoder.MarshalCall | hyprwire/src/implementation/wire_object.rs:70-221 | the parameter loop yields the specified bytes and fds, with its break, rejection and index-panic exits |
| Encoder.MarshalScalar | hyprwire/src/implementation/wire_object.rs:107-151 | one scalar parameter: magic, then the value only if the argument is of that kind |
| Encoder.MarshalArray | hyprwire/src/implementation/wire_object.rs:161-209 | one array parameter: count and elements by the argument's kind, or rejection |
| EndToEnd.TypedEncoding | hyprwire/src/implementation/wire_object.rs:70-221 | for arguments of the declared types the encoder's output is one grammar field per argument, behind the returned sequence number |
| EndToEnd.SpanDecoded | hyprwire-scanner/src/generate.rs:293-319 | the emitted statements read that span back to the same sequence number, arguments and fds, ending on the End byte |
| EndToEnd.EndToEnd | hyprwire-scanner/src/generate.rs:150-314 | encode, frame at any offset with any bytes and fds behind, decode: everything comes back in order, if and only if every array has fewer than 10000 elements; otherwise ArrayTooLong |
| EndToEnd.RejectedIff | hyprwire/src/implementation/wire_object.rs:161-216 | for the parameter list of any method, encoding is rejected if and only if an array parameter has no array for its argument, and never runs past the list |
| Resolve.Message.constructor | hyprwire-core/src/message/wire/generic_protocol_message.rs:21-31 | a new message holds the bytes and fds, with no object and no dependency |
| Resolve.FlushParked | hyprwire/src/client/event_queue.rs:145-166 | the flush of one parked message: the verdict is what the table knows of the object it depends on, and a message with an id to go to ends up byte for byte the call encoded with that id |
| Resolve.ParkCall | hyprwire/src/implementation/wire_object.rs:221-240 | a parked call is the encoding with object id 0, depending on the callee's sequence number |
| Resolve.Message.ResolveSeq | hyprwire-core/src/message/wire/generic_protocol_message.rs:181-186 | the in-place patch replaces bytes 2 to 6 by the id and nothing else |
| Resolve.DeferredRefinesDirect | hyprwire/src/client/event_queue.rs:158-166 | for any parameter list and arguments, patching the call encoded with id 0 gives byte for byte the call encoded with the id, with the same fds and the same failures |
| Resolve.PatchedArrives | hyprwire/src/client/event_queue.rs:158-166 | a parked and patched call is received for that object with its method, sequence number, arguments and fds |
| Frames.ParseFixed | hyprwire-core/src/message/wire/bind_protocol.rs:58-116 | the needle's walk over the fields of a fixed message is the specification, errors included |
| Frames.CollectTexts | hyprwire-core/src/message/wire/handshake_protocols.rs:72-90 | the counted loop over protocol names is the specification, errors included |
| Frames.CollectWords | hyprwire-core/src/message/wire/handshake_begin.rs:72-74 | the counted read of versions is the specification, errors included |
| Frames.PlainRead | hyprwire-core/src/message/wire/handshake_protocols.rs:47-110 | every well-formed fixed message is read from where it stands, up to its last byte, with its values |
| Frames.PlainBack | hyprwire-core/src/message/wire/handshake_begin.rs:42-92 | whatever is read stands there as a well-formed message under its limits |
| Framing.HandleMessage | hyprwire/src/message.rs:187-347 | the loop over the buffer handles the specified messages and ends with the specified error |
| Framing.TakeForward | hyprwire/src/message.rs:31-173 | the needle strictly increases and stays inside the buffer |
| Framing.SplitFrom | hyprwire/src/message.rs:21-184 | any concatenation of valid messages for a role is split into those messages in order, each with its own fds |
| Framing.TiledFrom | hyprwire/src/message.rs:21-184 | a loop that ends without error went over a tiling of the buffer by valid messages that demand every fd |
| Framing.HandledIffTiled | hyprwire/src/message.rs:21-184 | the loop succeeds if and only if such a tiling exists |
| Framing.FdsConserved | hyprwire/src/message.rs:338-340 | the handled messages' fds are exactly the received ones, in order |
| Framing.BatchesJoin | hyprwire/src/message.rs:187-347 | handling two batches one after the other is handling their concatenation |
| Wire.WriteHandshakeProtocols | hyprwire-core/src/message/wire/handshake_protocols.rs:13-40 | the constructor's loop writes the specified bytes |
| Wire.WriteHandshakeBegin | hyprwire-core/src/message/wire/handshake_begin.rs:13-36 | the constructor's loop writes the specified bytes |
| Wire.WriteBindProtocol | hyprwire-core/src/message/wire/bind_protocol.rs:15-40 | the constructor writes the specified bytes |
| Wire.ClientFrameMeans | hyprwire/src/message.rs:203-322 | every client message the server takes is a valid frame for it, and the parsed values are the message's own |
| Wire.ServerFrameMeans | hyprwire/src/message.rs:31-160 | the same for server messages at the client |
| Wire.ClientRefused | hyprwire/src/message.rs:275-295 | the bytes of a message the modelled server gives up over make the parser fail, wherever they stand and whatever follows |
| Wire.ServerRefused | hyprwire/src/message.rs:41-114 | likewise at the client: version negotiation, list lengths and array lengths |
| Wire.ClientBatchArrives | hyprwire/src/message.rs:187-347 | a run of client messages written one after the other is handled as that run, message by message, up to the first one that is refused; the loop fails if and only if there is one |
| Wire.ServerBatchArrives | hyprwire/src/message.rs:15-184 | the same from server to client |
| Wire.AdvertsArrive | hyprwire/src/message.rs:237-254 | formatted, encoded at any offset, decoded and split, the registrations come back in order whatever their names contain |
| Wire.BindAcceptedIff | hyprwire-core/src/message/wire/bind_protocol.rs:98-101 | a bind is accepted with its values if and only if its version is not 0, and is InvalidVersion otherwise |
| Delivery.RequestTypesAgree | hyprwire/src/server/server_client.rs:201-216 | in every reachable state the server decodes each request with the parameter types the client encoded it with, and expects a sequence number exactly when one was sent |
| Delivery.EventTypesAgree | hyprwire/src/client/client_socket.rs:265-279 | likewise for events |
| Delivery.ClientStretchDelivered | hyprwire/src/message.rs:187-347 | in every reachable state any stretch of what the client sent, as bytes, is handled by the server as those messages with their arguments, up to the first one it refuses, failing if and only if there is one; integers are taken to fit 32 bits and arguments to have their types |
| Delivery.ServerStretchDelivered | hyprwire/src/message.rs:15-184 | the same, under the same hypothesis, for any stretch of what the server sent |
| Adverts.FormatRoundTrip | hyprwire/src/client/client_socket.rs:210-221 | splitting `name@version` at the last at-sign gives back name and version, even for names containing at-signs |
| Adverts.AdvertisedRoundTrip | hyprwire/src/client/client_socket.rs:204-223 | the same for whole lists |
| Adverts.ParsedIff | hyprwire/src/client/client_socket.rs:209-221 | an entry parses, as this name and version, if and only if it is the name, an at-sign and the digits of a u32, possibly behind a plus sign |
| Adverts.ParseAllIsFilter | hyprwire/src/client/client_socket.rs:204-223 | a list is parsed entry by entry and the entries that do not parse are skipped |
| Adverts.LastAt | hyprwire/src/client/client_socket.rs:210-213 | the position of the last at-sign, or the length when there is none |
| Returns.CollectTransitiveReturns | hyprwire-scanner/src/generate.rs:956-989 | the worklist terminates with the specified names in discovery order |
| Returns.CollectAllTransitiveReturns | hyprwire-scanner/src/generate.rs:991-1006 | the loops over all objects yield the specified list |
| Returns.ClosureExact | hyprwire-scanner/src/generate.rs:956-989 | the names are duplicate-free and exactly those reached over one or more returns edges, without the origin |
| Returns.EdgeIff | hyprwire-scanner/src/generate.rs:964-967 | a name returns another if and only if a request of the first object of that name does |
| Returns.BoundsSufficeIff | hyprwire-scanner/src/generate.rs:956-989 | creating the object a request returns needs no bound its creator lacks if and only if the returned name is the creator's own or reached from the first object of the creator's name |
| Returns.BoundsWithin | hyprwire-scanner/src/generate.rs:1021-1029 | one type's bounds cover another's if and only if they contain that type |
| Returns.BoundsSuffice | hyprwire-scanner/src/generate.rs:293-304 | with unique object names, creating a returned object never needs a bound its creator lacks |
| Returns.DuplicateNamesMissBounds | hyprwire-scanner/src/generate.rs:964-964 | an instance of the condition failing: two objects of one name |
| Returns.AllIsUnion | hyprwire-scanner/src/generate.rs:991-1006 | the protocol-wide list is the duplicate-free union of the closures |
| ClientTable.ServerSocket.constructor | hyprwire/src/server/server_socket.rs:60-89 | a new table, with the listener registered and armed if there is one |
| ClientTable.ServerSocket.AddClient | hyprwire/src/server/server_socket.rs:277-305 | the client gets the next id, a table entry and an armed registration |
| ClientTable.ServerSocket.AcceptOne | hyprwire/src/server/server_socket.rs:152-184 | the same for an accepted connection, nothing without one |
| ClientTable.ServerSocket.RemoveClient | hyprwire/src/server/server_socket.rs:310-325 | the client and its registration are gone, everyone else stays in order, and the result says whether it was there |
| ClientTable.ServerSocket.HandleEvents | hyprwire/src/server/server_socket.rs:205-235 | the loop over reported events accepts, re-arms, and collects exactly the failed clients |
| ClientTable.ServerSocket.Bury | hyprwire/src/server/server_socket.rs:237-251 | exactly the dead are removed from table and poller |
| ClientTable.ServerSocket.DispatchPending | hyprwire/src/server/server_socket.rs:186-254 | a whole round: exactly the reported clients that failed leave table and poller, everyone else stays in order, everything reported or new is armed, and at most one new client enters under the next id |
| ClientTable.RunKeepsTable | hyprwire/src/server/server_socket.rs:152-254 | over any sequence of operations the registrations are the listener and the table's clients, all armed between rounds, and ids are issued in strictly increasing order |
| ClientTable.ServerTable | hyprwire/src/server/server_socket.rs:12-29 | from a new server on, no id is reused or is the listener's key |
| Types.FirstIsFirst | hyprwire/src/client/client_socket.rs:235-237 | the entry found is the first one wanted |
| Types.First | hyprwire/src/client/client_socket.rs:235-237 | a found entry is in the table and wanted; none found means none is |
| Types.RetainIsFilter | hyprwire/src/client/client_socket.rs:240-245 | retaining decides entry by entry and keeps order and number |
| Types.RetainIncreasing | hyprwire/src/server/server_client.rs:194-199 | retaining keeps the order of creation |
| Types.FirstAdvertised | hyprwire/src/client/client_socket.rs:80-87 | of several adverts of one name the first is the one found |
| Types.FirstOfName | hyprwire/src/server/server_client.rs:130-169 | of several interfaces of one name the first is the one found |

## Left out

- ClientEndpoint.ClientSocket.Bind: does not include the wait for the object, whose errors are those of the dispatches it runs.
- ClientEndpoint.ClientSocket.Call: does not model the exit for arguments that do not match the method's parameters, because generated call sites cannot take it; `Encoder.MarshalCall` models that exit of the encoding.
- ServerEndpoint.ServerClientState.CreateObject: the on_bind callback at its end is application code; what it sends are further steps.
- Decoder: the replacement of ill-formed UTF-8 by from_utf8_lossy in emitted handlers, which strings sent by call sites never meet.
- Socket calls, short reads, EAGAIN, ancillary buffers: a channel is a FIFO of whole messages and fds.
- Timeouts, poller waits, peer credentials: the first poll keeps only its flag, and a step may happen whenever it is enabled.
- The closing of a dead connection: a peer whose connection is gone simply is not read any more.
- Wrap-around of u32 sequence numbers, ids and roundtrip tokens.
- Shift overflow in length integers of more than ten bytes and usize overflow of offsets: both are mathematical integers here.
- f32 arithmetic: a float is its four bytes. Enum transmutes: an enum is its u32.
- Several event queues on one socket, and threads.
- The waiting loops of roundtrip and wait_for_handshake: whether they end depends on the peer; Protocol.RoundtripBarrier says what their ending means.
- References between objects: the classes hold their objects as values in sequences and refer to them by index, so aliasing of Arc handles is reduced to one held bit per object.
- Event handlers as code: what a handler does is a sequence of further call steps.
- Object data that was never attached: a server object with an interface is taken to have a generated handler.
- add_implementation on the client after connecting: the registered protocols are fixed per run.
- Calls with arguments that do not match the method's types: the encoder is modelled for them, the theorems about decoding are for typed arguments, which is what generated call sites pass.
- XML parsing, token generation, identifier casing, log formatting.
