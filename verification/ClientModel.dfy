// The client endpoint as a value: ClientSocket, its objects and its event queue
// (hyprwire/src/client/client_socket.rs, client_object.rs, event_queue.rs,
// hyprwire/src/implementation/wire_object.rs).
//
// Every function maps the endpoint to its next value and the messages it sends.
module ClientModel {
  import opened Types
  import Adverts

  /** Client-to-server messages.  `call` names the entry of the call history a request
      belongs to; it is not on the wire and neither endpoint reads it. */
  datatype CMsg =
    | Sup
    | HandshakeAck(version: nat)
    | BindProtocol(proto: Name, seqNo: nat, bindVersion: nat)
    | Request(target: nat, op: nat, ret: nat, args: seq<CallArg>, call: nat)
    | RoundtripRequest(token: nat)

  /** Server-to-client messages. */
  datatype SMsg =
    | HandshakeBegin(versions: seq<nat>)
    | HandshakeProtocols(protocols: seq<Bytes>)
    | NewObject(newSeq: nat, newId: nat)
    | Event(source: nat, event: nat, eventArgs: seq<CallArg>)
    | FatalProtocolError(culprit: nat)
    | RoundtripDone(done: nat)

  /** A client object.  `id == 0` until the server answers; `held` while the
      application keeps a handle besides the one in the table; `bound` for a root object,
      which `Client::bind` hands out only once it has an id. */
  datatype CObj = CObj(seqNo: nat, id: nat, version: nat, proto: Name, iface: Iface,
                       held: bool, destroyed: bool, bound: bool)

  /** A parked request: encoded with object id 0, waiting for the object of `dep`. */
  datatype Deferred = Deferred(dep: nat, op: nat, ret: nat, args: seq<CallArg>, call: nat)

  /** Where the client is inside `dispatch_events_inner`; `Failed` after a dispatch that gave
      the connection up over a message, before any flush. */
  datatype Phase = Idle | Handling | Flushing | Failed

  /** `objs` are all objects ever made; `table` indexes those in `ClientSocket::objects`.
      `queue` holds parked requests; while flushing, `pending` is the part taken out of
      it and not yet visited. */
  datatype Client = Client(
    objs: seq<CObj>, table: seq<nat>, seqNo: nat,
    queue: seq<Deferred>, pending: seq<Deferred>, phase: Phase,
    impls: set<Name>, specs: seq<Advert>,
    handshakeDone: bool, error: bool,
    lastSent: nat, lastAckd: nat)

  datatype Reply = Reply(c: Client, out: seq<CMsg>)

  const PROTOCOL_VERSION: nat := 1

  /** The client is in no dispatch. */
  predicate Resting(c: Client) {
    c.phase.Idle? || c.phase.Failed?
  }

  /** The messages the client's loop fails on: no common version, or something its parser
      refuses for its length. */
  predicate Unspeakable(msg: SMsg) {
    match msg
    case HandshakeBegin(versions) => |versions| >= MAX_VERSIONS || PROTOCOL_VERSION !in versions
    case HandshakeProtocols(ps) => |ps| >= MAX_PROTOCOLS
    case Event(_, _, args) => !Sendable(args)
    case _ => false
  }

  function Fresh(impls: set<Name>): Client {
    Client([], [], 0, [], [], Idle, impls, [], false, false, 0, 0)
  }

  function SeqIs(objs: seq<CObj>, n: nat): set<nat> {
    set i: nat | i < |objs| && objs[i].seqNo == n
  }

  function IdIs(objs: seq<CObj>, x: nat): set<nat> {
    set i: nat | i < |objs| && objs[i].id == x
  }

  /** `Client::bind` up to the wait: look the protocol up among the advertised specs,
      check the version, and send BindProtocol for a new object of the root interface. */
  function Bind(cat: Catalog, c: Client, proto: Name, version: nat): Reply {
    match FindAdvert(c.specs, proto)
    case None => Reply(c, [])
    case Some(adv) =>
      if version > adv.version || proto !in cat || cat[proto] == [] then Reply(c, [])
      else
        var n := c.seqNo + 1;
        Reply(AddObject(c.(seqNo := n), CObj(n, 0, version, proto, cat[proto][0], true, false, true)),
              [BindProtocol(proto, n, version)])
  }

  function AddObject(c: Client, o: CObj): Client {
    c.(objs := c.objs + [o], table := c.table + [|c.objs|])
  }

  /** `make_object`: fails (NoSpec) unless the protocol was registered with the client
      and has an interface of that name.  The new object's version is 0. */
  function MakeObject(cat: Catalog, impls: set<Name>, proto: Name, name: Name, n: nat): (made: seq<CObj>)
    ensures |made| <= 1
  {
    if proto !in impls || proto !in cat then []
    else match FindIface(cat[proto], name)
      case None => []
      case Some(f) => [CObj(n, 0, 0, proto, f, true, false, false)]
  }

  /** The checks `call` makes before it encodes anything. */
  predicate Accepts(o: CObj, m: nat) {
    m < |o.iface.c2s| && o.iface.c2s[m].since <= o.version
  }

  /** `WireObject::call` on a client object: allocate the returned sequence number, then
      send at once if the object's id is known and park the request otherwise. */
  function Call(cat: Catalog, c: Client, o: nat, m: nat, args: seq<CallArg>, call: nat): Reply
    requires o < |c.objs|
  {
    var obj := c.objs[o];
    if !Accepts(obj, m) then Reply(c, [])
    else
      var def := obj.iface.c2s[m];
      var ret := if def.creates == [] then 0 else c.seqNo + 1;
      var made := if ret == 0 then [] else MakeObject(cat, c.impls, obj.proto, def.creates, ret);
      Reply(c.(objs := c.objs[o := obj.(destroyed := obj.destroyed || def.destructor)] + made,
               table := c.table + (if made == [] then [] else [|c.objs|]),
               seqNo := if ret == 0 then c.seqNo else ret,
               queue := c.queue + (if obj.id == 0 then [Deferred(obj.seqNo, m, ret, args, call)] else [])),
            if obj.id == 0 then [] else [Request(obj.id, m, ret, args, call)])
  }

  /** The destructor `Drop for ClientObject` calls when the last handle goes away. */
  function AutoDestructor(o: CObj): Option<nat> {
    if o.destroyed || o.id == 0 then None
    else
      var m := FirstDestructor(o.iface.c2s, o.version, 0);
      if m < |o.iface.c2s| && o.iface.c2s[m].creates == [] && o.iface.c2s[m].params == [] then Some(m)
      else None
  }

  function FirstDestructor(ms: seq<Method>, version: nat, from: nat): (r: nat)
    ensures r < |ms| ==> ms[r].destructor && ms[r].since <= version
    decreases |ms| - from
  {
    if from >= |ms| then |ms|
    else if ms[from].destructor && ms[from].since <= version then from
    else FirstDestructor(ms, version, from + 1)
  }

  /** One turn of the client's `handle_message` loop, and what `dispatch_events_inner` does
      when it fails. */
  function Handle(c: Client, msg: SMsg): Reply {
    if Unspeakable(msg) then Reply(c.(error := true, phase := Failed), [])
    else Take(c.(phase := Handling), msg)
  }

  function Take(h: Client, msg: SMsg): Reply {
    match msg
    case HandshakeBegin(_) => Reply(h, [HandshakeAck(PROTOCOL_VERSION)])
    case HandshakeProtocols(ps) =>
      Reply(h.(specs := h.specs + Adverts.ParseAll(ps), handshakeDone := true), [])
    case NewObject(n, id) => Reply(OnSeq(h, n, id), [])
    case Event(x, m, _) => Reply(OnGeneric(h, x, m), [])
    case FatalProtocolError(_) => Reply(h.(error := true), [])
    case RoundtripDone(k) => Reply(h.(lastAckd := k), [])
  }

  function OnSeq(c: Client, n: nat, id: nat): Client {
    match First(c.table, SeqIs(c.objs, n))
    case None => c
    case Some(i) => if i < |c.objs| then c.(objs := c.objs[i := c.objs[i].(id := id)]) else c
  }

  /** The object an event is for, its destructor bookkeeping, or the disconnect branch
      for an unknown object.  The event handler itself is later `Call` steps. */
  function OnGeneric(c: Client, x: nat, m: nat): Client {
    match First(c.table, IdIs(c.objs, x))
    case None => c.(error := true)
    case Some(i) =>
      if i < |c.objs| && m < |c.objs[i].iface.s2c| && c.objs[i].iface.s2c[m].destructor then
        var objs := c.objs[i := c.objs[i].(destroyed := true)];
        c.(objs := objs, table := if x == 0 then c.table else Retain(c.table, IdIs(objs, x)))
      else c
  }

  /** All parked requests, in call order. */
  function Parked(c: Client): seq<Deferred> {
    c.queue + c.pending
  }

  function StartFlush(c: Client): Client {
    c.(phase := Flushing, pending := c.queue, queue := [])
  }

  /** One turn of the flush loop: drop, keep, or patch in the resolved id and send. */
  function FlushOne(c: Client): Reply
    requires c.pending != []
  {
    var d := c.pending[0];
    var c1 := c.(pending := c.pending[1..]);
    match First(c.table, SeqIs(c.objs, d.dep))
    case None => Reply(c1, [])
    case Some(i) =>
      if i >= |c.objs| || c.objs[i].id == 0 then Reply(c1.(queue := c.queue + [d]), [])
      else Reply(c1, [Request(c.objs[i].id, d.op, d.ret, d.args, d.call)])
  }

  predicate Orphan(c: Client, o: nat) {
    o < |c.objs| && o in c.table && c.objs[o].id != 0 && !c.objs[o].held
  }

  function Discard(c: Client, o: nat): Client {
    c.(table := Retain(c.table, {o}))
  }

  function Roundtrip(c: Client): Reply {
    Reply(c.(lastSent := c.lastSent + 1), [RoundtripRequest(c.lastSent + 1)])
  }
}
