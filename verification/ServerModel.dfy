// The server's side of one connection as a value: ServerClientState and its objects
// (hyprwire/src/server/server_client.rs, server_object.rs), and the per-client part of
// the dispatch loop (hyprwire/src/server/server_socket.rs).
module ServerModel {
  import opened Types
  import opened ClientModel
  import Adverts

  /** A server object.  `cause` is the position of the request that created it and `at` the
      position of its NewObject answer; both are history, read by nobody. */
  datatype SObj = SObj(seqNo: nat, id: nat, version: nat, proto: Name, iface: Option<Iface>,
                       destroyed: bool, cause: nat, at: nat)

  /** `objs` are all objects ever created; `table` indexes `ServerClientState::objects`.
      `finishing` is the object whose destructor request is being dispatched (0: none),
      `dlog` the ids that received a destructor event, in delivery order, and `acked`
      the last roundtrip token answered.  `aborted`: the current batch failed to parse. */
  datatype Server = Server(
    objs: seq<SObj>, table: seq<nat>, maxId: nat, impls: seq<Advert>,
    version: nat, firstPoll: bool, scheduled: nat, acked: nat,
    error: bool, aborted: bool, gone: bool, phase: bool, finishing: nat, dlog: seq<nat>)

  datatype SReply = SReply(s: Server, out: seq<SMsg>)

  const Start := Server([], [], 1, [], 0, false, 0, 0, false, false, false, false, 0, [])

  function ServerIdIs(objs: seq<SObj>, x: nat): set<nat> {
    set i: nat | i < |objs| && objs[i].id == x
  }

  /** The interface `create_object` picks: the root one for an empty name. */
  function PickIface(cat: Catalog, impls: seq<Advert>, proto: Name, name: Name): Option<Iface> {
    if FindAdvert(impls, proto).None? || proto !in cat then None
    else if name == [] then (if cat[proto] == [] then None else Some(cat[proto][0]))
    else FindIface(cat[proto], name)
  }

  /** The object `create_object` makes at position `at` for the message at `cause`. */
  function NewServerObject(cat: Catalog, s: Server, proto: Name, name: Name, version: nat, n: nat,
                           cause: nat, at: nat): SObj {
    SObj(n, s.maxId, version, proto, PickIface(cat, s.impls, proto, name), false, cause, at)
  }

  /** `create_object` for at most one object: register it after answering NewObject. */
  function AddServerObject(s: Server, made: seq<SObj>): Server {
    s.(objs := s.objs + made, maxId := s.maxId + |made|,
       table := s.table + (if made == [] then [] else [|s.objs|]))
  }

  function Answers(made: seq<SObj>): seq<SMsg> {
    if made == [] then [] else [NewObject(made[0].seqNo, made[0].id)]
  }

  /** The messages the server's parser refuses: a bind with version 0, and a request with
      an array that is too long. */
  predicate Unparsable(msg: CMsg) {
    match msg
    case BindProtocol(_, _, v) => v == 0
    case Request(_, _, _, args, _) => !Sendable(args)
    case _ => false
  }

  /** One turn of the server's `handle_message` loop for the message at position `cause`;
      `at` is the position its first answer will take. */
  function ServerHandle(cat: Catalog, s: Server, msg: CMsg, cause: nat, at: nat): SReply {
    if Unparsable(msg) then SReply(Aborted(s), [])
    else ServerTake(cat, s.(phase := true), msg, cause, at)
  }

  /** The batch failed to parse. */
  function Aborted(s: Server): Server {
    s.(phase := true, error := true, aborted := true)
  }

  function ServerTake(cat: Catalog, h: Server, msg: CMsg, cause: nat, at: nat): SReply {
    match msg
    case Sup => SReply(h.(firstPoll := true), [HandshakeBegin([PROTOCOL_VERSION])])
    case HandshakeAck(v) => SReply(h.(version := v), [HandshakeProtocols(Adverts.FormatAll(h.impls))])
    case BindProtocol(p, n, v) =>
      var made := [NewServerObject(cat, h, p, [], v, n, cause, at)];
      SReply(AddServerObject(h, made), Answers(made))
    case Request(x, m, ret, _, _) => ServerOnGeneric(cat, h, x, m, ret, cause, at)
    case RoundtripRequest(k) => SReply(h.(scheduled := k), [])
  }

  /** Dispatch to an object.  A generated handler with a returned interface first creates
      that object, unless this one is destroyed; a destructor is then finished by `Finish`
      after the handler ran.  An object without interface has no handler. */
  function ServerOnGeneric(cat: Catalog, s: Server, x: nat, m: nat, ret: nat, cause: nat, at: nat): SReply {
    match First(s.table, ServerIdIs(s.objs, x))
    case None => SReply(s.(error := true), [FatalProtocolError(x)])
    case Some(i) => if i < |s.objs| then ServerDispatch(cat, s, i, m, ret, cause, at) else SReply(s, [])
  }

  predicate HasHandler(o: SObj, m: nat) {
    o.iface.Some? && m < |o.iface.value.c2s|
  }

  /** The object the handler of method `m` creates before it runs. */
  function Created(cat: Catalog, s: Server, o: SObj, m: nat, ret: nat, cause: nat, at: nat): seq<SObj>
    requires HasHandler(o, m)
  {
    var name := o.iface.value.c2s[m].creates;
    if name == [] || o.destroyed then [] else [NewServerObject(cat, s, o.proto, name, o.version, ret, cause, at)]
  }

  function ServerDispatch(cat: Catalog, s: Server, i: nat, m: nat, ret: nat, cause: nat, at: nat): SReply
    requires i < |s.objs|
  {
    var o := s.objs[i];
    if !HasHandler(o, m) then SReply(s, [])
    else
      var def := o.iface.value.c2s[m];
      var made := Created(cat, s, o, m, ret, cause, at);
      var s1 := AddServerObject(s, made);
      SReply(if !def.destructor then s1
             else s1.(finishing := o.id,
                      dlog := s.dlog + (if def.creates == [] || !o.destroyed then [o.id] else [])),
             Answers(made))
  }

  /** The end of `on_generic` for a destructor request: mark and remove the object. */
  function Finish(s: Server): Server {
    var ids := ServerIdIs(s.objs, s.finishing);
    s.(objs := MarkAll(s.objs, ids), table := Retain(s.table, ids), finishing := 0)
  }

  function MarkAll(objs: seq<SObj>, ids: set<nat>): (r: seq<SObj>)
    ensures |r| == |objs|
    ensures forall i :: 0 <= i < |objs| ==>
                          r[i] == if i in ids then objs[i].(destroyed := true) else objs[i]
  {
    seq(|objs|, i requires 0 <= i < |objs| => if i in ids then objs[i].(destroyed := true) else objs[i])
  }

  /** The end of `dispatch_client`: acknowledge the last roundtrip request of the batch. */
  function EndDispatch(s: Server): SReply {
    var e := s.(phase := false);
    if s.aborted then SReply(e.(error := true), [FatalProtocolError(0)])
    else if s.scheduled > 0 then
      SReply(e.(scheduled := 0, acked := s.scheduled), [RoundtripDone(s.scheduled)])
    else SReply(e, [])
  }

  predicate CanSend(o: SObj, m: nat) {
    o.iface.Some? && m < |o.iface.value.s2c| && o.iface.value.s2c[m].since <= o.version
    && o.iface.value.s2c[m].creates == []
  }

  /** `ServerObject::call`: the application sends an event. */
  function SendEvent(s: Server, o: nat, m: nat, args: seq<CallArg>): SReply
    requires o < |s.objs|
  {
    var obj := s.objs[o];
    if obj.destroyed then SReply(s, [])
    else if !CanSend(obj, m) then SReply(s.(error := true), [FatalProtocolError(obj.id)])
    else
      SReply(s.(objs := s.objs[o := obj.(destroyed := obj.iface.value.s2c[m].destructor)]),
             [Event(obj.id, m, args)])
  }

  /** `Object::error` called by the application. */
  function RaiseError(s: Server, o: nat): SReply
    requires o < |s.objs|
  {
    if s.objs[o].destroyed then SReply(s, [])
    else SReply(s.(error := true), [FatalProtocolError(s.objs[o].id)])
  }

  /** Objects `destroy_for_disconnect` dispatches a destructor to. */
  predicate WantsDestructor(o: SObj) {
    !o.destroyed && o.iface.Some? && HasPlainDestructor(o.iface.value.c2s)
  }

  predicate HasPlainDestructor(ms: seq<Method>) {
    exists m: nat :: m < |ms| && ParameterlessDestructor(ms[m])
  }

  predicate ParameterlessDestructor(def: Method) {
    def.destructor && def.params == [] && def.creates == []
  }

  /** Something the server's application does to an object: send an event, or report an
      error. */
  datatype Speech = Say(so: nat, event: nat, args: seq<CallArg>) | Complain(so: nat)

  function SpeakOne(s: Server, w: Speech): (r: SReply)
    ensures |r.s.objs| == |s.objs|
  {
    if w.so >= |s.objs| then SReply(s, [])
    else match w
      case Say(o, m, args) => SendEvent(s, o, m, args)
      case Complain(o) => RaiseError(s, o)
  }

  /** What a handler says, in order. */
  function SpeechPass(s: Server, script: seq<Speech>): (r: SReply)
    ensures |r.s.objs| == |s.objs|
    decreases |script|
  {
    if script == [] then SReply(s, [])
    else
      var r := SpeakOne(s, script[0]);
      var rest := SpeechPass(r.s, script[1..]);
      SReply(rest.s, r.out + rest.out)
  }

  /** `destroy_for_disconnect`: an object that wants its destructor gets it, its handler says
      `script`, and only then the object counts as destroyed. */
  function DestroyTurn(s: Server, i: nat, script: seq<Speech>): SReply {
    if i >= |s.objs| || !WantsDestructor(s.objs[i]) then SReply(s, [])
    else
      var r := SpeechPass(s.(dlog := s.dlog + [s.objs[i].id]), script);
      SReply(r.s.(objs := r.s.objs[i := r.s.objs[i].(destroyed := true)]), r.out)
  }

  /** The loop of `destroy_objects_for_disconnect` over the first `n` of the cloned table
      `todo`, last first; `scripts` is what each object's handler says if it runs. */
  function DestroyFrom(s: Server, todo: seq<nat>, scripts: seq<seq<Speech>>, n: nat): SReply
    requires n <= |todo| == |scripts|
    decreases n
  {
    if n == 0 then SReply(s, [])
    else
      var t := DestroyTurn(s, todo[n - 1], scripts[n - 1]);
      var rest := DestroyFrom(t.s, todo, scripts, n - 1);
      SReply(rest.s, t.out + rest.out)
  }

  /** The connection goes: `destroy_objects_for_disconnect`, and the table is cleared. */
  function Disconnect(s: Server, scripts: seq<seq<Speech>>): SReply
    requires |scripts| == |s.table|
  {
    var r := DestroyFrom(s, s.table, scripts, |s.table|);
    SReply(r.s.(table := [], error := true, gone := true), r.out)
  }

  function Register(s: Server, a: Advert): Server {
    s.(impls := s.impls + [a])
  }
}
