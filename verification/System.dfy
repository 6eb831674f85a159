// The composed system: one client, one server, and the two FIFO directions of their
// connection.  A channel is kept as everything ever sent on it plus a read cursor, so
// the undelivered messages are `c2s[cRead..]` and `s2c[sRead..]`.  A message its receiver
// fails on is not counted as read; nothing behind it ever is.
module System {
  import opened Types
  import opened ClientModel
  import opened ServerModel

  /** What became of a request: still parked, sent as `c2s[pos]`, or dropped by a flush. */
  datatype Fate = Waiting | Sent(pos: nat) | Dropped

  /** The history of one accepted call.  `jumped`: it was sent at once although an earlier
      call on the same object had not been sent. */
  datatype CallRec = CallRec(on: nat, op: nat, ret: nat, args: seq<CallArg>, fate: Fate, jumped: bool)

  /** Who allocated a sequence number: the BindProtocol at a position, or a call. */
  datatype Origin = Bound(pos: nat) | Made(call: nat)

  /** Record of one processed client message: the length of `s2c` right after it, and the
      id of the object it created (0: none). */
  datatype Handled = Handled(mark: nat, made: nat)

  /** `calls`, `alloc` (indexed by sequence number - 1), `handled` (indexed by position),
      `reqAt` (position of each roundtrip request), `ackAt`, `protoAt` (positions of the
      HandshakeAck and HandshakeProtocols messages, 0: not sent) and `adv` (what was
      advertised) are history: no step's outcome depends on them.  `handler`: the message
      the client read last is an event it has delivered to an object of its table. */
  datatype Sys = Sys(
    c: Client, s: Server,
    c2s: seq<CMsg>, cRead: nat, s2c: seq<SMsg>, sRead: nat,
    calls: seq<CallRec>, alloc: seq<Origin>, handled: seq<Handled>, reqAt: seq<nat>,
    ackAt: nat, protoAt: nat, adv: seq<Advert>, handler: bool)

  datatype Step =
    // the client application
    | AppBind(proto: Name, version: nat)
    | AppCall(o: nat, op: nat, args: seq<CallArg>)
    | AppRoundtrip
    | AppRelease(o: nat)
    | AppAcquire(o: nat)
    // the client runtime
    | ClientHandle
    | ClientStartFlush
    | ClientFlushOne
    | ClientFinishFlush
    | ClientCollect(o: nat)
    // the server
    | ServerHandleNext
    | ServerFinish
    | ServerEnd
    | ServerEvent(so: nat, event: nat, args: seq<CallArg>)
    | ServerRaise(so: nat)
    | ServerDisconnect(scripts: seq<seq<Speech>>)
    | ServerRegister(a: Advert)

  /** `ClientSocket::new` has sent its hello; the server has accepted the connection. */
  function Init(impls: set<Name>): Sys {
    Sys(Fresh(impls), Start, [Sup], 0, [], 0, [], [], [], [], 0, 0, [], false)
  }

  /** An earlier call on `o` that has not been put on the wire. */
  predicate Behind(calls: seq<CallRec>, o: nat) {
    exists k: nat :: k < |calls| && calls[k].on == o && !calls[k].fate.Sent?
  }

  /** A call made by the application or by a dropped handle. */
  function DoCall(cat: Catalog, y: Sys, o: nat, op: nat, args: seq<CallArg>): Sys
    requires o < |y.c.objs|
  {
    var obj := y.c.objs[o];
    if !Accepts(obj, op) then y
    else
      var k := |y.calls|;
      var r := Call(cat, y.c, o, op, args, k);
      var ret := if obj.iface.c2s[op].creates == [] then 0 else y.c.seqNo + 1;
      y.(c := r.c, c2s := y.c2s + r.out,
         calls := y.calls + [CallRec(o, op, ret, args,
                                     if obj.id == 0 then Waiting else Sent(|y.c2s|),
                                     obj.id != 0 && Behind(y.calls, o))],
         alloc := y.alloc + (if ret == 0 then [] else [Made(k)]))
  }

  /** The last handle to object `o` goes away. */
  function DropObject(cat: Catalog, y: Sys, o: nat): Sys
    requires o < |y.c.objs|
  {
    match AutoDestructor(y.c.objs[o])
    case None => y
    case Some(m) => DoCall(cat, y, o, m, [])
  }

  /** Reading `msg` runs an event handler. */
  predicate Delivers(c: Client, msg: SMsg) {
    msg.Event? && First(c.table, IdIs(c.objs, msg.source)).Some?
  }

  /** Application code runs between dispatches and, inside one, in the handler of the event
      just delivered. */
  predicate AppRuns(y: Sys) {
    Resting(y.c) || (y.c.phase.Handling? && y.handler)
  }

  predicate Enabled(cat: Catalog, y: Sys, step: Step) {
    match step
    case AppBind(_, _) => Resting(y.c)
    // a call on an unresolved object needs the queue lock, which a dispatch holds; and an
    // unresolved root object has not been handed out yet
    case AppCall(o, _, _) =>
      && o < |y.c.objs| && y.c.objs[o].held && AppRuns(y)
      && (y.c.objs[o].id == 0 ==> Resting(y.c) && !y.c.objs[o].bound)
    case AppRoundtrip => y.c.phase.Idle? && !y.c.error
    case AppRelease(o) => o < |y.c.objs| && y.c.objs[o].held && AppRuns(y)
    case AppAcquire(o) => o < |y.c.objs| && o in y.c.table && AppRuns(y)
    case ClientHandle => y.sRead < |y.s2c| && ((y.c.phase.Idle? && !y.c.error) || y.c.phase.Handling?)
    case ClientStartFlush => y.c.phase.Handling?
    case ClientFlushOne => y.c.phase.Flushing? && y.c.pending != []
    case ClientFinishFlush => y.c.phase.Flushing? && y.c.pending == []
    case ClientCollect(o) => y.c.phase.Idle? && Orphan(y.c, o)
    case ServerHandleNext => y.cRead < |y.c2s| && !y.s.gone && !y.s.aborted && y.s.finishing == 0
    case ServerFinish => y.s.finishing != 0
    case ServerEnd => y.s.phase && y.s.finishing == 0
    case ServerEvent(o, _, _) => o < |y.s.objs|
    case ServerRaise(o) => o < |y.s.objs|
    // on error after a dispatch, or through `remove_client` at any time between dispatches
    case ServerDisconnect(scripts) => !y.s.phase && !y.s.gone && |scripts| == |y.s.table|
    case ServerRegister(a) => a.name in cat && a.version < U32_LIMIT
  }

  function Apply(cat: Catalog, y: Sys, step: Step): Sys
    requires Enabled(cat, y, step)
  {
    match step
    case AppBind(proto, version) =>
      var r := Bind(cat, y.c, proto, version);
      y.(c := r.c, c2s := y.c2s + r.out,
         alloc := if r.out == [] then y.alloc else y.alloc + [Bound(|y.c2s|)])
    case AppCall(o, op, args) => DoCall(cat, y, o, op, args)
    case AppRoundtrip =>
      var r := Roundtrip(y.c);
      y.(c := r.c, c2s := y.c2s + r.out, reqAt := y.reqAt + [|y.c2s|])
    case AppRelease(o) =>
      var y1 := y.(c := y.c.(objs := y.c.objs[o := y.c.objs[o].(held := false)]));
      if o in y.c.table then y1 else DropObject(cat, y1, o)
    case AppAcquire(o) => y.(c := y.c.(objs := y.c.objs[o := y.c.objs[o].(held := true)]))
    case ClientHandle =>
      var msg := y.s2c[y.sRead];
      var r := Handle(y.c, msg);
      if Unspeakable(msg) then y.(c := r.c)
      else
        y.(c := r.c, c2s := y.c2s + r.out, sRead := y.sRead + 1,
           ackAt := if r.out == [] then y.ackAt else |y.c2s|,
           handler := Delivers(y.c, msg))
    case ClientStartFlush => y.(c := StartFlush(y.c))
    case ClientFlushOne =>
      var d := y.c.pending[0];
      var r := FlushOne(y.c);
      var fate := if r.out != [] then Sent(|y.c2s|)
                  else if |r.c.queue| == |y.c.queue| then Dropped else Waiting;
      y.(c := r.c, c2s := y.c2s + r.out,
         calls := if d.call < |y.calls| then y.calls[d.call := y.calls[d.call].(fate := fate)] else y.calls)
    case ClientFinishFlush => y.(c := y.c.(phase := Idle))
    case ClientCollect(o) => DropObject(cat, y.(c := Discard(y.c, o)), o)
    case ServerHandleNext =>
      var msg := y.c2s[y.cRead];
      var r := ServerHandle(cat, y.s, msg, y.cRead, |y.s2c|);
      if Unparsable(msg) then y.(s := r.s)
      else
        y.(s := r.s, s2c := y.s2c + r.out, cRead := y.cRead + 1,
           handled := y.handled + [Handled(|y.s2c| + |r.out|, if |r.s.objs| > |y.s.objs| then |r.s.objs| else 0)],
           protoAt := if msg.HandshakeAck? then |y.s2c| else y.protoAt,
           adv := if msg.HandshakeAck? then y.s.impls else y.adv)
    case ServerFinish => y.(s := Finish(y.s))
    case ServerEnd => Emit(y, EndDispatch(y.s))
    case ServerEvent(o, m, args) => Emit(y, SendEvent(y.s, o, m, args))
    case ServerRaise(o) => Emit(y, RaiseError(y.s, o))
    case ServerDisconnect(scripts) => Emit(y, Disconnect(y.s, scripts))
    case ServerRegister(a) => y.(s := Register(y.s, a))
  }

  function Emit(y: Sys, r: SReply): Sys {
    y.(s := r.s, s2c := y.s2c + r.out)
  }

  /** `steps` is a run from `y` and ends in `z`. */
  ghost predicate Run(cat: Catalog, y: Sys, steps: seq<Step>, z: Sys)
    decreases |steps|
  {
    if steps == [] then z == y
    else Enabled(cat, y, steps[0]) && Run(cat, Apply(cat, y, steps[0]), steps[1..], z)
  }

  ghost predicate Reachable(cat: Catalog, impls: set<Name>, z: Sys) {
    exists steps :: Run(cat, Init(impls), steps, z)
  }

  lemma RunCons(cat: Catalog, y: Sys, step: Step, rest: seq<Step>, z: Sys)
    requires Enabled(cat, y, step) && Run(cat, Apply(cat, y, step), rest, z)
    ensures Run(cat, y, [step] + rest, z)
  {
    assert ([step] + rest)[1..] == rest;
  }

  lemma {:induction false} RunJoin(cat: Catalog, y: Sys, a: seq<Step>, m: Sys, b: seq<Step>, z: Sys)
    requires Run(cat, y, a, m) && Run(cat, m, b, z)
    ensures Run(cat, y, a + b, z)
    decreases |a|
  {
    hide Apply, Enabled;
    if a == [] {
      assert a + b == b;
    } else {
      RunJoin(cat, Apply(cat, y, a[0]), a[1..], m, b, z);
      assert (a + b)[1..] == a[1..] + b;
    }
  }

  lemma {:induction false} RunExtends(cat: Catalog, y: Sys, steps: seq<Step>, z: Sys, step: Step)
    requires Run(cat, y, steps, z) && Enabled(cat, z, step)
    ensures Run(cat, y, steps + [step], Apply(cat, z, step))
    decreases |steps|
  {
    if steps == [] {
      assert [step][1..] == [];
      assert steps + [step] == [step];
    } else {
      RunExtends(cat, Apply(cat, y, steps[0]), steps[1..], z, step);
      assert (steps + [step])[1..] == steps[1..] + [step];
    }
  }

  lemma ReachableStep(cat: Catalog, impls: set<Name>, y: Sys, step: Step)
    requires Reachable(cat, impls, y) && Enabled(cat, y, step)
    ensures Reachable(cat, impls, Apply(cat, y, step))
  {
    var steps :| Run(cat, Init(impls), steps, y);
    RunExtends(cat, Init(impls), steps, y, step);
  }
}
