// The client endpoint as the object it is: ClientSocket and its event queue, updated in
// place.  Each method's contract is the value function of ClientModel or Passes it carries
// out (hyprwire/src/client/client_socket.rs, event_queue.rs, client_object.rs,
// hyprwire/src/implementation/wire_object.rs).
module ClientEndpoint {
  import opened Types
  import opened ClientModel
  import Adverts
  import opened Passes
  import opened DispatchRuns
  import opened DispatchEffects
  import opened System

  /** Why a bind sends nothing. */
  datatype BindError = ProtocolNotFound | VersionOutOfRange(requested: nat, max: nat) | NoSpec

  class ClientSocket {
    const cat: Catalog
    const impls: set<Name>
    var objs: seq<CObj>
    var objects: seq<nat>
    var seqNo: nat
    var queue: seq<Deferred>
    var serverSpecs: seq<Advert>
    var handshakeDone: bool
    var error: bool
    var lastSent: nat
    var lastAckd: nat
    /** Everything written to the socket. */
    var stream: seq<CMsg>
    /** Calls made so far; only an annotation of the requests. */
    var calls: nat
    ghost var phase: Phase

    ghost function View(): Client
      reads this
    {
      Client(objs, objects, seqNo, queue, [], phase, impls, serverSpecs, handshakeDone, error, lastSent, lastAckd)
    }

    /** What a method did: the next value and what it wrote. */
    twostate predicate Did(r: Reply)
      reads this
    {
      View() == r.c && stream == old(stream) + r.out
    }

    constructor (cat: Catalog, impls: set<Name>)
      ensures this.cat == cat && View() == Fresh(impls) && stream == [Sup] && calls == 0
    {
      this.cat, this.impls := cat, impls;
      objs, objects, seqNo, queue, serverSpecs := [], [], 0, [], [];
      handshakeDone, error, lastSent, lastAckd := false, false, 0, 0;
      stream, calls := [Sup], 0;
      phase := Idle;
    }

    // ---- lookups -------------------------------------------------------------------------------

    /** `iter().find` on the sequence number. */
    method ObjectForSeq(n: nat) returns (r: Option<nat>)
      ensures r == First(objects, SeqIs(objs, n))
    {
      for k := 0 to |objects|
        invariant First(objects, SeqIs(objs, n)) == First(objects[k..], SeqIs(objs, n))
      {
        assert objects[k..][1..] == objects[k + 1..];
        if objects[k] < |objs| && objs[objects[k]].seqNo == n { return Some(objects[k]); }
      }
      return None;
    }

    method ObjectForId(x: nat) returns (r: Option<nat>)
      ensures r == First(objects, IdIs(objs, x))
    {
      for k := 0 to |objects|
        invariant First(objects, IdIs(objs, x)) == First(objects[k..], IdIs(objs, x))
      {
        assert objects[k..][1..] == objects[k + 1..];
        if objects[k] < |objs| && objs[objects[k]].id == x { return Some(objects[k]); }
      }
      return None;
    }

    method GetSpec(name: Name) returns (r: Option<Advert>)
      ensures r == FindAdvert(serverSpecs, name)
      ensures r.Some? ==> exists k: nat :: FirstOf(serverSpecs, name, k) && r == Some(serverSpecs[k])
    {
      for k := 0 to |serverSpecs|
        invariant forall j :: 0 <= j < k ==> serverSpecs[j].name != name
        invariant FindAdvert(serverSpecs, name) == FindAdvert(serverSpecs[k..], name)
      {
        assert serverSpecs[k..][1..] == serverSpecs[k + 1..];
        if serverSpecs[k].name == name {
          assert FirstOf(serverSpecs, name, k);
          return Some(serverSpecs[k]);
        }
      }
      return None;
    }

    // ---- messages from the server --------------------------------------------------------------

    method ServerSpecs(ps: seq<Bytes>)
      modifies this`serverSpecs
      ensures serverSpecs == old(serverSpecs) + Adverts.ParseAll(ps)
    {
      for k := 0 to |ps|
        invariant serverSpecs + Adverts.ParseAll(ps[k..]) == old(serverSpecs) + Adverts.ParseAll(ps)
      {
        assert ps[k..][1..] == ps[k + 1..];
        var spec := Adverts.Parse(ps[k]);
        if spec.Some? { serverSpecs := serverSpecs + [spec.value]; }
      }
    }

    method OnSeq(n: nat, id: nat)
      modifies this`objs
      ensures View() == ClientModel.OnSeq(old(View()), n, id)
    {
      var o := ObjectForSeq(n);
      if o.Some? && o.value < |objs| { objs := objs[o.value := objs[o.value].(id := id)]; }
    }

    /** `retain` of everything with another id. */
    method DestroyObject(x: nat)
      modifies this`objects
      ensures View() == old(View()).(table := Retain(old(objects), IdIs(objs, x)))
    {
      objects := Others(objs, objects, x);
    }

    static method Others(objs: seq<CObj>, table: seq<nat>, x: nat) returns (kept: seq<nat>)
      ensures kept == Retain(table, IdIs(objs, x))
    {
      kept := [];
      for k := 0 to |table|
        invariant kept + Retain(table[k..], IdIs(objs, x)) == Retain(table, IdIs(objs, x))
      {
        assert table[k..][0] == table[k] && table[k..][1..] == table[k + 1..];
        RetainNext(kept, table[k..], IdIs(objs, x));
        if !(table[k] < |objs| && objs[table[k]].id == x) { kept := kept + [table[k]]; }
      }
    }

    /** The bookkeeping of `on_generic`; the handler it calls makes its own `Call`s. */
    method OnGeneric(x: nat, m: nat)
      modifies this`objs, this`objects, this`error
      ensures View() == ClientModel.OnGeneric(old(View()), x, m)
      ensures (forall i :: i in old(objects) && i < |old(objs)| ==> old(objs)[i].id != x) ==>
        View() == old(View()).(error := true)
      ensures forall i: nat :: TheOne(old(View()), i, x) ==>
        if m < |old(objs)[i].iface.s2c| && old(objs)[i].iface.s2c[m].destructor then
          objs == old(objs)[i := old(objs)[i].(destroyed := true)] && (x != 0 ==> i !in objects) && error == old(error)
        else View() == old(View())
    {
      OneFound(View(), x);
      var o := ObjectForId(x);
      if o.None? {
        error := true;
      } else if o.value < |objs| && m < |objs[o.value].iface.s2c| && objs[o.value].iface.s2c[m].destructor {
        objs := objs[o.value := objs[o.value].(destroyed := true)];
        if x != 0 { DestroyObject(x); }
      }
    }

    /** `disconnect_on_error` after a failed loop. */
    method DisconnectOnError()
      modifies this`error, this`phase
      ensures error && phase.Failed?
    {
      error := true;
      phase := Failed;
    }

    /** One turn of the client's `handle_message` loop; on a message it fails on, the end of
        the dispatch. */
    method HandleMessage(msg: SMsg)
      modifies this
      ensures calls == old(calls) && Did(Handle(old(View()), msg))
      ensures Unspeakable(msg) ==> View() == old(View()).(error := true, phase := Failed)
      ensures !Unspeakable(msg) ==> phase.Handling? && (msg.FatalProtocolError? ==> error)
      ensures !Unspeakable(msg) && msg.HandshakeProtocols? ==>
        handshakeDone && serverSpecs == old(serverSpecs) + Adverts.ParseAll(msg.protocols)
      ensures lastAckd == if msg.RoundtripDone? then msg.done else old(lastAckd)
      ensures stream == old(stream) +
        if msg.HandshakeBegin? && !Unspeakable(msg) then [HandshakeAck(PROTOCOL_VERSION)] else []
    {
      if Unspeakable(msg) {
        DisconnectOnError();
        return;
      }
      phase := Handling;
      match msg
      case HandshakeBegin(_) => stream := stream + [HandshakeAck(PROTOCOL_VERSION)];
      case HandshakeProtocols(ps) =>
        ServerSpecs(ps);
        handshakeDone := true;
      case NewObject(n, id) => OnSeq(n, id);
      case Event(x, m, _) => OnGeneric(x, m);
      case FatalProtocolError(_) => error := true;
      case RoundtripDone(k) => lastAckd := k;
    }

    // ---- the application's side -------------------------------------------------------------------

    /** `Client::bind` and `bind_protocol`. */
    method Bind(proto: Name, version: nat) returns (refusal: Option<BindError>)
      modifies this
      ensures calls == old(calls) && Did(ClientModel.Bind(cat, old(View()), proto, version))
      ensures refusal == None <==> |stream| > |old(stream)|
      ensures refusal == Some(ProtocolNotFound) <==> forall a :: a in old(serverSpecs) ==> a.name != proto
      ensures var a := FindAdvert(old(serverSpecs), proto);
        refusal.Some? && refusal.value.VersionOutOfRange? <==> a.Some? && version > a.value.version
      ensures var a := FindAdvert(old(serverSpecs), proto);
        refusal.Some? && refusal.value.VersionOutOfRange? ==> refusal.value == VersionOutOfRange(version, a.value.version)
      ensures refusal.Some? ==> View() == old(View()) && stream == old(stream)
      ensures refusal == None ==>
        && proto in cat && cat[proto] != [] && seqNo == old(seqNo) + 1
        && objs == old(objs) + [CObj(seqNo, 0, version, proto, cat[proto][0], true, false, true)]
        && objects == old(objects) + [|old(objs)|] && stream == old(stream) + [BindProtocol(proto, seqNo, version)]
    {
      var spec := GetSpec(proto);
      if spec.None? { return Some(ProtocolNotFound); }
      if version > spec.value.version { return Some(VersionOutOfRange(version, spec.value.version)); }
      if proto !in cat || cat[proto] == [] { return Some(NoSpec); }
      refusal := None;
      seqNo := seqNo + 1;
      objects := objects + [|objs|];
      objs := objs + [CObj(seqNo, 0, version, proto, cat[proto][0], true, false, true)];
      stream := stream + [BindProtocol(proto, seqNo, version)];
    }

    /** `make_object`: nothing is made unless the protocol is registered and has the interface. */
    method MakeObject(proto: Name, name: Name, n: nat) returns (done: bool)
      modifies this`objs, this`objects
      ensures var made := ClientModel.MakeObject(cat, impls, proto, name, n);
        && done == (made != []) && objs == old(objs) + made
        && objects == old(objects) + if made == [] then [] else [|old(objs)|]
      ensures name != [] ==> (done <==> Makes(cat, impls, proto, name))
      ensures done ==> |objs| == |old(objs)| + 1 && var o := objs[|old(objs)|];
        o.iface in cat[proto] && o.iface.name == name && o == CObj(n, 0, 0, proto, o.iface, true, false, false)
    {
      done := false;
      if proto !in impls || proto !in cat { return; }
      var ifaces := cat[proto];
      for k := 0 to |ifaces|
        invariant !done && objs == old(objs) && objects == old(objects)
        invariant FindIface(ifaces, name) == FindIface(ifaces[k..], name)
      {
        assert ifaces[k..][1..] == ifaces[k + 1..];
        if ifaces[k].name == name {
          objects := objects + [|objs|];
          objs := objs + [CObj(n, 0, 0, proto, ifaces[k], true, false, false)];
          return true;
        }
      }
    }

    /** Park the request, or send it. */
    method Submit(obj: CObj, m: nat, ret: nat, args: seq<CallArg>)
      modifies this`queue, this`stream, this`calls
      ensures calls == old(calls) + 1
      ensures queue == old(queue) + if obj.id == 0 then [Deferred(obj.seqNo, m, ret, args, old(calls))] else []
      ensures stream == old(stream) + if obj.id == 0 then [] else [Request(obj.id, m, ret, args, old(calls))]
    {
      if obj.id == 0 {
        queue := queue + [Deferred(obj.seqNo, m, ret, args, calls)];
      } else {
        stream := stream + [Request(obj.id, m, ret, args, calls)];
      }
      calls := calls + 1;
    }

    /** The sequence number of the returned object, if the method has one. */
    method AllocateSeq(def: Method) returns (ret: nat)
      modifies this`seqNo
      ensures ret == (if def.creates == [] then 0 else old(seqNo) + 1)
      ensures seqNo == if ret == 0 then old(seqNo) else ret
    {
      ret := 0;
      if def.creates != [] {
        seqNo := seqNo + 1;
        ret := seqNo;
      }
    }

    method MarkDestroyed(o: nat, def: Method)
      requires o < |objs|
      modifies this`objs
      ensures objs == old(objs)[o := old(objs[o]).(destroyed := old(objs[o]).destroyed || def.destructor)]
    {
      if def.destructor { objs := objs[o := objs[o].(destroyed := true)]; }
    }

    /** `call` behind its checks: allocate, send or park, and make the returned object. */
    method Issue(o: nat, m: nat, args: seq<CallArg>) returns (ret: Option<nat>)
      requires o < |objs| && Accepts(objs[o], m)
      modifies this
      ensures calls == old(calls) + 1
      ensures ret == if old(objs)[o].iface.c2s[m].creates == [] then Some(0)
                     else if |objs| == |old(objs)| then None else Some(old(seqNo) + 1)
      ensures Did(ClientModel.Call(cat, old(View()), o, m, args, old(calls)))
    {
      hide ClientModel.MakeObject, Makes;
      var obj := objs[o];
      var def := obj.iface.c2s[m];
      MarkDestroyed(o, def);
      var n := AllocateSeq(def);
      Submit(obj, m, n, args);
      ret := Some(n);
      if n != 0 {
        var done := MakeObject(obj.proto, def.creates, n);
        if !done { ret := None; }
      }
    }

    /** `WireObject::call` on object `o`.  `ret` is what the caller gets: the returned object's
        sequence number, 0 without one, or nothing when the object could not be made. */
    method Call(o: nat, m: nat, args: seq<CallArg>) returns (ok: bool, ret: Option<nat>)
      requires o < |objs|
      modifies this
      ensures ok <==> m < |old(objs)[o].iface.c2s| && old(objs)[o].iface.c2s[m].since <= old(objs)[o].version
      ensures ok == Accepts(old(objs)[o], m) && calls == old(calls) + if ok then 1 else 0
      ensures ret == if !ok || old(objs)[o].iface.c2s[m].creates == [] then Some(0)
                     else if |objs| == |old(objs)| then None else Some(old(seqNo) + 1)
      ensures Did(ClientModel.Call(cat, old(View()), o, m, args, old(calls)))
      ensures !ok ==> View() == old(View()) && stream == old(stream)
      ensures old(stream) <= stream
      ensures Called(cat, old(View()), o, m, args, old(calls), View(), stream[|old(stream)|..])
    {
      hide Called;
      CallSays(cat, View(), o, m, args, calls);
      ok, ret := Accepts(objs[o], m), Some(0);
      if ok { ret := Issue(o, m, args); }
    }

    method SendRoundtrip()
      modifies this`lastSent, this`stream
      ensures Did(Roundtrip(old(View())))
      ensures lastSent == old(lastSent) + 1 && stream == old(stream) + [RoundtripRequest(lastSent)]
    {
      lastSent := lastSent + 1;
      stream := stream + [RoundtripRequest(lastSent)];
    }

    // ---- the loops of a dispatch ---------------------------------------------------------------------

    /** The deferred flush: the queue is taken and walked once. */
    method FlushDeferred()
      modifies this
      ensures calls == old(calls) && Did(FlushPass(old(View())))
    {
      hide Remaining, Released, FlushPass, ClientModel.FlushOne;
      FlushPartition(View());
      var pending := queue;
      queue := [];
      for k := 0 to |pending|
        invariant View() == old(View()).(queue := queue) && calls == old(calls)
        invariant queue + Remaining(objs, objects, pending[k..]) == Remaining(objs, objects, pending)
        invariant stream + Released(objs, objects, pending[k..]) == old(stream) + Released(objs, objects, pending)
      {
        assert pending[k..][0] == pending[k] && pending[k..][1..] == pending[k + 1..];
        TurnJoins(queue, stream, objs, objects, pending[k..]);
        FlushTurn(pending[k]);
      }
      NothingLeft(objs, objects, pending[|pending|..]);
      phase := Idle;
    }

    /** Keep, patch and send, or drop one parked request. */
    method FlushTurn(d: Deferred)
      modifies this`queue, this`stream
      ensures queue == old(queue) + Remaining(objs, objects, [d])
      ensures stream == old(stream) + Released(objs, objects, [d])
    {
      assert [d][1..] == [] && Remaining(objs, objects, []) == [] && Released(objs, objects, []) == [];
      var o := ObjectForSeq(d.dep);
      if o.None? { return; }
      var id := if o.value < |objs| then objs[o.value].id else 0;
      if id == 0 {
        queue := queue + [d];
      } else {
        stream := stream + [Request(id, d.op, d.ret, d.args, d.call)];
      }
    }

    /** `Drop for ClientObject`: the first destructor the object's version has, if it takes
        and returns nothing. */
    method DropHandle(o: nat)
      requires o < |objs|
      modifies this
      ensures var p := Passes.DropHandle(cat, old(View()), o, old(calls)); Did(Reply(p.c, p.out)) && calls == p.calls
      ensures forall k: nat :: Farewell(old(objs)[o], k) ==>
        && View() == old(View()).(objs := old(objs)[o := old(objs)[o].(destroyed := true)])
        && stream == old(stream) + [Request(old(objs)[o].id, k, 0, [], old(calls))]
      ensures (forall k: nat :: !Farewell(old(objs)[o], k)) ==> View() == old(View()) && stream == old(stream)
    {
      DropSays(cat, View(), o, calls);
      var obj := objs[o];
      if obj.destroyed || obj.id == 0 { return; }
      var methods := obj.iface.c2s;
      var k := 0;
      while k < |methods| && !(methods[k].destructor && methods[k].since <= obj.version)
        invariant k <= |methods| && FirstDestructor(methods, obj.version, 0) == FirstDestructor(methods, obj.version, k)
      {
        k := k + 1;
      }
      if k == |methods| || methods[k].creates != [] || methods[k].params != [] { return; }
      var _, _ := Call(o, k, []);
    }

    /** `collect_orphaned_objects`. */
    method CollectOrphanedObjects()
      modifies this
      ensures var p := CollectPass(cat, old(View()), old(calls)); Did(Reply(p.c, p.out)) && calls == p.calls
      ensures objects == Retain(old(objects), Orphans(old(View()))) && SameButDestroyed(old(objs), objs)
      ensures forall i :: i in objects <==>
        i in old(objects) && !(i < |old(objs)| && old(objs)[i].id != 0 && !old(objs)[i].held)
      ensures old(stream) <= stream && Goodbyes(old(View()), stream[|old(stream)|..], old(calls))
    {
      hide CollectPass, Goodbyes, Orphans, SameButDestroyed;
      CollectExact(cat, View(), calls);
      OrphansAre(View());
      ghost var _ := CollectSays(cat, View(), calls);
      Sweep();
    }

    /** The loop over the table. */
    method Sweep()
      modifies this
      ensures var p := CollectPass(cat, old(View()), old(calls)); Did(Reply(p.c, p.out)) && calls == p.calls
    {
      hide Passes.DropHandle, Discard, Orphan;
      var todo := objects;
      ghost var whole := CollectPass(cat, View(), calls);
      for k := 0 to |todo|
        invariant var rest := CollectOver(cat, View(), todo[k..], calls);
          rest.c == whole.c && rest.calls == whole.calls && stream + rest.out == old(stream) + whole.out
      {
        assert todo[k..][0] == todo[k] && todo[k..][1..] == todo[k + 1..];
        CollectIfOrphan(todo[k]);
      }
    }

    /** Remove and drop one object if nobody holds it. */
    method CollectIfOrphan(o: nat)
      modifies this
      ensures var p := if Orphan(old(View()), o) then Passes.DropHandle(cat, Discard(old(View()), o), o, old(calls))
                       else Pass(old(View()), [], old(calls));
        Did(Reply(p.c, p.out)) && calls == p.calls
    {
      hide Farewell;
      if o < |objs| && o in objects && objs[o].id != 0 && !objs[o].held {
        objects := Retain(objects, {o});
        DropHandle(o);
      }
    }

    // ---- a whole dispatch -----------------------------------------------------------------------------

    /** The calls of one event handler. */
    method RunHandler(script: seq<Intent>)
      modifies this
      ensures var p := HandlerPass(cat, old(View()), script, old(calls)); Did(Reply(p.c, p.out)) && calls == p.calls
      ensures stream == old(stream) + Voices(old(objs), script, old(seqNo), old(calls))
    {
      hide Called, Voices;
      HandlerVoices(cat, View(), script, calls);
      ghost var whole := HandlerPass(cat, View(), script, calls);
      for k := 0 to |script|
        invariant var rest := HandlerPass(cat, View(), script[k..], calls);
          rest.c == whole.c && rest.calls == whole.calls && stream + rest.out == old(stream) + whole.out
      {
        assert script[k..][0] == script[k] && script[k..][1..] == script[k + 1..];
        var w := script[k];
        if w.o < |objs| && objs[w.o].held && objs[w.o].id != 0 {
          var _, _ := Call(w.o, w.op, w.args);
        }
      }
    }

    /** One message and the handler it runs. */
    method Turn(msg: SMsg, script: seq<Intent>)
      modifies this
      ensures var p := TurnPass(cat, old(View()), msg, script, old(calls)); Did(Reply(p.c, p.out)) && calls == p.calls
      ensures !Unspeakable(msg) && ForSomebody(old(View()), msg) ==>
        stream == old(stream) + Voices(old(objs), script, old(seqNo), old(calls))
    {
      TurnVoices(cat, View(), msg, script, calls);
      var delivered := false;
      if msg.Event? {
        var o := ObjectForId(msg.source);
        delivered := o.Some?;
      }
      HandleMessage(msg);
      if delivered && !Unspeakable(msg) { RunHandler(script); }
    }

    /** `handle_message` over a batch; false if it failed. */
    method HandleBatch(batch: seq<SMsg>, scripts: seq<seq<Intent>>) returns (ok: bool)
      requires |scripts| == |batch|
      modifies this
      ensures ok == !Fails(batch)
      ensures var p := BatchPass(cat, old(View()), batch, scripts, old(calls)); Did(Reply(p.c, p.out)) && calls == p.calls
    {
      hide TurnPass, View;
      ghost var whole := BatchPass(cat, View(), batch, scripts, calls);
      for k := 0 to |batch|
        invariant forall j :: 0 <= j < k ==> !Unspeakable(batch[j])
        invariant var rest := BatchPass(cat, View(), batch[k..], scripts[k..], calls);
          rest.c == whole.c && rest.calls == whole.calls && stream + rest.out == old(stream) + whole.out
      {
        assert batch[k..][0] == batch[k] && batch[k..][1..] == batch[k + 1..];
        assert scripts[k..][0] == scripts[k] && scripts[k..][1..] == scripts[k + 1..];
        Turn(batch[k], scripts[k]);
        if Unspeakable(batch[k]) { return false; }
      }
      return true;
    }

    /** The body of `dispatch_events_inner` on the messages one read returned. */
    method DispatchBody(batch: seq<SMsg>, scripts: seq<seq<Intent>>) returns (handled: bool)
      requires |scripts| == |batch| && batch != [] && !error
      modifies this
      ensures handled == !Fails(batch)
      ensures var p := DispatchPass(cat, old(View()), batch, scripts, old(calls)); Did(Reply(p.c, p.out)) && calls == p.calls
    {
      hide BatchPass, CollectPass, FlushPass, Fails, Goodbyes, Orphans, SameButDestroyed;
      CollectOrphanedObjects();
      handled := HandleBatch(batch, scripts);
      if handled {
        FlushDeferred();
        CollectOrphanedObjects();
      }
    }

    /** `dispatch_events_inner` on the messages one read returned.  From every state of the
        composed system that has this client and these messages next, the system can run to
        the client and the stream this method leaves; after success nothing that could be
        sent is parked and no orphan is left. */
    method DispatchEvents(batch: seq<SMsg>, scripts: seq<seq<Intent>>) returns (ok: bool)
      requires |scripts| == |batch| && batch != [] && (phase.Idle? || (phase.Failed? && error))
      modifies this
      ensures ok == (!old(error) && !Fails(batch) && !error)
      ensures var p := DispatchPass(cat, old(View()), batch, scripts, old(calls)); Did(Reply(p.c, p.out)) && calls == p.calls
      ensures !old(error) ==>
        forall y: Sys :: HasClient(y, old(View()), old(stream), old(calls)) && NextRead(y, batch) ==>
                           ClientReaches(cat, y, View(), stream, Taken(batch))
      ensures ok ==> phase.Idle? && Released(objs, objects, queue) == [] && Orphans(View()) == {}
      ensures old(error) ==> View() == old(View()) && stream == old(stream)
      ensures !old(error) ==> forall o :: o in Orphans(old(View())) ==> o !in objects
      ensures !old(error) ==> old(stream) <= stream && Opens(old(View()), stream[|old(stream)|..], old(calls))
      ensures !old(error) && batch[0].Event? && ForNobody(old(View()), batch[0].source) ==> error && !ok
    {
      hide BatchPass, CollectPass, EndPass, Fails, NextRead, ClientReaches, Released, Orphans, Taken, Opens, ForNobody;
      if error { return false; }
      OrphansGoFirst(cat, View(), batch, scripts, calls);
      ghost var c0 := View();
      ghost var calls0 := calls;
      var handled := DispatchBody(batch, scripts);
      if handled { DispatchSettles(cat, c0, batch, scripts, calls0); }
      forall y: Sys | HasClient(y, c0, old(stream), calls0) && NextRead(y, batch)
        ensures ClientReaches(cat, y, View(), stream, Taken(batch))
      {
        DispatchReaches(cat, y, batch, scripts);
      }
      ok := handled && !error;
    }

  }

  /** The advert at `k` has the name, and none before it. */
  ghost predicate FirstOf(specs: seq<Advert>, name: Name, k: nat) {
    k < |specs| && specs[k].name == name && forall j :: 0 <= j < k ==> specs[j].name != name
  }

  /** Object `i` is the one in the table with that id. */
  ghost predicate TheOne(c: Client, i: nat, x: nat) {
    && i in c.table && i < |c.objs| && c.objs[i].id == x
    && forall j :: j in c.table && j < |c.objs| && c.objs[j].id == x ==> j == i
  }

  lemma OrphansAre(c: Client)
    ensures forall i :: i in Retain(c.table, Orphans(c)) <==>
      i in c.table && !(i < |c.objs| && c.objs[i].id != 0 && !c.objs[i].held)
  {
  }

  lemma OneFound(c: Client, x: nat)
    ensures forall i: nat :: TheOne(c, i, x) ==> First(c.table, IdIs(c.objs, x)) == Some(i)
  {
    forall i: nat | TheOne(c, i, x) ensures First(c.table, IdIs(c.objs, x)) == Some(i) {
      assert i in IdIs(c.objs, x);
    }
  }

  lemma NothingLeft(objs: seq<CObj>, table: seq<nat>, ds: seq<Deferred>)
    requires ds == []
    ensures Remaining(objs, table, ds) == [] && Released(objs, table, ds) == []
  {
  }

  lemma TurnJoins(queue: seq<Deferred>, stream: seq<CMsg>, objs: seq<CObj>, table: seq<nat>, ds: seq<Deferred>)
    requires ds != []
    ensures queue + Remaining(objs, table, [ds[0]]) + Remaining(objs, table, ds[1..]) == queue + Remaining(objs, table, ds)
    ensures stream + Released(objs, table, [ds[0]]) + Released(objs, table, ds[1..]) == stream + Released(objs, table, ds)
  {
    SplitFirst(objs, table, ds);
  }
}
