// The server's side of a connection as the object it is: ServerClientState and its objects,
// updated in place.  Each method's contract is the value function of ServerModel it carries
// out (hyprwire/src/server/server_client.rs, server_object.rs, server_socket.rs:103-150).
module ServerEndpoint {
  import opened Types
  import opened ClientModel
  import opened ServerModel
  import Adverts
  import opened System
  import opened DispatchRuns
  import opened DispatchEffects
  import opened Invariant

  class ServerClientState {
    const cat: Catalog
    var objs: seq<SObj>
    var objects: seq<nat>
    var maxId: nat
    var impls: seq<Advert>
    var version: nat
    var firstPollDone: bool
    var scheduled: nat
    var error: bool
    /** The object whose destructor is in its handler (0: none). */
    var finishing: nat
    /** Everything written to the socket. */
    var stream: seq<SMsg>
    ghost var acked: nat
    ghost var aborted: bool
    ghost var gone: bool
    ghost var phase: bool
    /** Ids of the objects that received a destructor, in order. */
    ghost var delivered: seq<nat>

    ghost function View(): Server
      reads this
    {
      Server(objs, objects, maxId, impls, version, firstPollDone, scheduled, acked,
             error, aborted, gone, phase, finishing, delivered)
    }

    twostate predicate Did(r: SReply)
      reads this
    {
      View() == r.s && stream == old(stream) + r.out
    }

    constructor (cat: Catalog)
      ensures this.cat == cat && View() == Start && stream == []
    {
      this.cat := cat;
      objs, objects, maxId, impls := [], [], 1, [];
      version, firstPollDone, scheduled, error := 0, false, 0, false;
      stream := [];
      finishing := 0;
      acked, aborted, gone, phase, delivered := 0, false, false, false, [];
    }

    // ---- objects -----------------------------------------------------------------------------------

    method ObjectForId(x: nat) returns (r: Option<nat>)
      ensures r == First(objects, ServerIdIs(objs, x))
    {
      for k := 0 to |objects|
        invariant First(objects, ServerIdIs(objs, x)) == First(objects[k..], ServerIdIs(objs, x))
      {
        assert objects[k..][1..] == objects[k + 1..];
        if objects[k] < |objs| && objs[objects[k]].id == x { return Some(objects[k]); }
      }
      return None;
    }

    /** The nested loops of `create_object` over implementations and their objects. */
    method PickInterface(proto: Name, name: Name) returns (r: Option<Iface>)
      ensures r == PickIface(cat, impls, proto, name) && Picked(cat, impls, proto, name, r)
    {
      hide Picked;
      PickIs(cat, impls, proto, name);
      for k := 0 to |impls|
        invariant FindAdvert(impls, proto) == FindAdvert(impls[k..], proto)
      {
        assert impls[k..][1..] == impls[k + 1..];
        if impls[k].name == proto {
          if proto !in cat { return None; }
          r := FirstNamed(cat[proto], name);
          return;
        }
      }
      return None;
    }

    static method FirstNamed(ifaces: seq<Iface>, name: Name) returns (r: Option<Iface>)
      ensures r == if name != [] then FindIface(ifaces, name) else if ifaces == [] then None else Some(ifaces[0])
    {
      for k := 0 to |ifaces|
        invariant FindIface(ifaces, name) == FindIface(ifaces[k..], name) && (k > 0 ==> name != [])
      {
        assert ifaces[k..][1..] == ifaces[k + 1..];
        if name == [] || ifaces[k].name == name { return Some(ifaces[k]); }
      }
      return None;
    }

    /** `create_object`: take an id, answer, register.  `cause` and `at` are history. */
    method CreateObject(proto: Name, name: Name, version: nat, n: nat, cause: nat, at: nat)
      modifies this`objs, this`objects, this`maxId, this`stream
      ensures var made := [NewServerObject(cat, old(View()), proto, name, version, n, cause, at)];
        Did(SReply(AddServerObject(old(View()), made), Answers(made)))
      ensures |objs| == |old(objs)| + 1 && objs[..|old(objs)|] == old(objs) && objects == old(objects) + [|old(objs)|]
      ensures var o := objs[|old(objs)|];
        && o == SObj(n, old(maxId), version, proto, o.iface, false, cause, at) && Picked(cat, impls, proto, name, o.iface)
        && maxId == old(maxId) + 1 && stream == old(stream) + [NewObject(n, o.id)]
    {
      hide Picked, PickIface;
      var iface := PickInterface(proto, name);
      var id := maxId;
      maxId := maxId + 1;
      stream := stream + [NewObject(n, id)];
      objects := objects + [|objs|];
      objs := objs + [SObj(n, id, version, proto, iface, false, cause, at)];
    }

    /** `destroy_object`. */
    method DestroyObject(x: nat)
      modifies this`objects
      ensures objects == Retain(old(objects), ServerIdIs(objs, x))
    {
      objects := Others(objs, objects, x);
    }

    static method Others(objs: seq<SObj>, table: seq<nat>, x: nat) returns (kept: seq<nat>)
      ensures kept == Retain(table, ServerIdIs(objs, x))
    {
      kept := [];
      for k := 0 to |table|
        invariant kept + Retain(table[k..], ServerIdIs(objs, x)) == Retain(table, ServerIdIs(objs, x))
      {
        assert table[k..][0] == table[k] && table[k..][1..] == table[k + 1..];
        RetainNext(kept, table[k..], ServerIdIs(objs, x));
        if !(table[k] < |objs| && objs[table[k]].id == x) { kept := kept + [table[k]]; }
      }
    }

    // ---- messages from the client ----------------------------------------------------------------------

    /** Dispatch to object `i`: create the returned object, and hand a destructor over. */
    method DispatchTo(i: nat, m: nat, ret: nat, cause: nat, at: nat)
      requires i < |objs|
      modifies this
      ensures Did(ServerDispatch(cat, old(View()), i, m, ret, cause, at))
    {
      var o := objs[i];
      if o.iface.None? || m >= |o.iface.value.c2s| { return; }
      var def := o.iface.value.c2s[m];
      if def.creates != [] && !o.destroyed {
        CreateObject(o.proto, def.creates, o.version, ret, cause, at);
      }
      if def.destructor {
        finishing := o.id;
        delivered := delivered + if def.creates == [] || !o.destroyed then [o.id] else [];
      }
    }

    /** `on_generic` up to the end of the handler's prologue: look the object up and dispatch
        to it. */
    method OnGeneric(x: nat, m: nat, ret: nat, cause: nat, at: nat)
      modifies this
      ensures Did(ServerOnGeneric(cat, old(View()), x, m, ret, cause, at)) && old(stream) <= stream
      ensures IsForNone(old(View()), x) ==>
        View() == old(View()).(error := true) && stream == old(stream) + [FatalProtocolError(x)]
      ensures forall i: nat :: IsFor(old(View()), i, x) ==>
        Dispatched(cat, old(View()), i, m, ret, cause, at, View(), stream[|old(stream)|..])
    {
      hide Dispatched, IsFor, IsForNone, ServerDispatch;
      GenericSays(cat, View(), x, m, ret, cause, at);
      var i := ObjectForId(x);
      if i.None? {
        stream := stream + [FatalProtocolError(x)];
        error := true;
        return;
      }
      if i.value < |objs| { DispatchTo(i.value, m, ret, cause, at); }
    }

    /** The end of `on_generic` for a destructor. */
    method FinishDestructor()
      modifies this
      ensures View() == Finish(old(View())) && stream == old(stream) && finishing == 0
      ensures |objs| == |old(objs)| && forall i :: 0 <= i < |objs| ==>
        objs[i] == if old(objs)[i].id == old(finishing) then old(objs)[i].(destroyed := true) else old(objs)[i]
      ensures forall i :: i in objects <==> i in old(objects) && !(i < |old(objs)| && old(objs)[i].id == old(finishing))
    {
      hide MarkAll, ServerIdIs, Retain, Finish;
      MarkKeepsIds(objs, finishing);
      FinishIs(View());
      objs := MarkAll(objs, ServerIdIs(objs, finishing));
      DestroyObject(finishing);
      finishing := 0;
    }

    /** `dispatch_first_poll`, without the peer credentials. */
    method DispatchFirstPoll()
      modifies this`firstPollDone
      ensures firstPollDone
    {
      if firstPollDone { return; }
      firstPollDone := true;
    }

    /** The specs collected for a HandshakeAck. */
    method ProtocolNames() returns (names: seq<Bytes>)
      ensures names == Adverts.FormatAll(impls)
    {
      names := [];
      for k := 0 to |impls|
        invariant names + Adverts.FormatAll(impls[k..]) == Adverts.FormatAll(impls)
      {
        assert impls[k..][0] == impls[k] && impls[k..][1..] == impls[k + 1..];
        names := names + [Adverts.Format(impls[k])];
      }
    }

    /** A message the parser took. */
    method Take(msg: CMsg, cause: nat, at: nat)
      modifies this
      ensures Did(ServerTake(cat, old(View()), msg, cause, at))
      ensures msg.Sup? ==> firstPollDone && stream == old(stream) + [HandshakeBegin([PROTOCOL_VERSION])]
      ensures msg.HandshakeAck? ==> msg == HandshakeAck(version)
      ensures msg.HandshakeAck? ==> stream == old(stream) + [HandshakeProtocols(Adverts.FormatAll(impls))]
      ensures msg.BindProtocol? ==> |objs| == |old(objs)| + 1 && stream == old(stream) + [NewObject(msg.seqNo, old(maxId))]
      ensures msg.BindProtocol? ==> var o := objs[|old(objs)|];
        o.version == msg.bindVersion && Picked(cat, impls, msg.proto, [], o.iface)
      ensures msg.RoundtripRequest? ==> scheduled == msg.token
    {
      hide ServerOnGeneric, PickIface, Adverts.FormatAll, NewServerObject, Dispatched, IsFor, IsForNone;
      match msg
      case Sup =>
        DispatchFirstPoll();
        stream := stream + [HandshakeBegin([PROTOCOL_VERSION])];
      case HandshakeAck(v) =>
        version := v;
        var names := ProtocolNames();
        stream := stream + [HandshakeProtocols(names)];
      case BindProtocol(p, n, v) => CreateObject(p, [], v, n, cause, at);
      case Request(x, m, ret, _, _) => OnGeneric(x, m, ret, cause, at);
      case RoundtripRequest(k) => scheduled := k;
    }

    /** One turn of the server's `handle_message` loop for the message at position `cause`;
        it ends the loop if the parser refuses the message. */
    method HandleMessage(msg: CMsg, cause: nat, at: nat)
      modifies this
      ensures Did(ServerHandle(cat, old(View()), msg, cause, at))
      ensures Unparsable(msg) ==> View() == old(View()).(phase := true, error := true, aborted := true) && stream == old(stream)
    {
      hide Unparsable, ServerTake;
      phase := true;
      if Unparsable(msg) {
        error := true;
        aborted := true;
      } else {
        Take(msg, cause, at);
      }
    }

    /** The end of `dispatch_client`. */
    method EndOfDispatch(failed: bool)
      requires failed == aborted
      modifies this
      ensures Did(EndDispatch(old(View()))) && !phase
      ensures failed ==> error && stream == old(stream) + [FatalProtocolError(0)] && scheduled == old(scheduled)
      ensures !failed ==>
        && scheduled == 0 && error == old(error) && objs == old(objs) && objects == old(objects)
        && stream == old(stream) + (if old(scheduled) > 0 then [RoundtripDone(old(scheduled))] else [])
    {
      phase := false;
      if failed {
        stream := stream + [FatalProtocolError(0)];
        error := true;
        return;
      }
      if scheduled > 0 {
        stream := stream + [RoundtripDone(scheduled)];
        acked := scheduled;
        scheduled := 0;
      }
    }

    /** One event or error; nothing for an object that does not exist. */
    method Utter(w: Speech)
      modifies this
      ensures Did(SpeakOne(old(View()), w))
    {
      if w.so >= |objs| { return; }
      match w
      case Say(o, m, args) => Call(o, m, args);
      case Complain(o) => Error(o);
    }

    /** What the application says while a message is handled or a destructor runs. */
    method Speak(script: seq<Speech>)
      modifies this
      ensures Did(SpeechPass(old(View()), script))
    {
      hide SpeakOne;
      ghost var whole := SpeechPass(View(), script);
      for k := 0 to |script|
        invariant var rest := SpeechPass(View(), script[k..]);
          rest.s == whole.s && stream + rest.out == old(stream) + whole.out
      {
        assert script[k..][0] == script[k] && script[k..][1..] == script[k + 1..];
        Utter(script[k]);
      }
    }

    /** One message; `failed` says that it could not be parsed. */
    method Turn(msg: CMsg, script: seq<Speech>, cause: nat) returns (failed: bool)
      requires !aborted
      modifies this
      ensures failed == aborted == Unparsable(msg) && Did(ServeTurn(cat, old(View()), msg, script, cause, |old(stream)|))
      ensures forall i: nat :: AsksEnd(old(View()), msg, i) ==> i < |objs| && objs[i].destroyed && i !in objects
    {
      hide ServerHandle, SpeechPass, Finish, AsksEnd;
      EndsTakeEffect(cat, View(), msg, script, cause, |stream|);
      TurnFailsIff(cat, View(), msg, script, cause, |stream|);
      failed := Unparsable(msg);
      HandleMessage(msg, cause, |stream|);
      if failed { return; }
      Speak(script);
      if finishing != 0 { FinishDestructor(); }
    }

    /** `handle_message` over a batch, up to the message it fails on. */
    method HandleBatch(batch: seq<CMsg>, scripts: seq<seq<Speech>>, cause: nat) returns (failed: bool, taken: nat)
      requires |scripts| == |batch| && !aborted
      modifies this
      ensures failed == aborted == (exists k :: 0 <= k < |batch| && Unparsable(batch[k]))
      ensures var p := ServeBatch(cat, old(View()), batch, scripts, cause, |old(stream)|);
        Did(SReply(p.s, p.out)) && taken == p.taken
      ensures taken <= |batch| && forall k :: 0 <= k < taken ==> !Unparsable(batch[k])
      ensures if failed then taken < |batch| && Unparsable(batch[taken]) else taken == |batch|
    {
      hide ServeTurn;
      ghost var whole := ServeBatch(cat, View(), batch, scripts, cause, |stream|);
      failed, taken := false, 0;
      while taken < |batch| && !failed
        invariant taken <= |batch| && failed == aborted
        invariant forall k :: 0 <= k < taken ==> !Unparsable(batch[k])
        invariant failed ==> taken < |batch| && Unparsable(batch[taken])
        invariant !failed ==>
          var rest := ServeBatch(cat, View(), batch[taken..], scripts[taken..], cause + taken, |stream|);
          rest.s == whole.s && taken + rest.taken == whole.taken && stream + rest.out == old(stream) + whole.out
        invariant failed ==> View() == whole.s && taken == whole.taken && stream == old(stream) + whole.out
        decreases !failed, |batch| - taken
      {
        assert batch[taken..][0] == batch[taken] && batch[taken..][1..] == batch[taken + 1..];
        assert scripts[taken..][0] == scripts[taken] && scripts[taken..][1..] == scripts[taken + 1..];
        failed := Turn(batch[taken], scripts[taken], cause + taken);
        if !failed { taken := taken + 1; }
      }
    }

    /** `dispatch_client` on the messages one read returned, the first at position `cause`.
        From every state of the composed system that has this server and these messages
        next, the system can run to the server and the stream this method leaves. */
    method DispatchClient(batch: seq<CMsg>, scripts: seq<seq<Speech>>, cause: nat) returns (taken: nat)
      requires |scripts| == |batch| && batch != [] && Serving(View())
      modifies this
      ensures var p := ServePass(cat, old(View()), batch, scripts, cause, |old(stream)|);
        Did(SReply(p.s, p.out)) && taken == p.taken
      ensures forall y: Sys :: HasServer(y, old(View()), old(stream)) && NextServed(y, batch) && y.cRead == cause ==>
                                 ServerReaches(cat, y, View(), stream, taken)
      ensures !phase && old(stream) <= stream
      ensures Breaks(batch) ==> error && EndsWith(stream[|old(stream)|..], FatalProtocolError(0))
      ensures !Breaks(batch) ==> scheduled == 0 && taken == |batch|
      ensures !Breaks(batch) ==> forall i: nat :: LastRequest(batch, i) ==>
        Acknowledges(stream[|old(stream)|..], batch[i].token)
      ensures !Breaks(batch) && (forall i :: 0 <= i < |batch| ==> !batch[i].RoundtripRequest?) ==>
        Acknowledges(stream[|old(stream)|..], old(scheduled))
    {
      hide ServeBatch, EndDispatch, NextServed, ServerReaches, Breaks, EndsWith, LastRequest, Due, Acknowledges;
      DispatchEnds(cat, View(), batch, scripts, cause, |stream|);
      DueIsLast(scheduled, batch);
      BreaksIff(batch);
      ghost var s0 := View();
      var failed;
      failed, taken := HandleBatch(batch, scripts, cause);
      EndOfDispatch(failed);
      ghost var p := ServePass(cat, s0, batch, scripts, cause, |old(stream)|);
      assert View() == p.s && stream == old(stream) + p.out;
      forall y: Sys | HasServer(y, s0, old(stream)) && NextServed(y, batch) && y.cRead == cause
        ensures ServerReaches(cat, y, View(), stream, taken)
      {
        ServeReaches(cat, y, batch, scripts);
      }
    }

    // ---- the application's side ----------------------------------------------------------------------------

    /** `ServerObject::call`: send an event. */
    method Call(o: nat, m: nat, args: seq<CallArg>)
      requires o < |objs|
      modifies this
      ensures Did(SendEvent(old(View()), o, m, args))
      ensures old(objs)[o].destroyed ==> View() == old(View()) && stream == old(stream)
      ensures !old(objs)[o].destroyed && Sayable(old(objs)[o], m) ==>
        && stream == old(stream) + [Event(old(objs)[o].id, m, args)]
        && View() == old(View()).(objs := old(objs)[o := old(objs)[o].(destroyed := old(objs)[o].iface.value.s2c[m].destructor)])
      ensures !old(objs)[o].destroyed && !Sayable(old(objs)[o], m) ==>
        && stream == old(stream) + [FatalProtocolError(old(objs)[o].id)]
        && View() == old(View()).(error := true)
    {
      var obj := objs[o];
      if obj.destroyed { return; }
      if !CanSend(obj, m) {
        Error(o);
        return;
      }
      if obj.iface.value.s2c[m].destructor { objs := objs[o := obj.(destroyed := true)]; }
      stream := stream + [Event(obj.id, m, args)];
      assert objs == old(objs)[o := obj.(destroyed := obj.iface.value.s2c[m].destructor)];
    }

    /** `Object::error`. */
    method Error(o: nat)
      requires o < |objs|
      modifies this`stream, this`error
      ensures Did(RaiseError(old(View()), o))
      ensures if old(objs)[o].destroyed then View() == old(View()) && stream == old(stream)
              else View() == old(View()).(error := true) && stream == old(stream) + [FatalProtocolError(old(objs)[o].id)]
    {
      if objs[o].destroyed { return; }
      stream := stream + [FatalProtocolError(objs[o].id)];
      error := true;
    }

    // ---- disconnection -----------------------------------------------------------------------------------------

    /** The first parameterless destructor among the methods, if there is one. */
    static method FindDestructor(methods: seq<Method>) returns (found: bool)
      ensures found == HasPlainDestructor(methods)
    {
      for k := 0 to |methods|
        invariant forall j :: 0 <= j < k ==> !ParameterlessDestructor(methods[j])
      {
        if ParameterlessDestructor(methods[k]) { return true; }
      }
      return false;
    }

    /** `destroy_for_disconnect` of one object: its first parameterless destructor, once; its
        handler says `script` before the object counts as destroyed. */
    method DestroyForDisconnect(o: nat, script: seq<Speech>)
      requires o < |objs|
      modifies this
      ensures Did(DestroyTurn(old(View()), o, script))
      ensures var obj := old(objs)[o];
        if !obj.destroyed && obj.iface.Some? && exists k: nat :: PlainEnd(obj.iface.value.c2s, k) then
          && delivered == old(delivered) + [obj.id] && |objs| == |old(objs)| && objs[o].destroyed
          && stream == old(stream) + SpeechPass(old(View()).(dlog := old(delivered) + [obj.id]), script).out
        else View() == old(View()) && stream == old(stream)
    {
      hide PlainEnd;
      PlainEndIff(objs[o]);
      if objs[o].destroyed || objs[o].iface.None? { return; }
      var found := FindDestructor(objs[o].iface.value.c2s);
      if !found { return; }
      delivered := delivered + [objs[o].id];
      SpeechOnlySpeaks(View(), script);
      Speak(script);
      objs := objs[o := objs[o].(destroyed := true)];
    }

    /** `destroy_objects_for_disconnect`: newest first over a copy of the table, whatever the
        handlers do to the objects meanwhile; then the table is cleared. */
    method DestroyObjectsForDisconnect(scripts: seq<seq<Speech>>)
      requires |scripts| == |objects|
      modifies this
      ensures var r := DestroyFrom(old(View()), old(objects), scripts, |old(objects)|);
        Did(SReply(r.s.(table := []), r.out)) && objects == []
    {
      hide DestroyTurn;
      var table := objects;
      ghost var whole := DestroyFrom(View(), table, scripts, |table|);
      var n: nat := |table|;
      while n > 0
        invariant n <= |table|
        invariant var rest := DestroyFrom(View(), table, scripts, n);
          rest.s == whole.s && stream + rest.out == old(stream) + whole.out
      {
        n := n - 1;
        if table[n] < |objs| {
          DestroyForDisconnect(table[n], scripts[n]);
        } else {
          NobodyThere(View(), table[n], scripts[n]);
        }
      }
      objects := [];
    }
  }

  lemma FinishIs(s: Server)
    ensures var ids := ServerIdIs(s.objs, s.finishing);
      Finish(s) == s.(objs := MarkAll(s.objs, ids), table := Retain(s.table, ids), finishing := 0)
    ensures var t := Finish(s);
      && |t.objs| == |s.objs|
      && (forall i :: 0 <= i < |s.objs| ==>
            t.objs[i] == if s.objs[i].id == s.finishing then s.objs[i].(destroyed := true) else s.objs[i])
      && forall i :: i in t.table <==> i in s.table && !(i < |s.objs| && s.objs[i].id == s.finishing)
  {
  }

  /** Method `k` is a destructor that takes and returns nothing. */
  ghost predicate PlainEnd(ms: seq<Method>, k: nat) {
    k < |ms| && ms[k].destructor && ms[k].params == [] && ms[k].creates == []
  }

  lemma PlainEndIff(o: SObj)
    ensures o.iface.Some? ==> (HasPlainDestructor(o.iface.value.c2s) <==> exists k: nat :: PlainEnd(o.iface.value.c2s, k))
  {
    if o.iface.Some? && HasPlainDestructor(o.iface.value.c2s) {
      var k: nat :| k < |o.iface.value.c2s| && ParameterlessDestructor(o.iface.value.c2s[k]);
      assert PlainEnd(o.iface.value.c2s, k);
    }
  }

  lemma BreaksIff(batch: seq<CMsg>)
    ensures Breaks(batch) <==> exists k :: 0 <= k < |batch| && Unparsable(batch[k])
  {
  }

  lemma EndsTakeEffect(cat: Catalog, s: Server, msg: CMsg, script: seq<Speech>, cause: nat, at: nat)
    ensures forall i: nat :: AsksEnd(s, msg, i) ==>
      var t := ServeTurn(cat, s, msg, script, cause, at).s; i < |t.objs| && t.objs[i].destroyed && i !in t.table
  {
    forall i: nat | AsksEnd(s, msg, i)
      ensures var t := ServeTurn(cat, s, msg, script, cause, at).s; i < |t.objs| && t.objs[i].destroyed && i !in t.table
    {
      TurnDestroys(cat, s, msg, i, script, cause, at);
    }
  }

  lemma NobodyThere(s: Server, i: nat, script: seq<Speech>)
    requires i >= |s.objs|
    ensures DestroyTurn(s, i, script) == SReply(s, [])
  {
  }

  lemma MarkKeepsIds(objs: seq<SObj>, x: nat)
    ensures ServerIdIs(MarkAll(objs, ServerIdIs(objs, x)), x) == ServerIdIs(objs, x)
  {
  }
}
