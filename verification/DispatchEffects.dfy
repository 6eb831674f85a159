// What a dispatch leaves behind and puts on the wire, said without its passes: the client's
// (hyprwire/src/client/event_queue.rs:62-176) and the server's
// (hyprwire/src/server/server_socket.rs:103-150).
module DispatchEffects {
  import opened Types
  import opened ClientModel
  import opened ServerModel
  import opened System
  import opened Passes
  import opened DispatchRuns
  import opened Invariant
  import opened ServerRequests
  import opened Failures
  import Adverts

  // ---- what a client dispatch never undoes --------------------------------------------------

  /** Errors stay, and nothing old enters the table. */
  ghost predicate Forward(c: Client, d: Client) {
    && |c.objs| <= |d.objs| && (c.error ==> d.error)
    && forall i :: i in d.table ==> i in c.table || i >= |c.objs|
  }

  lemma CallForward(cat: Catalog, c: Client, o: nat, m: nat, args: seq<CallArg>, call: nat)
    requires o < |c.objs|
    ensures Forward(c, Call(cat, c, o, m, args, call).c)
  {
  }

  lemma {:induction false} HandlerForward(cat: Catalog, c: Client, script: seq<Intent>, calls: nat)
    ensures Forward(c, HandlerPass(cat, c, script, calls).c)
    decreases |script|
  {
    hide Call, Accepts;
    if script != [] {
      if Possible(c, script[0]) {
        var w := script[0];
        CallForward(cat, c, w.o, w.op, w.args, calls);
        HandlerForward(cat, Call(cat, c, w.o, w.op, w.args, calls).c, script[1..], calls + if Accepts(c.objs[w.o], w.op) then 1 else 0);
      } else {
        HandlerForward(cat, c, script[1..], calls);
      }
    }
  }

  lemma HandleForward(c: Client, msg: SMsg)
    ensures Forward(c, Handle(c, msg).c)
  {
  }

  lemma TurnForward(cat: Catalog, c: Client, msg: SMsg, script: seq<Intent>, calls: nat)
    ensures Forward(c, TurnPass(cat, c, msg, script, calls).c)
  {
    hide Handle, HandlerPass;
    HandleForward(c, msg);
    HandlerForward(cat, Handle(c, msg).c, script, calls);
  }

  lemma {:induction false} BatchForward(cat: Catalog, c: Client, batch: seq<SMsg>, scripts: seq<seq<Intent>>, calls: nat)
    requires |scripts| == |batch|
    ensures Forward(c, BatchPass(cat, c, batch, scripts, calls).c)
    decreases |batch|
  {
    hide TurnPass;
    if batch != [] {
      TurnForward(cat, c, batch[0], scripts[0], calls);
      var t := TurnPass(cat, c, batch[0], scripts[0], calls);
      if !Unspeakable(batch[0]) { BatchForward(cat, t.c, batch[1..], scripts[1..], t.calls); }
    }
  }

  lemma EndForward(cat: Catalog, c: Client, calls: nat)
    ensures Forward(c, EndPass(cat, c, calls).c)
  {
    hide FlushPass, CollectPass;
    FlushPartition(c);
    CollectExact(cat, FlushPass(c).c, calls);
  }

  /** Everything behind the first collection. */
  lemma RestForward(cat: Catalog, c: Client, batch: seq<SMsg>, scripts: seq<seq<Intent>>, calls: nat)
    requires |scripts| == |batch| && batch != [] && !c.error
    ensures var a := CollectPass(cat, c, calls); var p := DispatchPass(cat, c, batch, scripts, calls);
      Forward(BatchPass(cat, a.c, batch, scripts, a.calls).c, p.c) && Forward(a.c, p.c) && a.out <= p.out
  {
    hide BatchPass, CollectPass, EndPass;
    var a := CollectPass(cat, c, calls);
    var b := BatchPass(cat, a.c, batch, scripts, a.calls);
    BatchForward(cat, a.c, batch, scripts, a.calls);
    EndForward(cat, b.c, b.calls);
  }

  // ---- the collection at the start -----------------------------------------------------------

  /** Nothing but orphans has that id: the event would be for nobody the client keeps. */
  ghost predicate ForNobody(c: Client, x: nat) {
    forall i :: i in c.table && i < |c.objs| && c.objs[i].id == x ==> i in Orphans(c)
  }

  /** The messages `out` begin with the goodbyes of the client's orphans. */
  ghost predicate Opens(c: Client, out: seq<CMsg>, calls: nat) {
    exists n :: 0 <= n <= |out| && Goodbyes(c, out[..n], calls)
  }

  lemma NobodyFound(cat: Catalog, c: Client, x: nat, calls: nat)
    requires ForNobody(c, x)
    ensures var a := CollectPass(cat, c, calls).c; First(a.table, IdIs(a.objs, x)) == None
  {
    hide CollectPass;
    CollectExact(cat, c, calls);
    var a := CollectPass(cat, c, calls).c;
  }

  lemma StrangeTurn(cat: Catalog, c: Client, msg: SMsg, script: seq<Intent>, calls: nat)
    requires msg.Event? && First(c.table, IdIs(c.objs, msg.source)) == None
    ensures TurnPass(cat, c, msg, script, calls).c.error
  {
  }

  /** A dispatch begins with the orphans.  None of them is in the table afterwards; their
      goodbyes are on the wire before anything else; and an event for one of them, coming
      first, finds nobody and ends the connection. */
  lemma OrphansGoFirst(cat: Catalog, c: Client, batch: seq<SMsg>, scripts: seq<seq<Intent>>, calls: nat)
    requires |scripts| == |batch| && batch != [] && !c.error
    ensures var p := DispatchPass(cat, c, batch, scripts, calls);
      && (forall o :: o in Orphans(c) ==> o !in p.c.table)
      && Opens(c, p.out, calls)
      && (batch[0].Event? && ForNobody(c, batch[0].source) ==> p.c.error)
  {
    hide CollectPass, TurnPass, DispatchPass, EndPass, Goodbyes, ForNobody;
    var a := CollectPass(cat, c, calls);
    var p := DispatchPass(cat, c, batch, scripts, calls);
    RestForward(cat, c, batch, scripts, calls);
    CollectExact(cat, c, calls);
    var at := CollectSays(cat, c, calls);
    assert p.out[..|a.out|] == a.out;
    if batch[0].Event? && ForNobody(c, batch[0].source) {
      NobodyFound(cat, c, batch[0].source, calls);
      StrangeTurn(cat, a.c, batch[0], scripts[0], a.calls);
      var t := TurnPass(cat, a.c, batch[0], scripts[0], a.calls);
      if !Unspeakable(batch[0]) { BatchForward(cat, t.c, batch[1..], scripts[1..], t.calls); }
    }
  }

  // ---- one call -----------------------------------------------------------------------------

  /** The object the method returns can be made: its protocol was registered and has it. */
  ghost predicate Makes(cat: Catalog, impls: set<Name>, proto: Name, name: Name) {
    name != [] && proto in impls && proto in cat && exists f :: f in cat[proto] && f.name == name
  }

  /** What calling method `m` of object `o` does to client `c`: `d` is the client afterwards and
      `out` what it wrote.  A method that the object does not have, or not in its version,
      changes nothing.  Any other call allocates a sequence number if it returns an object, is
      written if the callee has an id and parked otherwise, marks the callee if it is a
      destructor, and makes the returned object, unresolved and with version 0. */
  ghost predicate Called(cat: Catalog, c: Client, o: nat, m: nat, args: seq<CallArg>, call: nat, d: Client, out: seq<CMsg>)
    requires o < |c.objs|
  {
    var obj := c.objs[o];
    if m >= |obj.iface.c2s| || obj.iface.c2s[m].since > obj.version then d == c && out == []
    else
      var def := obj.iface.c2s[m];
      var n := if def.creates == [] then 0 else c.seqNo + 1;
      && d == c.(objs := d.objs, table := d.table, queue := d.queue, seqNo := c.seqNo + if def.creates == [] then 0 else 1)
      && out == (if obj.id == 0 then [] else [Request(obj.id, m, n, args, call)])
      && d.queue == c.queue + (if obj.id == 0 then [Deferred(obj.seqNo, m, n, args, call)] else [])
      && |d.objs| >= |c.objs| && d.objs[..|c.objs|] == c.objs[o := obj.(destroyed := obj.destroyed || def.destructor)]
      && (if Makes(cat, c.impls, obj.proto, def.creates) then
            && |d.objs| == |c.objs| + 1 && d.table == c.table + [|c.objs|]
            && var made := d.objs[|c.objs|];
               made.iface in cat[obj.proto] && made == CObj(n, 0, 0, obj.proto, made.iface, true, false, false)
               && made.iface.name == def.creates
          else |d.objs| == |c.objs| && d.table == c.table)
  }

  lemma MakesIff(cat: Catalog, impls: set<Name>, proto: Name, name: Name, n: nat)
    requires name != []
    ensures var made := MakeObject(cat, impls, proto, name, n);
      if Makes(cat, impls, proto, name) then
        && |made| == 1 && proto in cat && made[0].iface in cat[proto] && made[0].iface.name == name
        && made[0] == CObj(n, 0, 0, proto, made[0].iface, true, false, false)
      else made == []
  {
  }

  lemma CallSays(cat: Catalog, c: Client, o: nat, m: nat, args: seq<CallArg>, call: nat)
    requires o < |c.objs|
    ensures var r := Call(cat, c, o, m, args, call); Called(cat, c, o, m, args, call, r.c, r.out)
  {
    hide MakeObject, Makes;
    var obj := c.objs[o];
    if Accepts(obj, m) {
      var def := obj.iface.c2s[m];
      var base := c.objs[o := obj.(destroyed := obj.destroyed || def.destructor)];
      assert base + [] == base && c.table + [] == c.table;
      if def.creates == [] {
        NothingMade(cat, c.impls, obj.proto);
      } else {
        MakesIff(cat, c.impls, obj.proto, def.creates, c.seqNo + 1);
      }
    }
  }

  lemma NothingMade(cat: Catalog, impls: set<Name>, proto: Name)
    ensures !Makes(cat, impls, proto, [])
  {
  }

  // ---- what handlers call ------------------------------------------------------------------

  /** The object can be called with method `m` by a handler: it is held, has an id, and has
      such a method no newer than itself. */
  predicate Callable(o: CObj, m: nat) {
    o.held && o.id != 0 && m < |o.iface.c2s| && o.iface.c2s[m].since <= o.version
  }

  /** The requests of a handler's calls: one for each call that is possible, in order. */
  function Voices(objs: seq<CObj>, script: seq<Intent>, seqNo: nat, calls: nat): seq<CMsg>
    decreases |script|
  {
    if script == [] then []
    else
      var w := script[0];
      if w.o < |objs| && Callable(objs[w.o], w.op) then
        var n := if objs[w.o].iface.c2s[w.op].creates == [] then 0 else 1;
        [Request(objs[w.o].id, w.op, n * (seqNo + 1), w.args, calls)] + Voices(objs, script[1..], seqNo + n, calls + 1)
      else Voices(objs, script[1..], seqNo, calls)
  }

  /** The same objects but for destroyed flags, and new ones that have no id yet. */
  ghost predicate SameVoices(a: seq<CObj>, b: seq<CObj>) {
    && |a| <= |b| && (forall i :: 0 <= i < |a| ==> b[i] == a[i].(destroyed := b[i].destroyed))
    && forall i :: |a| <= i < |b| ==> b[i].id == 0
  }

  lemma {:induction false} VoicesSame(a: seq<CObj>, b: seq<CObj>, script: seq<Intent>, seqNo: nat, calls: nat)
    requires SameVoices(a, b)
    ensures Voices(a, script, seqNo, calls) == Voices(b, script, seqNo, calls)
    decreases |script|
  {
    if script != [] {
      var w := script[0];
      if w.o < |a| && Callable(a[w.o], w.op) {
        var n := if a[w.o].iface.c2s[w.op].creates == [] then 0 else 1;
        VoicesSame(a, b, script[1..], seqNo + n, calls + 1);
      } else {
        VoicesSame(a, b, script[1..], seqNo, calls);
      }
    }
  }

  lemma CallVoice(cat: Catalog, c: Client, o: nat, m: nat, args: seq<CallArg>, calls: nat)
    requires o < |c.objs| && c.objs[o].held && c.objs[o].id != 0
    ensures var r := Call(cat, c, o, m, args, calls);
      if Callable(c.objs[o], m) then
        var n := if c.objs[o].iface.c2s[m].creates == [] then 0 else 1;
        && Accepts(c.objs[o], m) && r.out == [Request(c.objs[o].id, m, n * (c.seqNo + 1), args, calls)]
        && r.c.seqNo == c.seqNo + n && SameVoices(c.objs, r.c.objs)
      else !Accepts(c.objs[o], m) && r == Reply(c, [])
  {
  }

  /** A handler sends exactly the requests of its possible calls. */
  lemma {:induction false} HandlerVoices(cat: Catalog, c: Client, script: seq<Intent>, calls: nat)
    ensures HandlerPass(cat, c, script, calls).out == Voices(c.objs, script, c.seqNo, calls)
    decreases |script|
  {
    hide Call, Accepts, SameVoices;
    if script != [] {
      var w := script[0];
      if !Possible(c, w) {
        HandlerVoices(cat, c, script[1..], calls);
      } else {
        var r := Call(cat, c, w.o, w.op, w.args, calls);
        CallVoice(cat, c, w.o, w.op, w.args, calls);
        HandlerVoices(cat, r.c, script[1..], calls + if Accepts(c.objs[w.o], w.op) then 1 else 0);
        if Callable(c.objs[w.o], w.op) { VoicesSame(c.objs, r.c.objs, script[1..], r.c.seqNo, calls + 1); }
      }
    }
  }

  /** The event is for an object in the table. */
  ghost predicate ForSomebody(c: Client, msg: SMsg) {
    msg.Event? && exists i :: i in c.table && i < |c.objs| && c.objs[i].id == msg.source
  }

  lemma DeliversIff(c: Client, msg: SMsg)
    ensures Delivers(c, msg) <==> ForSomebody(c, msg)
  {
    if ForSomebody(c, msg) {
      var i :| i in c.table && i < |c.objs| && c.objs[i].id == msg.source;
      assert i in IdIs(c.objs, msg.source);
    }
  }

  lemma EventHandled(c: Client, msg: SMsg)
    requires msg.Event? && !Unspeakable(msg)
    ensures var r := Handle(c, msg); r.out == [] && r.c.seqNo == c.seqNo && SameVoices(c.objs, r.c.objs)
  {
  }

  /** What one message makes the client send: the calls of the handler an event for one of its
      objects runs, the acknowledgement of the handshake, and nothing otherwise. */
  lemma TurnVoices(cat: Catalog, c: Client, msg: SMsg, script: seq<Intent>, calls: nat)
    ensures TurnPass(cat, c, msg, script, calls).out ==
            if Unspeakable(msg) then []
            else if msg.HandshakeBegin? then [HandshakeAck(PROTOCOL_VERSION)]
            else if ForSomebody(c, msg) then Voices(c.objs, script, c.seqNo, calls)
            else []
  {
    hide HandlerPass, First, ForSomebody, Delivers;
    DeliversIff(c, msg);
    if !msg.Event? {
      NoHandler(c, msg);
    } else if !Unspeakable(msg) {
      var r := Handle(c, msg);
      EventHandled(c, msg);
      HandlerVoices(cat, r.c, script, calls);
      VoicesSame(c.objs, r.c.objs, script, c.seqNo, calls);
    }
  }

  lemma NoHandler(c: Client, msg: SMsg)
    requires !msg.Event?
    ensures !ForSomebody(c, msg)
  {
  }

  // ---- what the server's application says ---------------------------------------------------

  /** Saying two things in turn. */
  lemma {:induction false} SpeechJoins(s: Server, a: seq<Speech>, b: seq<Speech>)
    ensures var r := SpeechPass(s, a); var q := SpeechPass(r.s, b); SpeechPass(s, a + b) == SReply(q.s, r.out + q.out)
    decreases |a|
  {
    if a == [] {
      assert a + b == b;
      assert [] + SpeechPass(s, b).out == SpeechPass(s, b).out;
    } else {
      assert (a + b)[1..] == a[1..] + b;
      SpeechJoins(SpeakOne(s, a[0]).s, a[1..], b);
    }
  }

  /** The server after object `o` sent event `m`. */
  function AfterEvent(s: Server, o: nat, m: nat): Server
    requires o < |s.objs| && s.objs[o].iface.Some? && m < |s.objs[o].iface.value.s2c|
  {
    s.(objs := s.objs[o := s.objs[o].(destroyed := s.objs[o].iface.value.s2c[m].destructor)])
  }

  /** What saying one thing does: a destroyed object says nothing; an event the object may send
      is sent; anything else is a fatal error of the connection. */
  lemma SpeechOne(s: Server, w: Speech)
    requires w.so < |s.objs|
    ensures var o := s.objs[w.so];
      SpeechPass(s, [w]) ==
      if o.destroyed then SReply(s, [])
      else if w.Say? && Sayable(o, w.event) then SReply(AfterEvent(s, w.so, w.event), [Event(o.id, w.event, w.args)])
      else SReply(s.(error := true), [FatalProtocolError(o.id)])
  {
    assert [w][1..] == [];
    assert SpeakOne(s, w).out + [] == SpeakOne(s, w).out;
  }

  /** What speech leaves alone: everything but errors and destroyed flags, which are only set.
      It acknowledges nothing. */
  ghost predicate OnlySpoke(s: Server, r: SReply) {
    && r.s == s.(objs := r.s.objs, error := r.s.error) && (s.error ==> r.s.error) && |r.s.objs| == |s.objs|
    && (forall i :: 0 <= i < |s.objs| ==> SameSObj(s.objs[i], r.s.objs[i]))
    && Silent(r.out)
  }

  /** No roundtrip is acknowledged. */
  ghost predicate Silent(out: seq<SMsg>) {
    forall k :: 0 <= k < |out| ==> !out[k].RoundtripDone?
  }

  lemma {:induction false} SpeechOnlySpeaks(s: Server, script: seq<Speech>)
    ensures OnlySpoke(s, SpeechPass(s, script))
    decreases |script|
  {
    hide SpeakOne;
    if script != [] {
      OneOnlySpeaks(s, script[0]);
      SpeechOnlySpeaks(SpeakOne(s, script[0]).s, script[1..]);
    }
  }

  lemma OneOnlySpeaks(s: Server, w: Speech)
    ensures OnlySpoke(s, SpeakOne(s, w))
  {
    hide SendEvent;
    if w.so < |s.objs| && w.Say? { SendShape(s, w.so, w.event, w.args); }
  }

  // ---- one message at the server --------------------------------------------------------------

  /** Handling a message that parses leaves the objects there are alone; it acknowledges
      nothing, and only a roundtrip request touches the schedule. */
  ghost predicate HandledOne(s: Server, msg: CMsg, r: SReply) {
    && s.objs <= r.s.objs && r.s.aborted == s.aborted && Silent(r.out)
    && r.s.scheduled == if msg.RoundtripRequest? then msg.token else s.scheduled
  }

  lemma GenericHandled(cat: Catalog, s: Server, x: nat, m: nat, ret: nat, cause: nat, at: nat)
    ensures var r := ServerOnGeneric(cat, s, x, m, ret, cause, at);
      s.objs <= r.s.objs && r.s.aborted == s.aborted && Silent(r.out) && r.s.scheduled == s.scheduled
  {
    hide First, ServerIdIs, ServerDispatch;
    match First(s.table, ServerIdIs(s.objs, x))
    case None =>
    case Some(i) => if i < |s.objs| { DispatchHandled(cat, s, i, m, ret, cause, at); }
  }

  lemma DispatchHandled(cat: Catalog, s: Server, i: nat, m: nat, ret: nat, cause: nat, at: nat)
    requires i < |s.objs|
    ensures var r := ServerDispatch(cat, s, i, m, ret, cause, at);
      s.objs <= r.s.objs && r.s.aborted == s.aborted && Silent(r.out) && r.s.scheduled == s.scheduled
  {
    hide Created, AddServerObject, Answers;
    if HasHandler(s.objs[i], m) { ObjectAdded(s, Created(cat, s, s.objs[i], m, ret, cause, at)); }
  }

  lemma ObjectAdded(s: Server, made: seq<SObj>)
    ensures var t := AddServerObject(s, made);
      s.objs <= t.objs && t.aborted == s.aborted && t.scheduled == s.scheduled && Silent(Answers(made))
  {
  }

  lemma HandleOne(cat: Catalog, s: Server, msg: CMsg, cause: nat, at: nat)
    requires !Unparsable(msg)
    ensures HandledOne(s, msg, ServerHandle(cat, s, msg, cause, at))
  {
    hide ServerOnGeneric, PickIface, Adverts.FormatAll;
    if msg.Request? { GenericHandled(cat, s.(phase := true), msg.target, msg.op, msg.ret, cause, at); }
  }

  /** A turn with a message that parses: what the application says meanwhile stands behind the
      answer, and only a roundtrip request touches the schedule. */
  lemma TurnServes(cat: Catalog, s: Server, msg: CMsg, script: seq<Speech>, cause: nat, at: nat)
    requires !Unparsable(msg)
    ensures var h := ServerHandle(cat, s, msg, cause, at); var t := ServeTurn(cat, s, msg, script, cause, at);
      && t.out == h.out + SpeechPass(h.s, script).out && Silent(t.out)
      && t.s.scheduled == if msg.RoundtripRequest? then msg.token else s.scheduled
  {
    hide ServerHandle, SpeechPass, MarkAll, Retain;
    HandleOne(cat, s, msg, cause, at);
    SpeechOnlySpeaks(ServerHandle(cat, s, msg, cause, at).s, script);
  }

  /** The object a request is for: the only one in the table with the target's id. */
  ghost predicate IsFor(s: Server, i: nat, x: nat) {
    && i in s.table && i < |s.objs| && s.objs[i].id == x
    && forall j :: j in s.table && j < |s.objs| && s.objs[j].id == x ==> j == i
  }

  lemma IsFound(s: Server, i: nat, x: nat)
    requires IsFor(s, i, x)
    ensures First(s.table, ServerIdIs(s.objs, x)) == Some(i)
  {
    assert i in ServerIdIs(s.objs, x);
  }

  /** Nobody in the table has that id. */
  ghost predicate IsForNone(s: Server, x: nat) {
    forall j :: j in s.table && j < |s.objs| ==> s.objs[j].id != x
  }

  /** The interface an object of that name gets: that of the first registered description, the
      root one for the empty name; none if it is not registered or has none of that name. */
  ghost predicate Picked(cat: Catalog, impls: seq<Advert>, proto: Name, name: Name, f: Option<Iface>) {
    if (exists a :: a in impls && a.name == proto) && proto in cat
       && (if name == [] then cat[proto] != [] else exists g :: g in cat[proto] && g.name == name) then
      f.Some? && f.value in cat[proto] && (if name == [] then f.value == cat[proto][0] else f.value.name == name)
    else f.None?
  }

  lemma PickIs(cat: Catalog, impls: seq<Advert>, proto: Name, name: Name)
    ensures Picked(cat, impls, proto, name, PickIface(cat, impls, proto, name))
  {
  }

  /** What a request for method `m` of object `i` does before its handler runs: `t` is the server
      afterwards and `out` what it wrote.  Without such a method nothing happens.  Otherwise
      the returned object is created with the callee's version, unless the callee is
      destroyed, and a destructor is handed over, which counts as delivered unless it should
      have returned an object and could not. */
  ghost predicate Dispatched(cat: Catalog, s: Server, i: nat, m: nat, ret: nat, cause: nat, at: nat, t: Server, out: seq<SMsg>)
    requires i < |s.objs|
  {
    var o := s.objs[i];
    if o.iface.None? || m >= |o.iface.value.c2s| then t == s && out == []
    else
      var def := o.iface.value.c2s[m];
      && t == s.(objs := t.objs, table := t.table, maxId := t.maxId, finishing := t.finishing, dlog := t.dlog)
      && t.finishing == (if def.destructor then o.id else s.finishing)
      && t.dlog == s.dlog + (if def.destructor && (def.creates == [] || !o.destroyed) then [o.id] else [])
      && if def.creates == [] || o.destroyed then
           out == [] && t.objs == s.objs && t.table == s.table && t.maxId == s.maxId
         else
           && out == [NewObject(ret, s.maxId)] && t.maxId == s.maxId + 1 && t.table == s.table + [|s.objs|]
           && |t.objs| == |s.objs| + 1 && var made := t.objs[|s.objs|];
              && t.objs == s.objs + [SObj(ret, s.maxId, o.version, o.proto, made.iface, false, cause, at)]
              && Picked(cat, s.impls, o.proto, def.creates, made.iface)
  }

  lemma CreatedNothing(s: Server)
    ensures AddServerObject(s, []) == s && s.dlog + [] == s.dlog
  {
    assert s.objs + [] == s.objs && s.table + [] == s.table;
  }

  lemma CreatedOne(s: Server, o: SObj)
    ensures AddServerObject(s, [o]) ==
            s.(objs := s.objs + [o], maxId := s.maxId + 1, table := s.table + [|s.objs|])
  {
  }

  lemma DispatchNoMethod(cat: Catalog, s: Server, i: nat, m: nat, ret: nat, cause: nat, at: nat)
    requires i < |s.objs| && !HasHandler(s.objs[i], m)
    ensures var r := ServerDispatch(cat, s, i, m, ret, cause, at); Dispatched(cat, s, i, m, ret, cause, at, r.s, r.out)
  {
  }

  lemma DispatchMakesNothing(cat: Catalog, s: Server, i: nat, m: nat, ret: nat, cause: nat, at: nat)
    requires i < |s.objs| && HasHandler(s.objs[i], m)
    requires s.objs[i].iface.value.c2s[m].creates == [] || s.objs[i].destroyed
    ensures var r := ServerDispatch(cat, s, i, m, ret, cause, at); Dispatched(cat, s, i, m, ret, cause, at, r.s, r.out)
  {
    hide PickIface, Picked, AddServerObject, NewServerObject;
    CreatedNothing(s);
  }

  lemma DispatchMakes(cat: Catalog, s: Server, i: nat, m: nat, ret: nat, cause: nat, at: nat)
    requires i < |s.objs| && HasHandler(s.objs[i], m)
    requires s.objs[i].iface.value.c2s[m].creates != [] && !s.objs[i].destroyed
    ensures var r := ServerDispatch(cat, s, i, m, ret, cause, at); Dispatched(cat, s, i, m, ret, cause, at, r.s, r.out)
  {
    hide PickIface, Picked, AddServerObject;
    var o := s.objs[i];
    var name := o.iface.value.c2s[m].creates;
    PickIs(cat, s.impls, o.proto, name);
    CreatedOne(s, NewServerObject(cat, s, o.proto, name, o.version, ret, cause, at));
    assert s.dlog + [] == s.dlog;
  }

  lemma DispatchSays(cat: Catalog, s: Server, i: nat, m: nat, ret: nat, cause: nat, at: nat)
    requires i < |s.objs|
    ensures var r := ServerDispatch(cat, s, i, m, ret, cause, at); Dispatched(cat, s, i, m, ret, cause, at, r.s, r.out)
  {
    hide Dispatched, ServerDispatch;
    if !HasHandler(s.objs[i], m) {
      DispatchNoMethod(cat, s, i, m, ret, cause, at);
    } else if s.objs[i].iface.value.c2s[m].creates == [] || s.objs[i].destroyed {
      DispatchMakesNothing(cat, s, i, m, ret, cause, at);
    } else {
      DispatchMakes(cat, s, i, m, ret, cause, at);
    }
  }

  /** Handling a request: the fatal error if nobody has the target's id, and otherwise the
      dispatch to the one who has. */
  lemma GenericSays(cat: Catalog, s: Server, x: nat, m: nat, ret: nat, cause: nat, at: nat)
    ensures var r := ServerOnGeneric(cat, s, x, m, ret, cause, at);
      && (IsForNone(s, x) ==> r == SReply(s.(error := true), [FatalProtocolError(x)]))
      && forall i: nat :: IsFor(s, i, x) ==> Dispatched(cat, s, i, m, ret, cause, at, r.s, r.out)
  {
    hide Dispatched, ServerDispatch;
    forall i: nat | IsFor(s, i, x)
      ensures var r := ServerOnGeneric(cat, s, x, m, ret, cause, at); Dispatched(cat, s, i, m, ret, cause, at, r.s, r.out)
    {
      IsFound(s, i, x);
      DispatchSays(cat, s, i, m, ret, cause, at);
    }
  }

  lemma DestructorHandled(cat: Catalog, s: Server, i: nat, x: nat, m: nat, ret: nat, cause: nat, at: nat)
    requires IsFor(s, i, x) && HasHandler(s.objs[i], m) && s.objs[i].iface.value.c2s[m].destructor
    ensures var r := ServerOnGeneric(cat, s, x, m, ret, cause, at);
      r.s.finishing == x && s.objs <= r.s.objs
  {
    hide First, PickIface, ServerIdIs;
    IsFound(s, i, x);
    assert s.objs + [] == s.objs;
  }

  lemma Finished(s: Server, i: nat, x: nat)
    requires i < |s.objs| && s.objs[i].id == x && x != 0 && s.finishing == x
    ensures var t := FinishPass(s); |t.objs| == |s.objs| && t.objs[i].destroyed && i !in t.table && t.finishing == 0
  {
    assert i in ServerIdIs(s.objs, x);
  }

  /** The message asks for a destructor of object `i`. */
  ghost predicate AsksEnd(s: Server, msg: CMsg, i: nat) {
    && msg.Request? && Sendable(msg.args) && msg.target != 0 && IsFor(s, i, msg.target)
    && s.objs[i].iface.Some? && msg.op < |s.objs[i].iface.value.c2s|
    && s.objs[i].iface.value.c2s[msg.op].destructor
  }

  /** A destructor request takes effect by the end of its turn, whatever is said meanwhile:
      the object is destroyed and off the table. */
  lemma TurnDestroys(cat: Catalog, s: Server, msg: CMsg, i: nat, script: seq<Speech>, cause: nat, at: nat)
    requires AsksEnd(s, msg, i)
    ensures var t := ServeTurn(cat, s, msg, script, cause, at).s;
      i < |t.objs| && t.objs[i].destroyed && i !in t.table && t.finishing == 0
  {
    hide ServerOnGeneric, SpeechPass, Finish;
    DestructorHandled(cat, s.(phase := true), i, msg.target, msg.op, msg.ret, cause, at);
    var h := ServerHandle(cat, s, msg, cause, at).s;
    SpeechOnlySpeaks(h, script);
    var sp := SpeechPass(h, script).s;
    assert SameSObj(h.objs[i], sp.objs[i]);
    Finished(sp, i, msg.target);
  }

  // ---- how a server dispatch ends ---------------------------------------------------------------

  /** Position of the batch's last roundtrip request. */
  ghost predicate LastRequest(batch: seq<CMsg>, i: nat) {
    i < |batch| && batch[i].RoundtripRequest? && forall j :: i < j < |batch| ==> !batch[j].RoundtripRequest?
  }

  /** What is to be acknowledged after the batch. */
  function Due(scheduled: nat, batch: seq<CMsg>): nat
    decreases |batch|
  {
    if batch == [] then scheduled
    else Due(if batch[0].RoundtripRequest? then batch[0].token else scheduled, batch[1..])
  }

  /** It is the token of the last roundtrip request, or what was scheduled before. */
  lemma {:induction false} DueIsLast(scheduled: nat, batch: seq<CMsg>)
    ensures (forall i :: 0 <= i < |batch| ==> !batch[i].RoundtripRequest?) ==> Due(scheduled, batch) == scheduled
    ensures forall i: nat :: LastRequest(batch, i) ==> Due(scheduled, batch) == batch[i].token
    decreases |batch|
  {
    if batch != [] {
      assert forall i: nat :: LastRequest(batch, i) && i > 0 ==> LastRequest(batch[1..], i - 1);
      DueIsLast(if batch[0].RoundtripRequest? then batch[0].token else scheduled, batch[1..]);
    }
  }

  ghost predicate Breaks(batch: seq<CMsg>) {
    exists k :: 0 <= k < |batch| && Unparsable(batch[k])
  }

  lemma BreaksTail(batch: seq<CMsg>)
    requires batch != [] && !Unparsable(batch[0])
    ensures Breaks(batch) <==> Breaks(batch[1..])
  {
    if Breaks(batch) {
      var k :| 0 <= k < |batch| && Unparsable(batch[k]);
      assert batch[1..][k - 1] == batch[k];
    }
  }

  lemma {:induction false} BatchServes(cat: Catalog, s: Server, batch: seq<CMsg>, scripts: seq<seq<Speech>>, cause: nat, at: nat)
    requires |scripts| == |batch| && !s.aborted
    ensures var b := ServeBatch(cat, s, batch, scripts, cause, at);
      && (b.s.aborted <==> Breaks(batch)) && Silent(b.out)
      && (!Breaks(batch) ==> b.s.scheduled == Due(s.scheduled, batch) && b.taken == |batch|)
    decreases |batch|
  {
    hide ServeTurn, Unparsable, Silent, Breaks;
    if batch == [] {
      NothingServed(batch);
    } else {
      TurnFailsIff(cat, s, batch[0], scripts[0], cause, at);
      if Unparsable(batch[0]) {
        RefusedSilently(cat, s, batch, scripts[0], cause, at);
      } else {
        TurnServes(cat, s, batch[0], scripts[0], cause, at);
        BreaksTail(batch);
        var t := ServeTurn(cat, s, batch[0], scripts[0], cause, at);
        BatchServes(cat, t.s, batch[1..], scripts[1..], cause + 1, at + |t.out|);
        SilentJoin(t.out, ServeBatch(cat, t.s, batch[1..], scripts[1..], cause + 1, at + |t.out|).out);
      }
    }
  }

  lemma NothingServed(batch: seq<CMsg>)
    requires batch == []
    ensures !Breaks(batch) && Silent([])
  {
  }

  lemma SilentJoin(a: seq<SMsg>, b: seq<SMsg>)
    requires Silent(a) && Silent(b)
    ensures Silent(a + b)
  {
  }

  lemma RefusedSilently(cat: Catalog, s: Server, batch: seq<CMsg>, script: seq<Speech>, cause: nat, at: nat)
    requires batch != [] && Unparsable(batch[0])
    ensures Silent(ServeTurn(cat, s, batch[0], script, cause, at).out) && Breaks(batch)
  {
  }

  /** The messages `out` end with `m` and hold no other acknowledgement. */
  ghost predicate EndsWith(out: seq<SMsg>, m: SMsg) {
    out != [] && out[|out| - 1] == m && Silent(out[..|out| - 1])
  }

  /** The last of the messages is the only acknowledgement, and it is of `token`; token 0 is
      acknowledged by nothing. */
  ghost predicate Acknowledges(out: seq<SMsg>, token: nat) {
    if token > 0 then EndsWith(out, RoundtripDone(token)) else Silent(out)
  }

  /** How a dispatch of the server ends.  It is over.  If a message did not parse, the last
      thing written is the fatal error and the connection is flagged; otherwise nothing stays
      scheduled, and the last thing written is the acknowledgement of the last roundtrip
      request, the only one of the dispatch. */
  lemma DispatchEnds(cat: Catalog, s: Server, batch: seq<CMsg>, scripts: seq<seq<Speech>>, cause: nat, at: nat)
    requires |scripts| == |batch| && !s.aborted
    ensures var p := ServePass(cat, s, batch, scripts, cause, at); var k := Due(s.scheduled, batch);
      && !p.s.phase
      && (Breaks(batch) ==> p.s.error && EndsWith(p.out, FatalProtocolError(0)))
      && (!Breaks(batch) ==> p.s.scheduled == 0 && Acknowledges(p.out, k) && p.taken == |batch|)
  {
    hide ServeBatch, Due;
    BatchServes(cat, s, batch, scripts, cause, at);
    var b := ServeBatch(cat, s, batch, scripts, cause, at);
    var e := EndDispatch(b.s);
    assert e.out != [] ==> (b.out + e.out)[..|b.out + e.out| - 1] == b.out;
    assert b.out + [] == b.out;
  }
}
