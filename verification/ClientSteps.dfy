// Every step of the client keeps the invariant.
module ClientSteps {
  import opened Types
  import opened ClientModel
  import opened ServerModel
  import opened System
  import opened Invariant
  import Adverts

  /** What a client step leaves alone. */
  ghost predicate ServerSideSame(a: Sys, b: Sys) {
    && a.s == b.s && a.cRead == b.cRead && a.s2c == b.s2c && a.handled == b.handled
    && a.protoAt == b.protoAt && a.adv == b.adv
  }

  lemma CallKeepsServer(cat: Catalog, y: Sys, o: nat, op: nat, args: seq<CallArg>)
    requires o < |y.c.objs|
    ensures var z := DoCall(cat, y, o, op, args);
      ServerSideSame(y, z) && y.c2s <= z.c2s && z.c.phase == y.c.phase && z.sRead == y.sRead
  {
  }

  lemma DropKeepsServer(cat: Catalog, y: Sys, o: nat)
    requires o < |y.c.objs|
    ensures var z := DropObject(cat, y, o);
      ServerSideSame(y, z) && y.c2s <= z.c2s && z.c.phase == y.c.phase && z.sRead == y.sRead
  {
    hide DoCall, AutoDestructor;
    if AutoDestructor(y.c.objs[o]).Some? {
      CallKeepsServer(cat, y, o, AutoDestructor(y.c.objs[o]).value, []);
    }
  }

  lemma HelloFrame(cat: Catalog, a: Sys, b: Sys)
    requires ClientHello(a) && ServerHello(cat, a) && ServerSideSame(a, b)
    requires a.c2s <= b.c2s
    requires forall p :: |a.c2s| <= p < |b.c2s| ==> !b.c2s[p].Sup? && !b.c2s[p].HandshakeAck?
    requires a.ackAt == b.ackAt && a.sRead == b.sRead
    requires a.c.handshakeDone == b.c.handshakeDone && a.c.specs == b.c.specs
    ensures ClientHello(b) && ServerHello(cat, b)
  {
    assert forall p :: 0 <= p < |a.c2s| ==> b.c2s[p] == a.c2s[p];
  }

  lemma AcksFrame(a: Sys, b: Sys)
    requires RequestsOk(a) && AcksOk(a) && ServerSideSame(a, b) && a.c2s <= b.c2s
    requires a.reqAt == b.reqAt && a.sRead == b.sRead && a.c.lastAckd == b.c.lastAckd
    ensures RequestsOk(b) && AcksOk(b)
  {
    assert forall p :: 0 <= p < |a.c2s| ==> b.c2s[p] == a.c2s[p];
  }

  /** The parked requests survive any step that resolves no id and changes no fate. */
  lemma QueueFrame(a: Sys, b: Sys, q: seq<Deferred>)
    requires QueueIs(a, q) && CallsGrow(a, b) && ObjsGrow(a, b)
    requires forall k :: 0 <= k < |a.calls| ==> a.calls[k].fate == b.calls[k].fate
    requires forall k :: |a.calls| <= k < |b.calls| ==> !b.calls[k].fate.Waiting?
    requires forall i :: 0 <= i < |a.c.objs| ==> a.c.objs[i].id == b.c.objs[i].id
    ensures QueueIs(b, q)
    ensures Kept(a) && a.c.phase == b.c.phase && a.c.queue == b.c.queue ==> Kept(b)
  {
    forall i | 0 <= i < |q| ensures ParkedOk(b, q[i]) {
      var d := q[i];
      assert ParkedOk(a, d);
      assert SameCall(a.calls[d.call], b.calls[d.call], |a.c2s|);
      assert SameObj(a.c.objs[a.calls[d.call].on], b.c.objs[a.calls[d.call].on]);
    }
    if Kept(a) && a.c.phase == b.c.phase && a.c.queue == b.c.queue {
      forall i | (b.c.phase.Idle? || b.c.phase.Flushing?) && 0 <= i < |b.c.queue| ensures WaitsForId(b, b.c.queue[i]) {
        assert WaitsForId(a, a.c.queue[i]);
        assert SameCall(a.calls[a.c.queue[i].call], b.calls[a.c.queue[i].call], |a.c2s|);
      }
    }
  }

  lemma DeliveredFrame(cat: Catalog, a: Sys, b: Sys)
    requires History(cat, a) && Delivered(a) && Extends(a, b) && a.s == b.s && a.sRead == b.sRead
    requires forall i :: 0 <= i < |a.c.objs| ==> a.c.objs[i].id == b.c.objs[i].id
    ensures Delivered(b)
  {
    forall i, j | 0 <= i < |b.s.objs| && 0 <= j < |b.c.objs|
                  && b.s.objs[i].seqNo == b.c.objs[j].seqNo && b.s.objs[i].at < b.sRead
      ensures b.c.objs[j].id == i + 1
    {
      assert SObjOk(a, i);
      assert j < |a.c.objs|;
      assert SameObj(a.c.objs[j], b.c.objs[j]);
    }
  }

  /** A client step that resolves no id, decides no fate and reads nothing: only its new
      messages, objects and calls are left to check. */
  lemma QuietClientStep(cat: Catalog, a: Sys, b: Sys)
    requires Inv(cat, a) && Extends(a, b) && ServerSideSame(a, b) && a.sRead == b.sRead
    requires forall i :: 0 <= i < |a.c.objs| ==> a.c.objs[i].id == b.c.objs[i].id
    requires forall k :: 0 <= k < |a.calls| ==> a.calls[k].fate == b.calls[k].fate
    requires Bounds(b) && ClientTable(b.c)
    requires forall i: nat :: |a.c.objs| <= i < |b.c.objs| ==> ObjOk(cat, b, i)
    requires forall k: nat :: |a.calls| <= k < |b.calls| ==> CallOk(b, k)
    requires forall p: nat :: |a.c2s| <= p < |b.c2s| ==> CMsgOk(b, p)
    ensures History(cat, b) && Delivered(b)
  {
    HistoryStable(cat, a, b);
    DeliveredFrame(cat, a, b);
  }

  lemma SeqsAllocated(cat: Catalog, y: Sys)
    requires History(cat, y)
    ensures forall i :: 0 <= i < |y.c.objs| ==> 0 < y.c.objs[i].seqNo <= |y.alloc|
  {
    forall i | 0 <= i < |y.c.objs| ensures 0 < y.c.objs[i].seqNo <= |y.alloc| {
      assert ObjOk(cat, y, i);
    }
  }

  lemma BindKeepsInv(cat: Catalog, y: Sys, proto: Name, version: nat)
    requires Inv(cat, y) && Enabled(cat, y, AppBind(proto, version))
    ensures Inv(cat, Apply(cat, y, AppBind(proto, version)))
    ensures Extends(y, Apply(cat, y, AppBind(proto, version)))
  {
    hide History, AcksOk;
    if Bind(cat, y.c, proto, version).out == [] {
      assert Apply(cat, y, AppBind(proto, version)) == y;
    } else {
      assert Registered(y.s.impls, proto) by {
        var a := FindAdvert(y.c.specs, proto).value;
        assert a in y.adv && a in y.s.impls;
      }
      BoundObject(cat, y, Apply(cat, y, AppBind(proto, version)),
                  CObj(y.c.seqNo + 1, 0, version, proto, cat[proto][0], true, false, true));
    }
  }

  ghost predicate BindsObject(cat: Catalog, y: Sys, z: Sys, o: CObj) {
    && o.seqNo == y.c.seqNo + 1 && o.id == 0 && Registered(y.s.impls, o.proto)
    && o.proto in cat && cat[o.proto] != [] && o.iface == cat[o.proto][0]
    && z == y.(c := AddObject(y.c.(seqNo := o.seqNo), o),
               c2s := y.c2s + [BindProtocol(o.proto, o.seqNo, o.version)],
               alloc := y.alloc + [Bound(|y.c2s|)])
  }

  lemma BoundObject(cat: Catalog, y: Sys, z: Sys, o: CObj)
    requires Inv(cat, y) && BindsObject(cat, y, z, o)
    ensures Inv(cat, z) && Extends(y, z)
  {
    hide History, ClientTable, Delivered, QueueIs, Kept, ServerTable, ClientHello, ServerHello, RequestsOk, AcksOk, Extends;
    BoundObjectIsOk(cat, y, z, o);
    QuietClientStep(cat, y, z);
    QueueFrame(y, z, Parked(y.c));
    HelloFrame(cat, y, z);
    AcksFrame(y, z);
  }

  lemma BoundObjectIsOk(cat: Catalog, y: Sys, z: Sys, o: CObj)
    requires History(cat, y) && ClientTable(y.c) && BindsObject(cat, y, z, o)
    ensures Extends(y, z) && Bounds(z) && ClientTable(z.c)
    ensures ObjOk(cat, z, |y.c.objs|) && CMsgOk(z, |y.c2s|)
  {
    SeqsAllocated(cat, y);
    PushIncreasing(y.c.table, |y.c.objs|);
    assert z.alloc[o.seqNo - 1] == Bound(|y.c2s|);
    assert FromBind(cat, z, o, |y.c2s|);
  }

  lemma RoundtripKeepsInv(cat: Catalog, y: Sys)
    requires Inv(cat, y) && Enabled(cat, y, AppRoundtrip)
    ensures Inv(cat, Apply(cat, y, AppRoundtrip)) && Extends(y, Apply(cat, y, AppRoundtrip))
  {
    hide Delivered, QueueIs, ServerHello, RequestsOk, ServerTable, ObjOk, CallOk, SObjOk, SMsgOk, HandledOk;
    var z := Apply(cat, y, AppRoundtrip);
    assert Extends(y, z);
    QuietClientStep(cat, y, z);
    QueueFrame(y, z, Parked(y.c));
    HelloFrame(cat, y, z);
    RequestSent(y, z);
  }

  lemma RequestSent(y: Sys, z: Sys)
    requires RequestsOk(y) && AcksOk(y) && Bounds(y)
    requires z == y.(c := Roundtrip(y.c).c, c2s := y.c2s + Roundtrip(y.c).out, reqAt := y.reqAt + [|y.c2s|])
    ensures RequestsOk(z) && AcksOk(z)
  {
    hide Inv, Extends;
    assert forall k :: 0 <= k < |y.reqAt| ==> z.reqAt[k] == y.reqAt[k];
    assert forall p :: 0 <= p < |y.c2s| ==> z.c2s[p] == y.c2s[p];
  }

  /** Changing only the handle bits and the destroyed bits of client objects, or taking
      resolved objects out of the table, changes nothing else. */
  lemma RelabelKeepsInv(cat: Catalog, y: Sys, z: Sys)
    requires Inv(cat, y)
    requires z == y.(c := y.c.(objs := z.c.objs, table := z.c.table))
    requires |z.c.objs| == |y.c.objs|
    requires forall i :: 0 <= i < |y.c.objs| ==>
      z.c.objs[i] == y.c.objs[i].(held := z.c.objs[i].held, destroyed := z.c.objs[i].destroyed)
    requires Increasing(z.c.table) && forall i :: i in z.c.table ==> i in y.c.table
    requires forall i :: i in y.c.table && i !in z.c.table && i < |y.c.objs| ==> y.c.objs[i].id != 0
    ensures Inv(cat, z) && Extends(y, z)
  {
    hide ObjOk, CallOk, CMsgOk, SObjOk, SMsgOk, HandledOk, ServerTable, Delivered, ServerHello, RequestsOk;
    assert Extends(y, z);
    QuietClientStep(cat, y, z);
    QueueFrame(y, z, Parked(y.c));
    HelloFrame(cat, y, z);
    AcksFrame(y, z);
  }

  // ---- calls ---------------------------------------------------------------------

  /** The state after an accepted call, spelled out: its record `r` and the client object
      `made` for the returned interface, if any. */
  ghost predicate Calls(cat: Catalog, y: Sys, z: Sys, r: CallRec, made: seq<CObj>) {
    && r.on < |y.c.objs| && Accepts(y.c.objs[r.on], r.op) && r.on < |z.c.objs|
    && var obj := y.c.objs[r.on];
    && (obj.id == 0 ==> Resting(y.c))
    && r.ret == (if obj.iface.c2s[r.op].creates == [] then 0 else y.c.seqNo + 1)
    && r.fate == (if obj.id == 0 then Waiting else Sent(|y.c2s|))
    && r.jumped == (obj.id != 0 && Behind(y.calls, r.on))
    && |made| <= 1
    && (made != [] ==> r.ret != 0 && MadeFor(cat, obj, r, made[0]))
    && z == y.(c := y.c.(objs := y.c.objs[r.on := obj.(destroyed := z.c.objs[r.on].destroyed)] + made,
                         table := y.c.table + (if made == [] then [] else [|y.c.objs|]),
                         seqNo := if r.ret == 0 then y.c.seqNo else r.ret,
                         queue := y.c.queue + (if obj.id == 0 then [ParkedCall(obj, r, |y.calls|)] else [])),
               c2s := y.c2s + (if obj.id == 0 then [] else [Request(obj.id, r.op, r.ret, r.args, |y.calls|)]),
               calls := y.calls + [r],
               alloc := y.alloc + (if r.ret == 0 then [] else [Made(|y.calls|)]))
  }

  ghost predicate MadeFor(cat: Catalog, maker: CObj, r: CallRec, o: CObj)
    requires r.op < |maker.iface.c2s|
  {
    && o.seqNo == r.ret && o.id == 0 && o.version == 0 && o.proto == maker.proto && o.proto in cat
    && FindIface(cat[o.proto], maker.iface.c2s[r.op].creates) == Some(o.iface)
  }

  function ParkedCall(o: CObj, r: CallRec, k: nat): Deferred {
    Deferred(o.seqNo, r.op, r.ret, r.args, k)
  }

  lemma DoCallIsCalls(cat: Catalog, y: Sys, o: nat, op: nat, args: seq<CallArg>) returns (r: CallRec, made: seq<CObj>)
    requires o < |y.c.objs| && Accepts(y.c.objs[o], op) && (y.c.objs[o].id == 0 ==> Resting(y.c))
    ensures Calls(cat, y, DoCall(cat, y, o, op, args), r, made)
    ensures r.on == o && r.op == op && r.args == args
  {
    var z := DoCall(cat, y, o, op, args);
    r := z.calls[|y.calls|];
    made := z.c.objs[|y.c.objs|..];
    var obj := y.c.objs[o];
    var base := y.c.objs[o := obj.(destroyed := obj.destroyed || obj.iface.c2s[op].destructor)];
    var ret := r.ret;
    var new_ := if ret == 0 then [] else MakeObject(cat, y.c.impls, obj.proto, obj.iface.c2s[op].creates, ret);
    assert z.c.objs == base + new_;
    assert made == new_;
    assert z.c.objs[o] == base[o];
  }

  lemma CallExtends(cat: Catalog, y: Sys, z: Sys, r: CallRec, made: seq<CObj>)
    requires Inv(cat, y) && Calls(cat, y, z, r, made)
    ensures Extends(y, z) && ServerSideSame(y, z)
    ensures forall i :: 0 <= i < |y.c.objs| ==>
      z.c.objs[i] == y.c.objs[i].(destroyed := z.c.objs[i].destroyed)
  {
    hide ClientTable, Delivered, QueueIs, Kept, ServerTable, ClientHello, ServerHello, RequestsOk, AcksOk, ObjOk, CallOk, CMsgOk, SObjOk, SMsgOk, HandledOk;
  }

  lemma CallTable(cat: Catalog, y: Sys, z: Sys, r: CallRec, made: seq<CObj>)
    requires Inv(cat, y) && Calls(cat, y, z, r, made)
    ensures ClientTable(z.c) && Bounds(z)
  {
    hide ObjOk, CallOk, CMsgOk, SObjOk, SMsgOk, HandledOk;
    SeqsAllocated(cat, y);
    PushIncreasing(y.c.table, |y.c.objs|);
    var n := |y.c.objs|;
    assert forall i :: 0 <= i < n ==> z.c.objs[i].seqNo == y.c.objs[i].seqNo && z.c.objs[i].id == y.c.objs[i].id;
    assert made == [] ==> y.c.table + [] == y.c.table;
  }

  lemma CallRecorded(cat: Catalog, y: Sys, z: Sys, r: CallRec, made: seq<CObj>)
    requires Inv(cat, y) && Calls(cat, y, z, r, made)
    ensures CallOk(z, |y.calls|)
  {
    hide ClientTable, Delivered, QueueIs, Kept, ServerTable, ClientHello, ServerHello, RequestsOk, AcksOk;
    var k := |y.calls|;
    var obj := y.c.objs[r.on];
    assert ObjOk(cat, y, r.on);
    assert z.alloc[obj.seqNo - 1] == y.alloc[obj.seqNo - 1];
    if r.jumped {
      var j: nat :| j < k && y.calls[j].on == r.on && !y.calls[j].fate.Sent?;
      assert z.calls[j] == y.calls[j];
      assert Overtook(z, k, |y.c2s|);
    }
  }

  lemma CallSent(cat: Catalog, y: Sys, z: Sys, r: CallRec, made: seq<CObj>)
    requires Inv(cat, y) && Calls(cat, y, z, r, made)
    ensures forall p: nat :: |y.c2s| <= p < |z.c2s| ==> CMsgOk(z, p)
  {
    hide ClientTable, QueueIs, Kept, ClientHello, ServerHello, RequestsOk, AcksOk;
    assert ObjOk(cat, y, r.on);
    if y.c.objs[r.on].id != 0 {
      assert SObjOk(y, y.c.objs[r.on].id - 1);
    }
  }

  lemma CallMakesObject(cat: Catalog, y: Sys, z: Sys, r: CallRec, made: seq<CObj>)
    requires Inv(cat, y) && Calls(cat, y, z, r, made) && made != []
    ensures ObjOk(cat, z, |y.c.objs|)
  {
    assert ObjOk(cat, y, r.on);
    assert z.alloc[made[0].seqNo - 1] == Made(|y.calls|);
    assert FromCall(cat, z, made[0], |y.c.objs|, |y.calls|);
  }

  lemma CallQueues(cat: Catalog, y: Sys, z: Sys, r: CallRec, made: seq<CObj>)
    requires Inv(cat, y) && Calls(cat, y, z, r, made)
    ensures QueueIs(z, Parked(z.c)) && Kept(z)
  {
    hide Kept, ServerTable, ClientHello, ServerHello, RequestsOk, AcksOk, Delivered, Extends;
    CallKept(cat, y, z, r, made);
    CallExtends(cat, y, z, r, made);
    if y.c.objs[r.on].id != 0 {
      QueueFrame(y, z, Parked(y.c));
      assert Parked(z.c) == Parked(y.c) && z.c.queue == y.c.queue;
    } else {
      var d := ParkedCall(y.c.objs[r.on], r, |y.calls|);
      assert Parked(z.c) == Parked(y.c) + [d];
      Enqueue(y, z, Parked(y.c), d);
    }
  }

  lemma CallKept(cat: Catalog, y: Sys, z: Sys, r: CallRec, made: seq<CObj>)
    requires Inv(cat, y) && Calls(cat, y, z, r, made)
    ensures Kept(z)
  {
    hide QueueIs, ServerTable, ClientHello, ServerHello, RequestsOk, AcksOk, Delivered;
    if z.c.phase.Idle? || z.c.phase.Flushing? {
      forall i | 0 <= i < |z.c.queue| ensures WaitsForId(z, z.c.queue[i]) {
        if i < |y.c.queue| { assert WaitsForId(y, y.c.queue[i]); }
      }
    }
  }

  lemma Enqueue(y: Sys, z: Sys, q: seq<Deferred>, d: Deferred)
    requires QueueIs(y, q) && CallsGrow(y, z) && ObjsGrow(y, z)
    requires |z.calls| == |y.calls| + 1 && forall k :: 0 <= k < |y.calls| ==> z.calls[k] == y.calls[k]
    requires forall i :: 0 <= i < |y.c.objs| ==> y.c.objs[i].id == z.c.objs[i].id
    requires z.c.phase == y.c.phase && d.call == |y.calls| && ParkedOk(z, d)
    ensures QueueIs(z, q + [d])
  {
    var r := q + [d];
    forall i | 0 <= i < |q| ensures ParkedOk(z, q[i]) {
      assert ParkedOk(y, q[i]);
      assert SameObj(y.c.objs[y.calls[q[i].call].on], z.c.objs[y.calls[q[i].call].on]);
    }
    forall k: nat | k < |z.calls| && z.calls[k].fate.Waiting? ensures CallIn(r, k) {
      if k < |y.calls| {
        var i :| 0 <= i < |q| && q[i].call == k;
        assert r[i].call == k;
      } else {
        assert r[|q|].call == k;
      }
    }
  }

  lemma CallKeepsInv(cat: Catalog, y: Sys, o: nat, op: nat, args: seq<CallArg>)
    requires Inv(cat, y) && o < |y.c.objs| && (y.c.objs[o].id == 0 ==> Resting(y.c))
    ensures Inv(cat, DoCall(cat, y, o, op, args)) && Extends(y, DoCall(cat, y, o, op, args))
  {
    if Accepts(y.c.objs[o], op) {
      var r, made := DoCallIsCalls(cat, y, o, op, args);
      AcceptedCallKeepsInv(cat, y, DoCall(cat, y, o, op, args), r, made);
    }
  }

  lemma CallHistory(cat: Catalog, y: Sys, z: Sys, r: CallRec, made: seq<CObj>)
    requires Inv(cat, y) && Calls(cat, y, z, r, made)
    ensures History(cat, z) && Delivered(z) && ClientTable(z.c)
  {
    hide QueueIs, Kept, ServerTable, ClientHello, ServerHello, RequestsOk, AcksOk, ClientTable, Delivered, CallOk, CMsgOk;
    CallExtends(cat, y, z, r, made);
    CallTable(cat, y, z, r, made);
    CallRecorded(cat, y, z, r, made);
    CallSent(cat, y, z, r, made);
    if made != [] { CallMakesObject(cat, y, z, r, made); }
    QuietClientStep(cat, y, z);
  }

  lemma AcceptedCallKeepsInv(cat: Catalog, y: Sys, z: Sys, r: CallRec, made: seq<CObj>)
    requires Inv(cat, y) && Calls(cat, y, z, r, made)
    ensures Inv(cat, z) && Extends(y, z)
  {
    CallExtends(cat, y, z, r, made);
    CallHistory(cat, y, z, r, made);
    CallQueues(cat, y, z, r, made);
    HelloFrame(cat, y, z);
    AcksFrame(y, z);
  }

  lemma ExtendsTransitive(a: Sys, b: Sys, c: Sys)
    requires Extends(a, b) && Extends(b, c)
    requires |a.c.objs| <= |b.c.objs| && |a.alloc| <= |b.alloc|
    ensures Extends(a, c)
  {
    forall k | 0 <= k < |a.calls| ensures SameCall(a.calls[k], c.calls[k], |a.c2s|) {
      assert SameCall(a.calls[k], b.calls[k], |a.c2s|) && SameCall(b.calls[k], c.calls[k], |b.c2s|);
    }
    forall i | 0 <= i < |a.c.objs| ensures SameObj(a.c.objs[i], c.c.objs[i]) {
      assert SameObj(a.c.objs[i], b.c.objs[i]) && SameObj(b.c.objs[i], c.c.objs[i]);
    }
    forall i | |a.c.objs| <= i < |c.c.objs| ensures c.c.objs[i].seqNo > |a.alloc| {
      if i < |b.c.objs| { assert SameObj(b.c.objs[i], c.c.objs[i]); }
    }
    forall i | 0 <= i < |a.s.objs| ensures SameSObj(a.s.objs[i], c.s.objs[i]) {
      assert SameSObj(a.s.objs[i], b.s.objs[i]) && SameSObj(b.s.objs[i], c.s.objs[i]);
    }
  }

  lemma DropKeepsInv(cat: Catalog, y: Sys, o: nat)
    requires Inv(cat, y) && o < |y.c.objs|
    ensures Inv(cat, DropObject(cat, y, o)) && Extends(y, DropObject(cat, y, o))
  {
    hide Inv;
    match AutoDestructor(y.c.objs[o])
    case None =>
    case Some(m) => CallKeepsInv(cat, y, o, m, []);
  }

  lemma ReleaseKeepsInv(cat: Catalog, y: Sys, o: nat)
    requires Inv(cat, y) && Enabled(cat, y, AppRelease(o))
    ensures Inv(cat, Apply(cat, y, AppRelease(o))) && Extends(y, Apply(cat, y, AppRelease(o)))
  {
    hide History, Delivered, QueueIs, Kept, ServerTable, ClientHello, ServerHello, RequestsOk, AcksOk;
    var y1 := y.(c := y.c.(objs := y.c.objs[o := y.c.objs[o].(held := false)]));
    RelabelKeepsInv(cat, y, y1);
    DropKeepsInv(cat, y1, o);
    ExtendsTransitive(y, y1, DropObject(cat, y1, o));
  }

  lemma AcquireKeepsInv(cat: Catalog, y: Sys, o: nat)
    requires Inv(cat, y) && Enabled(cat, y, AppAcquire(o))
    ensures Inv(cat, Apply(cat, y, AppAcquire(o))) && Extends(y, Apply(cat, y, AppAcquire(o)))
  {
    hide ObjOk, CallOk, CMsgOk, SObjOk, SMsgOk, HandledOk;
    RelabelKeepsInv(cat, y, Apply(cat, y, AppAcquire(o)));
  }

  lemma CollectKeepsInv(cat: Catalog, y: Sys, o: nat)
    requires Inv(cat, y) && Enabled(cat, y, ClientCollect(o))
    ensures Inv(cat, Apply(cat, y, ClientCollect(o))) && Extends(y, Apply(cat, y, ClientCollect(o)))
  {
    hide ObjOk, CallOk, CMsgOk, SObjOk, SMsgOk, HandledOk;
    var y1 := y.(c := Discard(y.c, o));
    RetainIncreasing(y.c.table, {o});
    RelabelKeepsInv(cat, y, y1);
    DropKeepsInv(cat, y1, o);
    ExtendsTransitive(y, y1, DropObject(cat, y1, o));
  }
}
