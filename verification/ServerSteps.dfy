// Every step of the server keeps the invariant.
module ServerSteps {
  import opened Types
  import opened ClientModel
  import opened ServerModel
  import opened System
  import opened Invariant
  import Adverts

  /** What a server step leaves alone. */
  ghost predicate ClientSideSame(a: Sys, b: Sys) {
    && a.c == b.c && a.c2s == b.c2s && a.sRead == b.sRead && a.ackAt == b.ackAt
    && a.calls == b.calls && a.alloc == b.alloc && a.reqAt == b.reqAt
  }

  ghost predicate MarksBounded(y: Sys) {
    forall p :: 0 <= p < |y.handled| ==> y.handled[p].mark <= |y.s2c|
  }

  lemma HistoryMarks(cat: Catalog, y: Sys)
    requires History(cat, y)
    ensures MarksBounded(y)
  {
    forall p | 0 <= p < |y.handled| ensures y.handled[p].mark <= |y.s2c| {
      assert HandledOk(y, p);
    }
  }

  /** A server step: only its new objects, messages and processing record are left to check. */
  lemma QuietServerStep(cat: Catalog, a: Sys, b: Sys)
    requires Inv(cat, a) && Extends(a, b) && ClientSideSame(a, b) && Bounds(b)
    requires forall i: nat :: |a.s.objs| <= i < |b.s.objs| ==> SObjOk(b, i) && b.s.objs[i].at >= |a.s2c|
    requires forall p: nat :: |a.s2c| <= p < |b.s2c| ==> SMsgOk(b, p)
    requires forall p: nat :: |a.handled| <= p < |b.handled| ==> HandledOk(b, p)
    ensures History(cat, b) && Delivered(b)
    ensures ClientTable(b.c) && QueueIs(b, Parked(b.c)) && Kept(b)
  {
    HistoryStable(cat, a, b);
    ServerKeepsQueue(a, b);
    forall i, j | 0 <= i < |b.s.objs| && 0 <= j < |b.c.objs|
                  && b.s.objs[i].seqNo == b.c.objs[j].seqNo && b.s.objs[i].at < b.sRead
      ensures b.c.objs[j].id == i + 1
    {
      assert SameSObj(a.s.objs[i], b.s.objs[i]);
    }
  }

  lemma ServerKeepsQueue(a: Sys, b: Sys)
    requires QueueIs(a, Parked(a.c)) && Kept(a) && ClientSideSame(a, b)
    ensures QueueIs(b, Parked(b.c)) && Kept(b)
  {
    assert forall d :: ParkedOk(a, d) ==> ParkedOk(b, d);
    assert forall d :: WaitsForId(a, d) ==> WaitsForId(b, d);
  }

  /** No handshake message is sent: the handshake facts stand. */
  lemma ServerHelloFrame(cat: Catalog, a: Sys, b: Sys)
    requires ClientHello(a) && ServerHello(cat, a) && ClientSideSame(a, b) && Bounds(a)
    requires a.s2c <= b.s2c && a.cRead <= b.cRead && a.protoAt == b.protoAt && a.adv == b.adv
    requires forall p :: |a.s2c| <= p < |b.s2c| ==> !b.s2c[p].HandshakeBegin? && !b.s2c[p].HandshakeProtocols?
    requires a.cRead != 0 || (a.cRead == b.cRead && b.s2c == a.s2c && b.s.objs == a.s.objs && b.s.phase == a.s.phase)
    requires forall p :: a.cRead <= p < b.cRead <= |b.c2s| ==> !b.c2s[p].HandshakeAck?
    requires b.cRead <= |b.c2s|
    requires a.s.firstPoll == b.s.firstPoll && a.s.version == b.s.version && a.s.impls <= b.s.impls
    requires forall x :: x in b.s.impls && x !in a.s.impls ==> x.version < U32_LIMIT && x.name in cat
    ensures ClientHello(b) && ServerHello(cat, b)
  {
    assert forall p :: 0 <= p < |a.s2c| ==> b.s2c[p] == a.s2c[p];
  }

  /** Nothing about roundtrips is sent or processed. */
  lemma ServerAcksFrame(a: Sys, b: Sys)
    requires RequestsOk(a) && AcksOk(a) && ClientSideSame(a, b) && Bounds(a) && Bounds(b)
    requires a.s2c <= b.s2c && a.cRead <= b.cRead && a.handled <= b.handled
    requires forall p :: |a.s2c| <= p < |b.s2c| ==> !b.s2c[p].RoundtripDone?
    requires forall p :: a.cRead <= p < b.cRead ==> !b.c2s[p].RoundtripRequest?
    requires |a.handled| == |b.handled| || (|b.handled| == |a.handled| + 1 && b.handled[|a.handled|].mark == |b.s2c|)
    requires MarksBounded(a)
    requires a.s.scheduled == b.s.scheduled && a.s.acked == b.s.acked
    requires !b.s.phase && !b.s.aborted ==> b.s.scheduled == 0
    ensures RequestsOk(b) && AcksOk(b)
  {
    hide Inv, Extends;
    assert forall p :: 0 <= p < |a.s2c| ==> b.s2c[p] == a.s2c[p];
    assert forall p :: 0 <= p < |a.handled| ==> b.handled[p] == a.handled[p];
    assert forall k :: 0 <= k < |b.reqAt| ==> b.c2s[b.reqAt[k]].RoundtripRequest?;
  }

  // ---- processing one client message ----------------------------------------------

  ghost predicate Processes(y: Sys, z: Sys, made: seq<SObj>, out: seq<SMsg>) {
    && y.cRead < |y.c2s| && |made| <= 1
    && z.s.objs == y.s.objs + made && z.s.impls == y.s.impls && z.s.acked == y.s.acked
    && (y.s.error ==> z.s.error)
    && z == y.(s := z.s, s2c := y.s2c + out, cRead := y.cRead + 1,
               handled := y.handled + [Handled(|y.s2c| + |out|, if made == [] then 0 else |y.s.objs| + 1)],
               protoAt := z.protoAt, adv := z.adv)
  }

  /** Processing a message that creates nothing. */
  lemma ProcessHistory(cat: Catalog, y: Sys, z: Sys, out: seq<SMsg>)
    requires Inv(cat, y) && Processes(y, z, [], out)
    requires forall p: nat :: |y.s2c| <= p < |z.s2c| ==> SMsgOk(z, p)
    ensures Extends(y, z) && History(cat, z) && Delivered(z)
    ensures ClientTable(z.c) && QueueIs(z, Parked(z.c)) && Kept(z)
    ensures MarksBounded(y)
  {
    assert z.s.objs == y.s.objs;
    assert Extends(y, z);
    QuietServerStep(cat, y, z);
    HistoryMarks(cat, y);
  }

  /** The new object of a creating message. */
  ghost predicate Creation(cat: Catalog, y: Sys, o: SObj, n: nat) {
    && y.cRead < |y.c2s| && n == Creates(y.c2s[y.cRead]) && 0 < n <= |y.alloc|
    && o.seqNo == n && o.id == |y.s.objs| + 1 && o.cause == y.cRead && o.at == |y.s2c|
    && SameInterface(y, o) && RightVersion(y, o)
  }

  lemma CreateHistory(cat: Catalog, y: Sys, z: Sys, o: SObj, n: nat)
    requires Inv(cat, y) && Creation(cat, y, o, n) && Processes(y, z, [o], [NewObject(n, o.id)])
    ensures Extends(y, z) && History(cat, z) && Delivered(z)
    ensures ClientTable(z.c) && QueueIs(z, Parked(z.c)) && Kept(z)
    ensures MarksBounded(y)
  {
    hide ClientTable, QueueIs, Kept, ServerTable, ClientHello, ServerHello, RequestsOk, AcksOk;
    assert Extends(y, z);
    var i := |y.s.objs|;
    assert z.s.objs[i] == o && z.handled[y.cRead].made == i + 1;
    assert SObjOk(z, i);
    QuietServerStep(cat, y, z);
    HistoryMarks(cat, y);
  }

  /** The object a BindProtocol creates has the root interface its client object has. */
  lemma BindCreates(cat: Catalog, y: Sys, o: SObj, p: Name, n: nat, v: nat)
    requires History(cat, y) && y.cRead < |y.c2s| && y.c2s[y.cRead] == BindProtocol(p, n, v)
    requires o.seqNo == n && o.proto == p && o.iface == PickIface(cat, y.s.impls, p, [])
    ensures 0 < n <= |y.alloc| && SameInterface(y, o)
  {
    assert CMsgOk(y, y.cRead);
    forall j | 0 <= j < |y.c.objs| && y.c.objs[j].seqNo == n
      ensures y.c.objs[j].proto == p && o.iface == Some(y.c.objs[j].iface)
    {
      assert ObjOk(cat, y, j);
      assert FromBind(cat, y, y.c.objs[j], y.cRead);
    }
  }

  /** A request reaches the server object of the client object it was made on. */
  lemma RequestArrives(cat: Catalog, y: Sys, p: nat)
    requires History(cat, y) && p < |y.c2s| && y.c2s[p].Request?
    ensures var m := y.c2s[p];
      && m.call < |y.calls| && y.calls[m.call].on < |y.c.objs| && 1 <= m.target <= |y.s.objs|
      && var o := y.c.objs[y.calls[m.call].on];
      && var so := y.s.objs[m.target - 1];
      && so.seqNo == o.seqNo && so.proto == o.proto && so.iface == Some(o.iface)
      && m.op < |o.iface.c2s| && (m.ret != 0 <==> o.iface.c2s[m.op].creates != [])
      && Registered(y.s.impls, o.proto) && o.proto in cat
  {
    assert CMsgOk(y, p);
    var m := y.c2s[p];
    assert CallOk(y, m.call);
    var on := y.calls[m.call].on;
    assert ObjOk(cat, y, on);
    assert SObjOk(y, m.target - 1);
  }

  /** `o` is what dispatching request `m` to `so` creates. */
  ghost predicate MadeBy(cat: Catalog, y: Sys, o: SObj, m: CMsg, so: SObj)
    requires m.Request?
  {
    && m.ret != 0 && o.seqNo == m.ret && so.iface.Some? && m.op < |so.iface.value.c2s|
    && o.proto == so.proto && o.iface == PickIface(cat, y.s.impls, so.proto, so.iface.value.c2s[m.op].creates)
  }

  /** The object a request creates has the interface its client object has. */
  lemma RequestCreates(cat: Catalog, y: Sys, o: SObj)
    requires History(cat, y) && y.cRead < |y.c2s| && y.c2s[y.cRead].Request?
    requires 1 <= y.c2s[y.cRead].target <= |y.s.objs|
    requires MadeBy(cat, y, o, y.c2s[y.cRead], y.s.objs[y.c2s[y.cRead].target - 1])
    ensures 0 < o.seqNo <= |y.alloc| && SameInterface(y, o)
  {
    RequestArrives(cat, y, y.cRead);
    var m := y.c2s[y.cRead];
    assert CMsgOk(y, y.cRead) && CallOk(y, m.call);
    forall j | 0 <= j < |y.c.objs| && y.c.objs[j].seqNo == m.ret
      ensures y.c.objs[j].proto == o.proto && o.iface == Some(y.c.objs[j].iface)
    {
      assert ObjOk(cat, y, j);
      assert FromCall(cat, y, y.c.objs[j], j, m.call);
    }
  }

  lemma SupShape(cat: Catalog, y: Sys, z: Sys)
    requires Enabled(cat, y, ServerHandleNext) && z == Apply(cat, y, ServerHandleNext)
    requires y.c2s[y.cRead].Sup?
    ensures Processes(y, z, [], [HandshakeBegin([PROTOCOL_VERSION])])
    ensures z.s == y.s.(phase := true, firstPoll := true) && z.protoAt == y.protoAt && z.adv == y.adv
  {
    assert y.s.objs + [] == y.s.objs;
  }

  lemma SupHello(cat: Catalog, y: Sys, z: Sys)
    requires ClientHello(y) && ServerHello(cat, y) && Bounds(y) && y.cRead < |y.c2s| && y.c2s[y.cRead].Sup?
    requires Processes(y, z, [], [HandshakeBegin([PROTOCOL_VERSION])])
    requires z.s == y.s.(phase := true, firstPoll := true) && z.protoAt == y.protoAt && z.adv == y.adv
    ensures ClientHello(z) && ServerHello(cat, z)
  {
    assert y.cRead == 0 && y.s2c == [];
  }

  lemma ProcessSup(cat: Catalog, y: Sys, z: Sys)
    requires Inv(cat, y) && Enabled(cat, y, ServerHandleNext) && z == Apply(cat, y, ServerHandleNext)
    requires y.c2s[y.cRead].Sup?
    ensures Inv(cat, z) && Extends(y, z)
  {
    hide ClientTable, Delivered, QueueIs, Kept, ClientHello, ServerHello;
    SupShape(cat, y, z);
    ProcessHistory(cat, y, z, [HandshakeBegin([PROTOCOL_VERSION])]);
    SupHello(cat, y, z);
    ServerAcksFrame(y, z);
  }

  lemma AckShape(cat: Catalog, y: Sys, z: Sys)
    requires Enabled(cat, y, ServerHandleNext) && z == Apply(cat, y, ServerHandleNext)
    requires y.c2s[y.cRead].HandshakeAck?
    ensures Processes(y, z, [], [HandshakeProtocols(Adverts.FormatAll(y.s.impls))])
    ensures z.s == y.s.(phase := true, version := y.c2s[y.cRead].version)
    ensures z.protoAt == |y.s2c| && z.adv == y.s.impls
  {
    assert y.s.objs + [] == y.s.objs;
  }

  lemma AckHello(cat: Catalog, y: Sys, z: Sys)
    requires ClientHello(y) && ServerHello(cat, y) && Bounds(y) && y.cRead < |y.c2s| && y.c2s[y.cRead].HandshakeAck?
    requires Processes(y, z, [], [HandshakeProtocols(Adverts.FormatAll(y.s.impls))])
    requires z.s == y.s.(phase := true, version := y.c2s[y.cRead].version)
    requires z.protoAt == |y.s2c| && z.adv == y.s.impls
    ensures ClientHello(z) && ServerHello(cat, z)
  {
    assert y.cRead == y.ackAt && y.c2s[0] == Sup;
    assert y.s2c != [];
    assert z.s2c[0] == y.s2c[0];
  }

  lemma ProcessAck(cat: Catalog, y: Sys, z: Sys)
    requires Inv(cat, y) && Enabled(cat, y, ServerHandleNext) && z == Apply(cat, y, ServerHandleNext)
    requires y.c2s[y.cRead].HandshakeAck?
    ensures Inv(cat, z) && Extends(y, z)
  {
    hide ServerHello, AcksOk, Apply;
    AckShape(cat, y, z);
    ProcessHistory(cat, y, z, [HandshakeProtocols(Adverts.FormatAll(y.s.impls))]);
    AckHello(cat, y, z);
    ServerAcksFrame(y, z);
  }

  lemma RoundtripShape(cat: Catalog, y: Sys, z: Sys)
    requires Enabled(cat, y, ServerHandleNext) && z == Apply(cat, y, ServerHandleNext)
    requires y.c2s[y.cRead].RoundtripRequest?
    ensures z == y.(s := y.s.(phase := true, scheduled := y.c2s[y.cRead].token), cRead := y.cRead + 1,
                    handled := y.handled + [Handled(|y.s2c|, 0)])
    ensures Processes(y, z, [], [])
  {
    assert y.s.objs + [] == y.s.objs && y.s2c + [] == y.s2c;
  }

  lemma ProcessRoundtrip(cat: Catalog, y: Sys, z: Sys)
    requires Inv(cat, y) && Enabled(cat, y, ServerHandleNext) && z == Apply(cat, y, ServerHandleNext)
    requires y.c2s[y.cRead].RoundtripRequest?
    ensures Inv(cat, z) && Extends(y, z)
  {
    RoundtripShape(cat, y, z);
    ProcessHistory(cat, y, z, []);
    NotHello(cat, y, z);
    assert CMsgOk(y, y.cRead);
    RoundtripScheduled(y, z);
  }

  /** Anything but the handshake leaves it alone; in particular it comes after the hello. */
  lemma NotHello(cat: Catalog, y: Sys, z: Sys)
    requires ClientHello(y) && ServerHello(cat, y) && Bounds(y) && Bounds(z)
    requires y.cRead < |y.c2s| && !y.c2s[y.cRead].Sup? && !y.c2s[y.cRead].HandshakeAck?
    requires ClientSideSame(y, z) && y.s2c <= z.s2c && z.cRead == y.cRead + 1
    requires forall p :: |y.s2c| <= p < |z.s2c| ==> !z.s2c[p].HandshakeBegin? && !z.s2c[p].HandshakeProtocols?
    requires y.protoAt == z.protoAt && y.adv == z.adv && y.s.impls == z.s.impls
    requires y.s.firstPoll == z.s.firstPoll && y.s.version == z.s.version
    ensures ClientHello(z) && ServerHello(cat, z)
  {
    assert y.cRead != 0;
    ServerHelloFrame(cat, y, z);
  }

  lemma RoundtripScheduled(y: Sys, z: Sys)
    requires RequestsOk(y) && AcksOk(y) && Bounds(y) && y.cRead < |y.c2s| && CMsgOk(y, y.cRead)
    requires y.c2s[y.cRead].RoundtripRequest? && MarksBounded(y)
    requires z == y.(s := y.s.(phase := true, scheduled := y.c2s[y.cRead].token), cRead := y.cRead + 1,
                     handled := y.handled + [Handled(|y.s2c|, 0)])
    ensures RequestsOk(z) && AcksOk(z)
  {
    var k := y.c2s[y.cRead].token;
    assert y.reqAt[k - 1] == y.cRead;
    assert forall i :: 0 <= i < |y.reqAt| && y.reqAt[i] < z.cRead ==> i <= k - 1;
    assert y.s.acked != 0 ==> y.reqAt[y.s.acked - 1] < y.reqAt[k - 1];
  }
}
