// The client reads one server message, or flushes one parked request.
module ClientReads {
  import opened Types
  import opened ClientModel
  import opened ServerModel
  import opened System
  import opened Invariant
  import opened ClientSteps
  import Adverts

  /** At most one message ever asks for the object of a sequence number. */
  lemma CreatorUnique(cat: Catalog, y: Sys, p: nat, q: nat)
    requires History(cat, y) && p < |y.c2s| && q < |y.c2s|
    requires Creates(y.c2s[p]) == Creates(y.c2s[q]) != 0
    ensures p == q
  {
    assert CMsgOk(y, p) && CMsgOk(y, q);
    var n := Creates(y.c2s[p]);
    if y.c2s[p].Request? {
      assert CallOk(y, y.c2s[p].call);
      assert y.alloc[n - 1] == Made(y.c2s[p].call);
    }
    if y.c2s[q].Request? {
      assert CallOk(y, y.c2s[q].call);
      assert y.alloc[n - 1] == Made(y.c2s[q].call);
    }
  }

  /** The server creates at most one object per sequence number. */
  lemma AnswerUnique(cat: Catalog, y: Sys, i: nat, j: nat)
    requires History(cat, y) && i < |y.s.objs| && j < |y.s.objs|
    requires y.s.objs[i].seqNo == y.s.objs[j].seqNo
    ensures i == j
  {
    assert SObjOk(y, i) && SObjOk(y, j);
    CreatorUnique(cat, y, y.s.objs[i].cause, y.s.objs[j].cause);
  }

  /** The client side of a reading step: nothing is sent but possibly the handshake ack. */
  ghost predicate Reads(y: Sys, z: Sys) {
    && ServerSideSame(y, z) && y.sRead < |y.s2c| && z.sRead == y.sRead + 1
    && y.c2s <= z.c2s && z.calls == y.calls && z.alloc == y.alloc && z.reqAt == y.reqAt
    && z.c.seqNo == y.c.seqNo && z.c.lastSent == y.c.lastSent
    && z.c.queue == y.c.queue && z.c.pending == y.c.pending && z.c.phase.Handling?
    && |z.c.objs| == |y.c.objs| && ObjsGrow(y, z)
  }

  lemma ReadsExtends(y: Sys, z: Sys)
    requires Reads(y, z)
    ensures Extends(y, z)
  {
  }

  lemma ReadsQueue(y: Sys, z: Sys)
    requires QueueIs(y, Parked(y.c)) && Reads(y, z)
    ensures QueueIs(z, Parked(z.c)) && Kept(z)
  {
    forall i | 0 <= i < |Parked(y.c)| ensures ParkedOk(z, Parked(y.c)[i]) {
      var d := Parked(y.c)[i];
      assert ParkedOk(y, d);
      assert SameObj(y.c.objs[y.calls[d.call].on], z.c.objs[y.calls[d.call].on]);
    }
  }

  /** Reading anything but a NewObject resolves no id. */
  lemma ReadsHistory(cat: Catalog, y: Sys, z: Sys)
    requires History(cat, y) && Delivered(y) && Reads(y, z) && !y.s2c[y.sRead].NewObject?
    requires forall i :: 0 <= i < |y.c.objs| ==> z.c.objs[i].id == y.c.objs[i].id
    requires forall p: nat :: |y.c2s| <= p < |z.c2s| ==> CMsgOk(z, p)
    ensures History(cat, z) && Delivered(z)
  {
    ReadsExtends(y, z);
    HistoryStable(cat, y, z);
    forall i, j | 0 <= i < |z.s.objs| && 0 <= j < |z.c.objs|
                  && z.s.objs[i].seqNo == z.c.objs[j].seqNo && z.s.objs[i].at < z.sRead
      ensures z.c.objs[j].id == i + 1
    {
      assert SObjOk(y, i);
      assert SameObj(y.c.objs[j], z.c.objs[j]);
    }
  }

  /** Reading anything but handshake messages leaves the handshake alone. */
  lemma ReadsHello(cat: Catalog, y: Sys, z: Sys)
    requires ClientHello(y) && ServerHello(cat, y) && Bounds(y) && Reads(y, z) && z.c2s == y.c2s
    requires z.ackAt == y.ackAt && z.c.handshakeDone == y.c.handshakeDone && z.c.specs == y.c.specs
    requires !y.s2c[y.sRead].HandshakeBegin? && !y.s2c[y.sRead].HandshakeProtocols?
    ensures ClientHello(z) && ServerHello(cat, z)
  {
    assert y.sRead != 0;
  }

  lemma ReadsAcks(y: Sys, z: Sys)
    requires RequestsOk(y) && AcksOk(y) && Bounds(y) && Reads(y, z) && z.c.lastAckd == y.c.lastAckd
    requires !y.s2c[y.sRead].RoundtripDone?
    ensures RequestsOk(z) && AcksOk(z)
  {
    assert forall p :: 0 <= p < |y.c2s| ==> z.c2s[p] == y.c2s[p];
  }

  lemma ReadBegin(cat: Catalog, y: Sys, z: Sys)
    requires Inv(cat, y) && Enabled(cat, y, ClientHandle) && z == Apply(cat, y, ClientHandle)
    requires y.s2c[y.sRead].HandshakeBegin?
    ensures Inv(cat, z) && Extends(y, z)
  {
    hide Delivered, AcksOk, Extends;
    assert y.sRead == 0 && y.s2c[0] == HandshakeBegin([PROTOCOL_VERSION]);
    assert PROTOCOL_VERSION in [PROTOCOL_VERSION];
    assert z.c2s == y.c2s + [HandshakeAck(PROTOCOL_VERSION)];
    ReadsExtends(y, z);
    ReadsHistory(cat, y, z);
    ReadsQueue(y, z);
    ReadsAcks(y, z);
    assert forall p :: 0 <= p < |y.c2s| ==> z.c2s[p] == y.c2s[p];
    assert y.ackAt == 0;
    assert ClientHello(z);
  }

  lemma ReadProtocols(cat: Catalog, y: Sys, z: Sys)
    requires Inv(cat, y) && Enabled(cat, y, ClientHandle) && z == Apply(cat, y, ClientHandle)
    requires y.s2c[y.sRead].HandshakeProtocols? && !Unspeakable(y.s2c[y.sRead])
    ensures Inv(cat, z) && Extends(y, z)
  {
    ProtocolsRead(cat, y, z);
    ReadsExtends(y, z);
    ReadsHistory(cat, y, z);
    ReadsQueue(y, z);
    ReadsAcks(y, z);
  }

  lemma ProtocolsRead(cat: Catalog, y: Sys, z: Sys)
    requires ClientHello(y) && ServerHello(cat, y) && ClientTable(y.c) && Bounds(y)
    requires Enabled(cat, y, ClientHandle) && z == Apply(cat, y, ClientHandle)
    requires y.s2c[y.sRead].HandshakeProtocols? && !Unspeakable(y.s2c[y.sRead])
    ensures Reads(y, z) && ClientHello(z) && ServerHello(cat, z)
    ensures z.c2s == y.c2s && z.c.objs == y.c.objs && z.c.table == y.c.table && z.c.lastAckd == y.c.lastAckd
  {
    hide ServerHello, ClientHello, ClientTable, Adverts.Format, Adverts.ParseAll, Adverts.FormatAll;
    ListRead(cat, y);
    ListShape(cat, y, z);
    ListHello(cat, y, z);
  }

  /** The list read is the one advertised, and it parses back. */
  lemma ListRead(cat: Catalog, y: Sys)
    requires ClientHello(y) && ServerHello(cat, y) && Bounds(y)
    requires y.sRead < |y.s2c| && y.s2c[y.sRead].HandshakeProtocols?
    ensures y.sRead == y.protoAt && y.c.specs == []
    ensures Adverts.ParseAll(y.s2c[y.sRead].protocols) == y.adv
  {
    assert forall a :: a in y.adv ==> a in y.s.impls;
    Adverts.AdvertisedRoundTrip(y.adv);
  }

  lemma ListShape(cat: Catalog, y: Sys, z: Sys)
    requires Enabled(cat, y, ClientHandle) && z == Apply(cat, y, ClientHandle)
    requires y.s2c[y.sRead].HandshakeProtocols? && y.c.specs == [] && !Unspeakable(y.s2c[y.sRead])
    ensures Reads(y, z) && z.c2s == y.c2s
    ensures z.c == y.c.(phase := Handling, handshakeDone := true, specs := Adverts.ParseAll(y.s2c[y.sRead].protocols))
    ensures z == y.(c := z.c, sRead := z.sRead, handler := z.handler)
  {
    assert y.c2s + [] == y.c2s;
  }

  lemma ListHello(cat: Catalog, y: Sys, z: Sys)
    requires ClientHello(y) && ServerHello(cat, y) && y.sRead < |y.s2c| && y.sRead == y.protoAt
    requires y.s2c[y.sRead].HandshakeProtocols?
    requires z == y.(c := y.c.(phase := Handling, handshakeDone := true, specs := y.adv), sRead := y.sRead + 1, handler := z.handler)
    ensures ClientHello(z) && ServerHello(cat, z)
  {
    assert y.s2c[0].HandshakeBegin?;
  }

  lemma ReadNewObject(cat: Catalog, y: Sys, z: Sys)
    requires Inv(cat, y) && Enabled(cat, y, ClientHandle) && z == Apply(cat, y, ClientHandle)
    requires y.s2c[y.sRead].NewObject?
    ensures Inv(cat, z) && Extends(y, z)
  {
    assert z.c2s == y.c2s;
    NewObjectResolves(cat, y, z, y.s2c[y.sRead].newSeq, y.s2c[y.sRead].newId);
    ReadsExtends(y, z);
    NewObjectHistory(cat, y, z, y.s2c[y.sRead].newSeq, y.s2c[y.sRead].newId);
    ReadsQueue(y, z);
    ReadsHello(cat, y, z);
    ReadsAcks(y, z);
  }

  /** An object already resolved is never resolved again: it was answered earlier. */
  lemma UnansweredIsUnresolved(cat: Catalog, y: Sys, n: nat, id: nat, j: nat)
    requires History(cat, y) && y.sRead < |y.s2c| && y.s2c[y.sRead] == NewObject(n, id)
    requires j < |y.c.objs| && y.c.objs[j].seqNo == n
    ensures y.c.objs[j].id == 0
  {
    assert SMsgOk(y, y.sRead) && ObjOk(cat, y, j);
    if y.c.objs[j].id != 0 {
      AnswerUnique(cat, y, id - 1, y.c.objs[j].id - 1);
    }
  }

  /** NewObject resolves exactly the object of its sequence number, if there is one. */
  lemma NewObjectResolves(cat: Catalog, y: Sys, z: Sys, n: nat, id: nat)
    requires History(cat, y) && ClientTable(y.c)
    requires Enabled(cat, y, ClientHandle) && z == Apply(cat, y, ClientHandle)
    requires y.s2c[y.sRead] == NewObject(n, id)
    ensures Reads(y, z)
    ensures forall i :: 0 <= i < |y.c.objs| ==>
      z.c.objs[i] == if y.c.objs[i].seqNo == n then y.c.objs[i].(id := id) else y.c.objs[i]
    ensures z.c == y.c.(objs := z.c.objs, phase := Handling) && z.ackAt == y.ackAt
    ensures ClientTable(z.c)
  {
    hide ObjOk, CallOk, CMsgOk, SObjOk, HandledOk, ClientTable;
    assert SMsgOk(y, y.sRead);
    forall j: nat | j < |y.c.objs| && y.c.objs[j].seqNo == n ensures y.c.objs[j].id == 0 {
      UnansweredIsUnresolved(cat, y, n, id, j);
    }
    UnresolvedResolves(cat, y, z, n, id);
  }

  lemma UnresolvedResolves(cat: Catalog, y: Sys, z: Sys, n: nat, id: nat)
    requires Bounds(y) && ClientTable(y.c)
    requires Enabled(cat, y, ClientHandle) && z == Apply(cat, y, ClientHandle)
    requires y.s2c[y.sRead] == NewObject(n, id) && SMsgOk(y, y.sRead)
    requires forall j: nat :: j < |y.c.objs| && y.c.objs[j].seqNo == n ==> y.c.objs[j].id == 0
    ensures Reads(y, z)
    ensures forall i :: 0 <= i < |y.c.objs| ==>
      z.c.objs[i] == if y.c.objs[i].seqNo == n then y.c.objs[i].(id := id) else y.c.objs[i]
    ensures z.c == y.c.(objs := z.c.objs, phase := Handling) && z.ackAt == y.ackAt
    ensures ClientTable(z.c)
  {
    hide First, OnSeq;
    OnSeqResolves(y.c.(phase := Handling), n, id);
  }

  lemma OnSeqResolves(c: Client, n: nat, id: nat)
    requires ClientTable(c) && id != 0
    requires forall j: nat :: j < |c.objs| && c.objs[j].seqNo == n ==> c.objs[j].id == 0
    ensures var d := OnSeq(c, n, id);
      && d == c.(objs := d.objs) && |d.objs| == |c.objs| && ClientTable(d)
      && forall i :: 0 <= i < |c.objs| ==> d.objs[i] == if c.objs[i].seqNo == n then c.objs[i].(id := id) else c.objs[i]
  {
    assert forall j: nat :: j < |c.objs| && c.objs[j].seqNo == n ==> j in SeqIs(c.objs, n) && j in c.table;
    match First(c.table, SeqIs(c.objs, n))
    case None =>
    case Some(i) =>
      assert c.objs[i].seqNo == n;
      forall j: nat | j < |c.objs| && c.objs[j].seqNo == n ensures j == i {}
  }

  lemma NewObjectHistory(cat: Catalog, y: Sys, z: Sys, n: nat, id: nat)
    requires History(cat, y) && Delivered(y) && Reads(y, z) && Extends(y, z) && z.c2s == y.c2s
    requires y.s2c[y.sRead] == NewObject(n, id)
    requires forall i :: 0 <= i < |y.c.objs| ==>
      z.c.objs[i] == if y.c.objs[i].seqNo == n then y.c.objs[i].(id := id) else y.c.objs[i]
    ensures History(cat, z) && Delivered(z)
  {
    assert SMsgOk(y, y.sRead);
    HistoryStable(cat, y, z);
    forall i: nat | i < |y.c.objs| ensures ObjOk(cat, z, i) {
      assert ObjOk(cat, y, i);
      if y.c.objs[i].seqNo == n {
        ResolvedObjOk(cat, y, z, i, id);
      }
    }
    forall i, j | 0 <= i < |z.s.objs| && 0 <= j < |z.c.objs|
                  && z.s.objs[i].seqNo == z.c.objs[j].seqNo && z.s.objs[i].at < z.sRead
      ensures z.c.objs[j].id == i + 1
    {
      assert SObjOk(y, i);
      if z.c.objs[j].seqNo == n { AnswerUnique(cat, y, i, id - 1); }
    }
  }

  lemma ResolvedObjOk(cat: Catalog, y: Sys, z: Sys, i: nat, id: nat)
    requires i < |y.c.objs| && i < |z.c.objs| && ObjOk(cat, y, i) && Extends(y, z)
    requires z.c.objs[i] == y.c.objs[i].(id := id) && Answered(z, y.c.objs[i].seqNo, id)
    ensures ObjOk(cat, z, i)
  {
    var o := y.c.objs[i];
    assert z.alloc[o.seqNo - 1] == y.alloc[o.seqNo - 1];
    assert Registered(z.s.impls, o.proto) by {
      var x :| x in y.s.impls && x.name == o.proto;
      assert x in z.s.impls;
    }
    match y.alloc[o.seqNo - 1]
    case Bound(p) => assert y.c2s[p] == z.c2s[p];
    case Made(k) =>
      assert SameCall(y.calls[k], z.calls[k], |y.c2s|);
      assert SameObj(y.c.objs[y.calls[k].on], z.c.objs[y.calls[k].on]);
  }

  lemma ReadEvent(cat: Catalog, y: Sys, z: Sys)
    requires Inv(cat, y) && Enabled(cat, y, ClientHandle) && z == Apply(cat, y, ClientHandle)
    requires y.s2c[y.sRead].Event? && !Unspeakable(y.s2c[y.sRead])
    ensures Inv(cat, z) && Extends(y, z)
  {
    EventRead(cat, y, z, y.s2c[y.sRead].source);
    ReadsExtends(y, z);
    ReadsHistory(cat, y, z);
    ReadsQueue(y, z);
    ReadsHello(cat, y, z);
    ReadsAcks(y, z);
  }

  /** An event changes destroyed bits and removes resolved objects, nothing else. */
  lemma OnGenericRelabels(c: Client, x: nat, m: nat)
    requires ClientTable(c)
    ensures var d := OnGeneric(c, x, m);
      && d == c.(objs := d.objs, table := d.table, error := d.error)
      && |d.objs| == |c.objs|
      && (forall i :: 0 <= i < |c.objs| ==> d.objs[i] == c.objs[i].(destroyed := d.objs[i].destroyed))
      && Increasing(d.table) && (forall i :: i in d.table ==> i in c.table)
      && (forall i: nat :: i < |c.objs| && c.objs[i].id == 0 ==> i in d.table)
  {
    var d := OnGeneric(c, x, m);
    RetainIncreasing(c.table, IdIs(d.objs, x));
  }

  lemma EventRead(cat: Catalog, y: Sys, z: Sys, x: nat)
    requires ClientTable(y.c) && Bounds(y)
    requires Enabled(cat, y, ClientHandle) && z == Apply(cat, y, ClientHandle)
    requires y.s2c[y.sRead].Event? && y.s2c[y.sRead].source == x && !Unspeakable(y.s2c[y.sRead])
    ensures Reads(y, z) && ClientTable(z.c)
    ensures forall i :: 0 <= i < |y.c.objs| ==>
      z.c.objs[i] == y.c.objs[i].(destroyed := z.c.objs[i].destroyed)
    ensures z.c == y.c.(objs := z.c.objs, table := z.c.table, error := z.c.error, phase := Handling)
    ensures z.c2s == y.c2s && z.ackAt == y.ackAt
  {
    var h := y.c.(phase := Handling);
    OnGenericRelabels(h, x, y.s2c[y.sRead].event);
    assert z.c == OnGeneric(h, x, y.s2c[y.sRead].event);
    assert z.c2s == y.c2s;
  }

  lemma ReadFatal(cat: Catalog, y: Sys, z: Sys)
    requires Inv(cat, y) && Enabled(cat, y, ClientHandle) && z == Apply(cat, y, ClientHandle)
    requires y.s2c[y.sRead].FatalProtocolError?
    ensures Inv(cat, z) && Extends(y, z)
  {
    hide QueueIs, Kept, ClientHello, ServerHello, RequestsOk, AcksOk;
    assert z.c2s == y.c2s;
    ReadsExtends(y, z);
    ReadsHistory(cat, y, z);
    ReadsQueue(y, z);
    ReadsHello(cat, y, z);
    ReadsAcks(y, z);
  }

  lemma ReadDone(cat: Catalog, y: Sys, z: Sys)
    requires Inv(cat, y) && Enabled(cat, y, ClientHandle) && z == Apply(cat, y, ClientHandle)
    requires y.s2c[y.sRead].RoundtripDone?
    ensures Inv(cat, z) && Extends(y, z)
  {
    hide Delivered, ServerHello, RequestsOk, AcksOk;
    assert z.c2s == y.c2s;
    ReadsExtends(y, z);
    ReadsHistory(cat, y, z);
    ReadsQueue(y, z);
    ReadsHello(cat, y, z);
    DoneRead(y, z);
  }

  lemma DoneRead(y: Sys, z: Sys)
    requires RequestsOk(y) && AcksOk(y) && Bounds(y) && Reads(y, z) && z.c2s == y.c2s
    requires y.s2c[y.sRead].RoundtripDone? && z.c.lastAckd == y.s2c[y.sRead].done
    ensures RequestsOk(z) && AcksOk(z)
  {
    assert z.s2c[y.sRead] == RoundtripDone(z.c.lastAckd);
  }

  /** A message the loop fails on changes nothing but the phase and the error flag. */
  lemma FailureKeepsInv(cat: Catalog, y: Sys)
    requires Inv(cat, y) && Enabled(cat, y, ClientHandle) && Unspeakable(y.s2c[y.sRead])
    ensures Inv(cat, Apply(cat, y, ClientHandle)) && Extends(y, Apply(cat, y, ClientHandle))
  {
    hide Unspeakable, ObjOk, CallOk, CMsgOk, SObjOk, SMsgOk, HandledOk, ServerTable, ServerHello;
    PhaseKeepsInv(cat, y, Apply(cat, y, ClientHandle));
  }

  lemma HandleKeepsInv(cat: Catalog, y: Sys)
    requires Inv(cat, y) && Enabled(cat, y, ClientHandle)
    ensures Inv(cat, Apply(cat, y, ClientHandle)) && Extends(y, Apply(cat, y, ClientHandle))
  {
    hide Unspeakable, Handle;
    var z := Apply(cat, y, ClientHandle);
    if Unspeakable(y.s2c[y.sRead]) {
      FailureKeepsInv(cat, y);
      return;
    }
    match y.s2c[y.sRead]
    case HandshakeBegin(_) => ReadBegin(cat, y, z);
    case HandshakeProtocols(_) => ReadProtocols(cat, y, z);
    case NewObject(_, _) => ReadNewObject(cat, y, z);
    case Event(_, _, _) => ReadEvent(cat, y, z);
    case FatalProtocolError(_) => ReadFatal(cat, y, z);
    case RoundtripDone(_) => ReadDone(cat, y, z);
  }

  // ---- flushing ------------------------------------------------------------------

  lemma StartFlushKeepsInv(cat: Catalog, y: Sys)
    requires Inv(cat, y) && Enabled(cat, y, ClientStartFlush)
    ensures Inv(cat, Apply(cat, y, ClientStartFlush)) && Extends(y, Apply(cat, y, ClientStartFlush))
  {
    hide ObjOk, CallOk, CMsgOk, SObjOk, SMsgOk, HandledOk;
    var z := Apply(cat, y, ClientStartFlush);
    assert Parked(z.c) == Parked(y.c);
    PhaseKeepsInv(cat, y, z);
  }

  lemma FinishFlushKeepsInv(cat: Catalog, y: Sys)
    requires Inv(cat, y) && Enabled(cat, y, ClientFinishFlush)
    ensures Inv(cat, Apply(cat, y, ClientFinishFlush)) && Extends(y, Apply(cat, y, ClientFinishFlush))
  {
    var z := Apply(cat, y, ClientFinishFlush);
    forall i | 0 <= i < |z.c.queue| ensures WaitsForId(z, z.c.queue[i]) {
      assert WaitsForId(y, y.c.queue[i]);
    }
    PhaseKeepsInv(cat, y, z);
  }

  lemma PhaseKeepsInv(cat: Catalog, y: Sys, z: Sys)
    requires Inv(cat, y)
    requires z == y.(c := y.c.(phase := z.c.phase, queue := z.c.queue, pending := z.c.pending, error := z.c.error))
    requires Parked(z.c) == Parked(y.c) && Kept(z)
    requires (z.c.phase.Flushing? || z.c.pending == []) && (z.c.phase.Failed? ==> z.c.error)
    ensures Inv(cat, z) && Extends(y, z)
  {
    assert Extends(y, z);
    QuietClientStep(cat, y, z);
    QueueFrame(y, z, Parked(y.c));
    HelloFrame(cat, y, z);
    AcksFrame(y, z);
  }

  /** What a flush finds for a parked request: its object, or nothing if that was
      destroyed. */
  lemma FlushLookup(y: Sys, d: Deferred)
    requires ClientTable(y.c) && ParkedOk(y, d)
    ensures var on := y.calls[d.call].on;
      First(y.c.table, SeqIs(y.c.objs, d.dep)) == (if on in y.c.table then Some(on) else None)
    ensures y.calls[d.call].on !in y.c.table ==> y.c.objs[y.calls[d.call].on].id != 0
  {
    var on := y.calls[d.call].on;
    assert on in SeqIs(y.c.objs, d.dep);
    assert forall i: nat :: i in SeqIs(y.c.objs, d.dep) ==> i == on;
  }

  /** The state after a flush turn that decided the fate of the request at its head. */
  ghost predicate Decides(y: Sys, z: Sys, d: Deferred, fate: Fate) {
    && y.c.pending != [] && d == y.c.pending[0] && ParkedOk(y, d) && !fate.Waiting?
    && y.c.phase.Flushing?
    && var on := y.calls[d.call].on;
    && y.c.objs[on].id != 0
    && (fate.Sent? ==> fate.pos == |y.c2s|)
    && (fate.Dropped? ==> on !in y.c.table)
    && z == y.(c := y.c.(pending := y.c.pending[1..]),
               c2s := y.c2s + (if fate.Sent? then [Request(y.c.objs[on].id, d.op, d.ret, d.args, d.call)] else []),
               calls := y.calls[d.call := y.calls[d.call].(fate := fate)])
  }

  lemma DecideExtends(cat: Catalog, y: Sys, z: Sys, d: Deferred, fate: Fate)
    requires Inv(cat, y) && Decides(y, z, d, fate)
    ensures Extends(y, z)
  {
  }

  lemma DecideRecorded(cat: Catalog, y: Sys, z: Sys, d: Deferred, fate: Fate)
    requires History(cat, y) && Decides(y, z, d, fate)
    ensures CallOk(z, d.call)
    ensures forall p: nat :: |y.c2s| <= p < |z.c2s| ==> CMsgOk(z, p)
  {
    var on := y.calls[d.call].on;
    assert CallOk(y, d.call) && ObjOk(cat, y, on);
    assert SObjOk(y, y.c.objs[on].id - 1);
  }

  lemma Dequeue(y: Sys, z: Sys, q: seq<Deferred>, i: nat)
    requires QueueIs(y, q) && i < |q| && z.c.objs == y.c.objs && |z.calls| == |y.calls|
    requires forall k :: 0 <= k < |y.calls| && k != q[i].call ==> z.calls[k] == y.calls[k]
    requires ParkedOk(y, q[i]) && !z.calls[q[i].call].fate.Waiting?
    ensures QueueIs(z, q[..i] + q[i + 1..])
  {
    hide InCallOrder;
    var r := q[..i] + q[i + 1..];
    OrderWithout(q, i);
    forall j | 0 <= j < |r| ensures ParkedOk(z, r[j]) {
      OtherCall(q, i, if j < i then j else j + 1);
      assert ParkedOk(y, q[if j < i then j else j + 1]);
    }
    forall k: nat | k < |z.calls| && z.calls[k].fate.Waiting? ensures CallIn(r, k) {
      var l :| 0 <= l < |q| && q[l].call == k;
      assert r[if l < i then l else l - 1].call == k;
    }
  }

  lemma OrderWithout(q: seq<Deferred>, i: nat)
    requires InCallOrder(q) && i < |q|
    ensures InCallOrder(q[..i] + q[i + 1..])
  {
  }

  lemma OtherCall(q: seq<Deferred>, i: nat, l: nat)
    requires InCallOrder(q) && i < |q| && l < |q| && l != i
    ensures q[l].call != q[i].call
  {
  }

  lemma DecideKeepsInv(cat: Catalog, y: Sys, z: Sys, d: Deferred, fate: Fate)
    requires Inv(cat, y) && Decides(y, z, d, fate)
    ensures Inv(cat, z) && Extends(y, z)
  {
    hide ObjOk, CallOk, CMsgOk, SObjOk, SMsgOk, HandledOk;
    hide ServerHello, AcksOk;
    DecideExtends(cat, y, z, d, fate);
    DecideRecorded(cat, y, z, d, fate);
    HistoryStable(cat, y, z);
    DeliveredFrame(cat, y, z);
    var q := Parked(y.c);
    var i := |y.c.queue|;
    assert q[i] == d && Parked(z.c) == q[..i] + q[i + 1..];
    Dequeue(y, z, q, i);
    DecideKept(y, z, d, fate);
    HelloFrame(cat, y, z);
    AcksFrame(y, z);
  }

  lemma DecideKept(y: Sys, z: Sys, d: Deferred, fate: Fate)
    requires Kept(y) && Decides(y, z, d, fate)
    ensures Kept(z)
  {
    forall i | 0 <= i < |z.c.queue| ensures WaitsForId(z, z.c.queue[i]) {
      assert WaitsForId(y, y.c.queue[i]);
    }
  }

  lemma FlushOneKeepsInv(cat: Catalog, y: Sys)
    requires Inv(cat, y) && Enabled(cat, y, ClientFlushOne)
    ensures Inv(cat, Apply(cat, y, ClientFlushOne)) && Extends(y, Apply(cat, y, ClientFlushOne))
  {
    hide History, ServerHello, AcksOk;
    var z := Apply(cat, y, ClientFlushOne);
    var d := y.c.pending[0];
    assert Parked(y.c)[|y.c.queue|] == d;
    FlushLookup(y, d);
    var on := y.calls[d.call].on;
    if on !in y.c.table {
      assert Decides(y, z, d, Dropped);
      DecideKeepsInv(cat, y, z, d, Dropped);
    } else if y.c.objs[on].id != 0 {
      assert Decides(y, z, d, Sent(|y.c2s|));
      DecideKeepsInv(cat, y, z, d, Sent(|y.c2s|));
    } else {
      FlushKeeps(cat, y, z, d);
    }
  }

  lemma FlushKeeps(cat: Catalog, y: Sys, z: Sys, d: Deferred)
    requires Inv(cat, y) && y.c.phase.Flushing? && y.c.pending != [] && d == y.c.pending[0]
    requires WaitsForId(y, d)
    requires z == y.(c := y.c.(queue := y.c.queue + [d], pending := y.c.pending[1..]))
    ensures Inv(cat, z) && Extends(y, z)
  {
    assert Parked(z.c) == Parked(y.c);
    forall i | 0 <= i < |z.c.queue| ensures WaitsForId(z, z.c.queue[i]) {
      if i < |y.c.queue| { assert WaitsForId(y, y.c.queue[i]); }
    }
    PhaseKeepsInv(cat, y, z);
  }
}
