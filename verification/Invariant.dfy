// The inductive invariant of the composed system.  Most of it says that history is
// consistent; those parts are stable under `Extends`, the relation every step satisfies.
module Invariant {
  import opened Types
  import opened ClientModel
  import opened ServerModel
  import opened System
  import Adverts

  /** The sequence number whose object a message asks the server to create (0: none). */
  function Creates(m: CMsg): nat {
    match m
    case BindProtocol(_, n, _) => n
    case Request(_, _, ret, _, _) => ret
    case _ => 0
  }

  ghost predicate Registered(impls: seq<Advert>, proto: Name) {
    exists a :: a in impls && a.name == proto
  }

  // ---- history only grows -------------------------------------------------------

  ghost predicate SameCall(x: CallRec, y: CallRec, sent: nat) {
    && x.on == y.on && x.op == y.op && x.ret == y.ret && x.args == y.args && x.jumped == y.jumped
    && (x.fate == y.fate || (x.fate.Waiting? && (y.fate.Sent? ==> y.fate.pos >= sent)))
  }

  ghost predicate SameObj(x: CObj, y: CObj) {
    && x.seqNo == y.seqNo && x.version == y.version && x.proto == y.proto && x.iface == y.iface
    && (x.id == y.id || x.id == 0)
  }

  ghost predicate SameSObj(x: SObj, y: SObj) {
    x.(destroyed := y.destroyed) == y && (x.destroyed ==> y.destroyed)
  }

  ghost predicate CallsGrow(a: Sys, b: Sys) {
    && |a.calls| <= |b.calls|
    && forall k :: 0 <= k < |a.calls| ==> SameCall(a.calls[k], b.calls[k], |a.c2s|)
  }

  ghost predicate ObjsGrow(a: Sys, b: Sys) {
    && |a.c.objs| <= |b.c.objs|
    && (forall i :: 0 <= i < |a.c.objs| ==> SameObj(a.c.objs[i], b.c.objs[i]))
    && (forall i :: |a.c.objs| <= i < |b.c.objs| ==> b.c.objs[i].seqNo > |a.alloc|)
    && (forall i: nat :: i < |a.c.objs| && i in b.c.table ==> i in a.c.table)
  }

  ghost predicate ServerGrows(a: Sys, b: Sys) {
    && |a.s.objs| <= |b.s.objs|
    && (forall i :: 0 <= i < |a.s.objs| ==> SameSObj(a.s.objs[i], b.s.objs[i]))
    && a.s.impls <= b.s.impls
    && a.s.acked <= b.s.acked
    && (a.s.error ==> b.s.error)
  }

  /** What no step ever undoes. */
  ghost predicate Extends(a: Sys, b: Sys) {
    && a.c2s <= b.c2s && a.cRead <= b.cRead
    && a.s2c <= b.s2c && a.sRead <= b.sRead
    && a.alloc <= b.alloc && a.handled <= b.handled && a.reqAt <= b.reqAt
    && CallsGrow(a, b) && ObjsGrow(a, b) && ServerGrows(a, b)
  }

  // ---- the stable part, element by element ---------------------------------------

  /** The server created object `id` for sequence number `n` and the client read that. */
  ghost predicate Answered(y: Sys, n: nat, id: nat) {
    1 <= id <= |y.s.objs| && y.s.objs[id - 1].seqNo == n && y.s.objs[id - 1].at < y.sRead
  }

  ghost predicate FromBind(cat: Catalog, y: Sys, o: CObj, p: nat) {
    && p < |y.c2s| && y.c2s[p].BindProtocol?
    && y.c2s[p].proto == o.proto && y.c2s[p].seqNo == o.seqNo && y.c2s[p].bindVersion == o.version
    && o.proto in cat && cat[o.proto] != [] && o.iface == cat[o.proto][0]
  }

  ghost predicate FromCall(cat: Catalog, y: Sys, o: CObj, i: nat, k: nat) {
    && k < |y.calls| && y.calls[k].ret == o.seqNo && y.calls[k].on < i && o.version == 0
    && y.calls[k].on < |y.c.objs|
    && var maker := y.c.objs[y.calls[k].on];
       && maker.proto == o.proto && o.proto in cat
       && y.calls[k].op < |maker.iface.c2s|
       && FindIface(cat[o.proto], maker.iface.c2s[y.calls[k].op].creates) == Some(o.iface)
  }

  ghost predicate ObjOk(cat: Catalog, y: Sys, i: nat)
    requires i < |y.c.objs|
  {
    var o := y.c.objs[i];
    && 0 < o.seqNo <= |y.alloc|
    && (o.id != 0 ==> Answered(y, o.seqNo, o.id))
    && Registered(y.s.impls, o.proto)
    && match y.alloc[o.seqNo - 1] {
         case Bound(p) => FromBind(cat, y, o, p)
         case Made(k) => FromCall(cat, y, o, i, k)
       }
  }

  ghost predicate CallOk(y: Sys, k: nat)
    requires k < |y.calls|
  {
    var r := y.calls[k];
    && r.on < |y.c.objs|
    && var o := y.c.objs[r.on];
    && r.op < |o.iface.c2s| && o.iface.c2s[r.op].since <= o.version
    && (r.ret != 0 <==> o.iface.c2s[r.op].creates != [])
    && (r.ret != 0 ==> r.ret <= |y.alloc| && y.alloc[r.ret - 1] == Made(k))
    && (0 < o.seqNo <= |y.alloc| && y.alloc[o.seqNo - 1].Made? ==> y.alloc[o.seqNo - 1].call < k)
    && (r.fate.Sent? ==> r.fate.pos < |y.c2s| && y.c2s[r.fate.pos].Request? && y.c2s[r.fate.pos].call == k)
    && (r.fate.Dropped? ==> o.id != 0 && r.on !in y.c.table)
    && (r.jumped ==> r.fate.Sent? && Overtook(y, k, r.fate.pos))
  }

  /** Some call before `k` on the same object was not on the wire before position `p`. */
  ghost predicate Overtook(y: Sys, k: nat, p: nat)
    requires k < |y.calls|
  {
    exists j: nat :: j < k && y.calls[j].on == y.calls[k].on
                     && !(y.calls[j].fate.Sent? && y.calls[j].fate.pos < p)
  }

  /** A request at position `p` is a recorded call, addressed to the id the server gave
      the object the call was made on, and that object was requested before `p`. */
  ghost predicate RequestOk(y: Sys, p: nat, m: CMsg)
    requires m.Request?
  {
    && m.call < |y.calls|
    && var r := y.calls[m.call];
    && r.fate == Sent(p) && r.op == m.op && r.ret == m.ret && r.args == m.args
    && r.on < |y.c.objs|
    && m.target == y.c.objs[r.on].id && 1 <= m.target <= |y.s.objs|
    && y.s.objs[m.target - 1].cause < p
  }

  ghost predicate CMsgOk(y: Sys, p: nat)
    requires p < |y.c2s|
  {
    match y.c2s[p]
    case Request(_, _, _, _, _) => RequestOk(y, p, y.c2s[p])
    case BindProtocol(_, n, _) => 0 < n <= |y.alloc| && y.alloc[n - 1] == Bound(p)
    case RoundtripRequest(k) => 1 <= k <= |y.reqAt| && y.reqAt[k - 1] == p
    case _ => true
  }

  ghost predicate SameInterface(y: Sys, so: SObj) {
    forall j :: 0 <= j < |y.c.objs| && y.c.objs[j].seqNo == so.seqNo ==>
                  y.c.objs[j].proto == so.proto && so.iface == Some(y.c.objs[j].iface)
  }

  ghost predicate SObjOk(y: Sys, i: nat)
    requires i < |y.s.objs|
  {
    var o := y.s.objs[i];
    && o.id == i + 1 && 0 < o.seqNo <= |y.alloc|
    && o.cause < |y.handled| && y.handled[o.cause].made == i + 1
    && o.cause < |y.c2s| && Creates(y.c2s[o.cause]) == o.seqNo
    && o.at < |y.s2c| && y.s2c[o.at] == NewObject(o.seqNo, o.id)
    && SameInterface(y, o) && RightVersion(y, o)
  }

  /** A server object has the version its bind asked for, or that of the object it was
      requested from. */
  ghost predicate RightVersion(y: Sys, o: SObj)
    requires o.cause < |y.c2s|
  {
    match y.c2s[o.cause]
    case BindProtocol(_, _, v) => o.version == v
    case Request(x, _, _, _, _) => 1 <= x <= |y.s.objs| && o.version == y.s.objs[x - 1].version
    case _ => true
  }

  /** The object has such an event, no newer than itself and returning nothing. */
  ghost predicate Sayable(o: SObj, m: nat) {
    && o.iface.Some? && m < |o.iface.value.s2c|
    && o.iface.value.s2c[m].since <= o.version && o.iface.value.s2c[m].creates == []
  }

  ghost predicate SMsgOk(y: Sys, p: nat)
    requires p < |y.s2c|
  {
    match y.s2c[p]
    case NewObject(n, id) => 1 <= id <= |y.s.objs| && y.s.objs[id - 1].at == p && y.s.objs[id - 1].seqNo == n
    case Event(x, m, _) => 1 <= x <= |y.s.objs| && y.s.objs[x - 1].at < p && Sayable(y.s.objs[x - 1], m)
    case RoundtripDone(j) =>
      && 1 <= j <= |y.reqAt| && j <= y.s.acked && y.reqAt[j - 1] < |y.handled|
      && y.handled[y.reqAt[j - 1]].mark <= p
    case FatalProtocolError(_) => y.s.error
    case _ => true
  }

  ghost predicate HandledOk(y: Sys, p: nat)
    requires p < |y.handled|
  {
    && y.handled[p].mark <= |y.s2c|
    && (y.handled[p].made != 0 ==>
          y.handled[p].made <= |y.s.objs| && y.s.objs[y.handled[p].made - 1].cause == p)
  }

  ghost predicate Bounds(y: Sys) {
    && y.cRead <= |y.c2s| && y.sRead <= |y.s2c|
    && |y.handled| == y.cRead && |y.alloc| == y.c.seqNo && |y.reqAt| == y.c.lastSent
  }

  ghost predicate History(cat: Catalog, y: Sys) {
    && Bounds(y)
    && (forall i: nat :: i < |y.c.objs| ==> ObjOk(cat, y, i))
    && (forall k: nat :: k < |y.calls| ==> CallOk(y, k))
    && (forall p: nat :: p < |y.c2s| ==> CMsgOk(y, p))
    && (forall i: nat :: i < |y.s.objs| ==> SObjOk(y, i))
    && (forall p: nat :: p < |y.s2c| ==> SMsgOk(y, p))
    && (forall p: nat :: p < |y.handled| ==> HandledOk(y, p))
  }

  // ---- the parts that are about the present --------------------------------------

  ghost predicate ClientTable(c: Client) {
    && Increasing(c.table)
    && (forall i :: i in c.table ==> i < |c.objs|)
    && (forall i: nat :: i < |c.objs| && c.objs[i].id == 0 ==> i in c.table)
    && (forall i, j :: 0 <= i < j < |c.objs| ==> c.objs[i].seqNo < c.objs[j].seqNo)
    && (!c.phase.Flushing? ==> c.pending == [])
    && (c.phase.Failed? ==> c.error)
  }

  /** A client object whose answer has been read carries the answered id. */
  ghost predicate Delivered(y: Sys) {
    forall i, j :: 0 <= i < |y.s.objs| && 0 <= j < |y.c.objs|
                   && y.s.objs[i].seqNo == y.c.objs[j].seqNo && y.s.objs[i].at < y.sRead ==>
                     y.c.objs[j].id == i + 1
  }

  ghost predicate ParkedOk(y: Sys, d: Deferred) {
    && d.call < |y.calls|
    && var r := y.calls[d.call];
    && r.fate.Waiting? && r.op == d.op && r.ret == d.ret && r.args == d.args
    && r.on < |y.c.objs| && d.dep == y.c.objs[r.on].seqNo
  }

  /** Between dispatches and in a flush, everything in the queue proper waits for an object
      whose id is not known. */
  ghost predicate Kept(y: Sys) {
    y.c.phase.Idle? || y.c.phase.Flushing? ==>
      forall i :: 0 <= i < |y.c.queue| ==> WaitsForId(y, y.c.queue[i])
  }

  ghost predicate WaitsForId(y: Sys, d: Deferred) {
    d.call < |y.calls| && y.calls[d.call].on < |y.c.objs| && y.c.objs[y.calls[d.call].on].id == 0
  }

  ghost predicate CallIn(q: seq<Deferred>, k: nat) {
    exists i :: 0 <= i < |q| && q[i].call == k
  }

  ghost predicate InCallOrder(q: seq<Deferred>) {
    forall i, j :: 0 <= i < j < |q| ==> q[i].call < q[j].call
  }

  /** `q` holds exactly the waiting calls, in call order. */
  ghost predicate QueueIs(y: Sys, q: seq<Deferred>) {
    && (forall i :: 0 <= i < |q| ==> ParkedOk(y, q[i]))
    && InCallOrder(q)
    && (forall k: nat :: k < |y.calls| && y.calls[k].fate.Waiting? ==> CallIn(q, k))
  }

  ghost predicate ServerTable(s: Server) {
    && Increasing(s.table)
    && (forall i :: i in s.table ==> i < |s.objs|)
    && s.maxId == |s.objs| + 1
    && (forall i: nat :: i < |s.objs| ==> s.objs[i].id == i + 1)
    && NoDuplicates(s.dlog)
    && (forall d :: d in s.dlog ==> 1 <= d <= |s.objs| && (d - 1 !in s.table || s.finishing == d))
    && (s.finishing != 0 ==> s.phase && s.finishing - 1 in s.table)
    && (s.gone ==> s.table == [] && !s.phase)
    && (!s.gone ==> forall i: nat :: i < |s.objs| && i !in s.table ==> s.objs[i].destroyed)
    && (s.aborted ==> s.error)
  }

  ghost predicate ClientHello(y: Sys) {
    && y.c2s != [] && y.c2s[0] == Sup
    && (forall p :: 0 < p < |y.c2s| ==> y.c2s[p] != Sup)
    && (forall p :: 0 <= p < |y.c2s| && y.c2s[p].HandshakeAck? ==> p == y.ackAt)
    && (y.ackAt != 0 <==> y.sRead != 0)
    && (y.ackAt != 0 ==> y.ackAt < |y.c2s| && y.c2s[y.ackAt] == HandshakeAck(PROTOCOL_VERSION))
    && (y.c.handshakeDone <==> y.protoAt != 0 && y.protoAt < y.sRead)
    && y.c.specs == if y.c.handshakeDone then y.adv else []
  }

  ghost predicate ServerHello(cat: Catalog, y: Sys) {
    && (y.s.firstPoll <==> y.cRead != 0)
    && (y.cRead == 0 ==> y.s2c == [] && y.s.objs == [] && !y.s.phase)
    && (y.cRead != 0 ==> y.s2c != [] && y.s2c[0] == HandshakeBegin([PROTOCOL_VERSION]))
    && (forall p :: 0 < p < |y.s2c| ==> !y.s2c[p].HandshakeBegin?)
    && (forall p :: 0 <= p < |y.s2c| && y.s2c[p].HandshakeProtocols? ==> p == y.protoAt)
    && (y.protoAt != 0 <==> y.ackAt != 0 && y.ackAt < y.cRead)
    && (y.protoAt != 0 ==>
          && y.protoAt < |y.s2c| && y.s2c[y.protoAt] == HandshakeProtocols(Adverts.FormatAll(y.adv))
          && y.s.version == PROTOCOL_VERSION && y.adv <= y.s.impls)
    && (forall a :: a in y.s.impls ==> a.version < U32_LIMIT && a.name in cat)
  }

  ghost predicate RequestsOk(y: Sys) {
    && Increasing(y.reqAt)
    && (forall k :: 0 <= k < |y.reqAt| ==>
                      y.reqAt[k] < |y.c2s| && y.c2s[y.reqAt[k]] == RoundtripRequest(k + 1))
    && (forall p, q :: 0 <= p < q < |y.handled| ==> y.handled[p].mark <= y.handled[q].mark)
  }

  ghost predicate AcksOk(y: Sys) {
    && (y.s.scheduled != 0 ==>
          y.s.scheduled <= |y.reqAt| && y.reqAt[y.s.scheduled - 1] < y.cRead && y.s.acked < y.s.scheduled)
    && (y.s.acked != 0 ==> y.s.acked <= |y.reqAt| && y.reqAt[y.s.acked - 1] < y.cRead
                           && exists p :: 0 <= p < |y.s2c| && y.s2c[p] == RoundtripDone(y.s.acked))
    // every processed request is answered or about to be
    && (forall i :: 0 <= i < |y.reqAt| && y.reqAt[i] < y.cRead ==> i < y.s.acked || i < y.s.scheduled)
    && (!y.s.phase && !y.s.aborted ==> y.s.scheduled == 0)
    && (forall p, q :: 0 <= p < q < |y.s2c| && y.s2c[p].RoundtripDone? && y.s2c[q].RoundtripDone? ==>
                         y.s2c[p].done < y.s2c[q].done)
    && (y.c.lastAckd != 0 ==> exists p :: 0 <= p < y.sRead <= |y.s2c| && y.s2c[p] == RoundtripDone(y.c.lastAckd))
    && (forall p :: 0 <= p < y.sRead <= |y.s2c| && y.s2c[p].RoundtripDone? ==> y.s2c[p].done <= y.c.lastAckd)
  }

  ghost predicate Inv(cat: Catalog, y: Sys) {
    && History(cat, y)
    && ClientTable(y.c) && Delivered(y) && QueueIs(y, Parked(y.c)) && Kept(y)
    && ServerTable(y.s)
    && ClientHello(y) && ServerHello(cat, y)
    && RequestsOk(y) && AcksOk(y)
  }

  lemma InitInv(cat: Catalog, impls: set<Name>)
    ensures Inv(cat, Init(impls))
  {
    hide History, ClientTable, Delivered, QueueIs, Kept, ServerTable, ClientHello, ServerHello, RequestsOk, AcksOk;
    InitHistory(cat, impls);
    InitTables(impls);
    InitHello(cat, impls);
  }

  lemma InitHistory(cat: Catalog, impls: set<Name>)
    ensures History(cat, Init(impls))
  {
    hide ObjOk, CallOk, SObjOk, SMsgOk, HandledOk;
  }

  lemma InitTables(impls: set<Name>)
    ensures var y := Init(impls);
      ClientTable(y.c) && Delivered(y) && QueueIs(y, Parked(y.c)) && Kept(y) && ServerTable(y.s)
  {
    hide QueueIs, Kept, ServerTable;
    InitQueue(impls);
    InitServerTable(impls);
  }

  lemma InitQueue(impls: set<Name>)
    ensures var y := Init(impls); QueueIs(y, Parked(y.c)) && Kept(y)
  {
    hide ParkedOk, WaitsForId, CallIn;
  }

  lemma InitServerTable(impls: set<Name>)
    ensures ServerTable(Init(impls).s)
  {
  }

  lemma InitHello(cat: Catalog, impls: set<Name>)
    ensures var y := Init(impls); ClientHello(y) && ServerHello(cat, y) && RequestsOk(y) && AcksOk(y)
  {
  }

  // ---- stability -----------------------------------------------------------------

  lemma ObjStable(cat: Catalog, a: Sys, b: Sys, i: nat)
    requires i < |a.c.objs| && ObjOk(cat, a, i) && Extends(a, b)
    requires a.c.objs[i].id == b.c.objs[i].id
    ensures ObjOk(cat, b, i)
  {
    var o := a.c.objs[i];
    assert SameObj(o, b.c.objs[i]);
    assert b.alloc[o.seqNo - 1] == a.alloc[o.seqNo - 1];
    if o.id != 0 { assert SameSObj(a.s.objs[o.id - 1], b.s.objs[o.id - 1]); }
    assert Registered(b.s.impls, o.proto) by {
      var x :| x in a.s.impls && x.name == o.proto;
      assert x in b.s.impls;
    }
    match a.alloc[o.seqNo - 1]
    case Bound(p) => assert a.c2s[p] == b.c2s[p];
    case Made(k) =>
      assert SameCall(a.calls[k], b.calls[k], |a.c2s|);
      assert SameObj(a.c.objs[a.calls[k].on], b.c.objs[a.calls[k].on]);
  }

  /** A call keeps its record as long as its fate did not change in this step. */
  lemma CallStable(a: Sys, b: Sys, k: nat)
    requires k < |a.calls| && CallOk(a, k) && Extends(a, b)
    requires a.calls[k].on < |a.c.objs| && 0 < a.c.objs[a.calls[k].on].seqNo <= |a.alloc|
    requires a.calls[k].fate == b.calls[k].fate
    ensures CallOk(b, k)
  {
    var r := a.calls[k];
    assert SameCall(r, b.calls[k], |a.c2s|);
    assert SameObj(a.c.objs[r.on], b.c.objs[r.on]);
    if r.fate.Sent? { assert a.c2s[r.fate.pos] == b.c2s[r.fate.pos]; }
    if r.jumped {
      var j: nat :| j < k && a.calls[j].on == r.on
                    && !(a.calls[j].fate.Sent? && a.calls[j].fate.pos < r.fate.pos);
      assert SameCall(a.calls[j], b.calls[j], |a.c2s|);
      assert Overtook(b, k, r.fate.pos);
    }
  }

  lemma CMsgStable(a: Sys, b: Sys, p: nat)
    requires p < |a.c2s| && CMsgOk(a, p) && Extends(a, b)
    ensures CMsgOk(b, p)
  {
    assert a.c2s[p] == b.c2s[p];
    if a.c2s[p].Request? {
      var m := a.c2s[p];
      assert SameCall(a.calls[m.call], b.calls[m.call], |a.c2s|);
      assert SameObj(a.c.objs[a.calls[m.call].on], b.c.objs[a.calls[m.call].on]);
      assert SameSObj(a.s.objs[m.target - 1], b.s.objs[m.target - 1]);
    }
  }

  lemma SObjStable(a: Sys, b: Sys, i: nat)
    requires i < |a.s.objs| && SObjOk(a, i) && Extends(a, b)
    ensures SObjOk(b, i)
  {
    var o := a.s.objs[i];
    assert SameSObj(o, b.s.objs[i]);
    assert a.c2s[o.cause] == b.c2s[o.cause] && a.s2c[o.at] == b.s2c[o.at];
    assert a.handled[o.cause] == b.handled[o.cause];
    if a.c2s[o.cause].Request? { assert SameSObj(a.s.objs[a.c2s[o.cause].target - 1], b.s.objs[a.c2s[o.cause].target - 1]); }
    forall j | 0 <= j < |b.c.objs| && b.c.objs[j].seqNo == o.seqNo
      ensures b.c.objs[j].proto == o.proto && o.iface == Some(b.c.objs[j].iface)
    {
      assert j < |a.c.objs|;
      assert SameObj(a.c.objs[j], b.c.objs[j]);
    }
  }

  lemma SMsgStable(a: Sys, b: Sys, p: nat)
    requires p < |a.s2c| && SMsgOk(a, p) && Extends(a, b)
    ensures SMsgOk(b, p)
  {
    assert a.s2c[p] == b.s2c[p];
    match a.s2c[p]
    case NewObject(n, id) => assert SameSObj(a.s.objs[id - 1], b.s.objs[id - 1]);
    case Event(x, _, _) => assert SameSObj(a.s.objs[x - 1], b.s.objs[x - 1]);
    case RoundtripDone(j) => assert a.handled[a.reqAt[j - 1]] == b.handled[a.reqAt[j - 1]];
    case _ =>
  }

  lemma HandledStable(a: Sys, b: Sys, p: nat)
    requires p < |a.handled| && HandledOk(a, p) && Extends(a, b)
    ensures HandledOk(b, p)
  {
    if a.handled[p].made != 0 {
      assert SameSObj(a.s.objs[a.handled[p].made - 1], b.s.objs[a.handled[p].made - 1]);
    }
  }

  /** All stable facts at once, for a step that resolves no id and changes no fate. */
  lemma HistoryStable(cat: Catalog, a: Sys, b: Sys)
    requires History(cat, a) && Extends(a, b)
    ensures forall i: nat :: i < |a.c.objs| && a.c.objs[i].id == b.c.objs[i].id ==> ObjOk(cat, b, i)
    ensures forall k: nat :: k < |a.calls| && a.calls[k].fate == b.calls[k].fate ==> CallOk(b, k)
    ensures forall p: nat :: p < |a.c2s| ==> CMsgOk(b, p)
    ensures forall i: nat :: i < |a.s.objs| ==> SObjOk(b, i)
    ensures forall p: nat :: p < |a.s2c| ==> SMsgOk(b, p)
    ensures forall p: nat :: p < |a.handled| ==> HandledOk(b, p)
  {
    forall i: nat | i < |a.c.objs| && a.c.objs[i].id == b.c.objs[i].id ensures ObjOk(cat, b, i) {
      ObjStable(cat, a, b, i);
    }
    forall k: nat | k < |a.calls| && a.calls[k].fate == b.calls[k].fate ensures CallOk(b, k) {
      assert CallOk(a, k);
      assert ObjOk(cat, a, a.calls[k].on);
      CallStable(a, b, k);
    }
    forall p: nat | p < |a.c2s| ensures CMsgOk(b, p) { CMsgStable(a, b, p); }
    forall i: nat | i < |a.s.objs| ensures SObjOk(b, i) { SObjStable(a, b, i); }
    forall p: nat | p < |a.s2c| ensures SMsgOk(b, p) { SMsgStable(a, b, p); }
    forall p: nat | p < |a.handled| ensures HandledOk(b, p) { HandledStable(a, b, p); }
  }
}
