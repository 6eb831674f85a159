// Deferred work drains: without destructors and errors, once the applications stop, every
// parked request is sent, every object gets its id and every roundtrip is acknowledged.
module Progress {
  import opened Types
  import opened ClientModel
  import opened ServerModel
  import opened System
  import opened Invariant
  import opened ClientSteps
  import opened ClientReads
  import opened ServerSteps
  import opened ServerRequests
  import opened Protocol
  import opened Deferral
  import Disconnection

  /** The steps that go on by themselves when neither application acts. */
  predicate Quiet(step: Step) {
    step.ClientHandle? || step.ClientStartFlush? || step.ClientFlushOne? || step.ClientFinishFlush?
    || step.ServerHandleNext? || step.ServerFinish? || step.ServerEnd?
  }

  // ---- every quiet run ends -------------------------------------------------------------

  function CWork(m: CMsg): nat {
    match m
    case Sup => 5
    case HandshakeAck(_) => 3
    case RoundtripRequest(_) => 3
    case _ => 2
  }

  function SWork(m: SMsg): nat {
    if m.HandshakeBegin? then 4 else 1
  }

  function CSum(ms: seq<CMsg>): nat {
    if ms == [] then 0 else CWork(ms[0]) + CSum(ms[1..])
  }

  function SSum(ms: seq<SMsg>): nat {
    if ms == [] then 0 else SWork(ms[0]) + SSum(ms[1..])
  }

  /** Work left: parked requests, messages that can still be handled, and answers about to be
      sent. */
  function Work(y: Sys): nat
    requires Bounds(y)
  {
    3 * |Parked(y.c)| + (if y.s.aborted then 0 else CSum(y.c2s[y.cRead..])) + SSum(y.s2c[y.sRead..])
    + (if y.s.scheduled != 0 then 2 else 0) + (if y.s.aborted && y.s.phase then 1 else 0)
  }

  function Rank(y: Sys): nat {
    (match y.c.phase case Failed => 0 case Idle => 1 case Flushing => 2 case Handling => 3)
    + (if y.s.phase then 1 else 0) + (if y.s.finishing != 0 then 1 else 0)
  }

  /** The lexicographic measure (work, rank, requests still to visit). */
  ghost predicate Less(z: Sys, y: Sys)
    requires Bounds(y) && Bounds(z)
  {
    Work(z) < Work(y)
    || (Work(z) == Work(y) && (Rank(z) < Rank(y) || (Rank(z) == Rank(y) && |z.c.pending| < |y.c.pending|)))
  }

  lemma {:induction false} CSumPush(ms: seq<CMsg>, out: seq<CMsg>)
    ensures CSum(ms + out) == CSum(ms) + CSum(out)
  {
    if ms == [] {
      assert ms + out == out;
    } else {
      CSumPush(ms[1..], out);
      assert (ms + out)[1..] == ms[1..] + out;
    }
  }

  lemma {:induction false} SSumPush(ms: seq<SMsg>, out: seq<SMsg>)
    ensures SSum(ms + out) == SSum(ms) + SSum(out)
  {
    if ms == [] {
      assert ms + out == out;
    } else {
      SSumPush(ms[1..], out);
      assert (ms + out)[1..] == ms[1..] + out;
    }
  }

  lemma CSumTail(ms: seq<CMsg>, r: nat, out: seq<CMsg>)
    requires r <= |ms|
    ensures CSum((ms + out)[r..]) == CSum(ms[r..]) + CSum(out)
    ensures r < |ms| ==> CSum(ms[r..]) == CWork(ms[r]) + CSum(ms[r + 1..])
  {
    assert (ms + out)[r..] == ms[r..] + out;
    CSumPush(ms[r..], out);
    if r < |ms| { assert ms[r..][1..] == ms[r + 1..]; }
  }

  lemma SSumTail(ms: seq<SMsg>, r: nat, out: seq<SMsg>)
    requires r <= |ms|
    ensures SSum((ms + out)[r..]) == SSum(ms[r..]) + SSum(out)
    ensures r < |ms| ==> SSum(ms[r..]) == SWork(ms[r]) + SSum(ms[r + 1..])
  {
    assert (ms + out)[r..] == ms[r..] + out;
    SSumPush(ms[r..], out);
    if r < |ms| { assert ms[r..][1..] == ms[r + 1..]; }
  }

  lemma HandleShape(cat: Catalog, y: Sys, z: Sys)
    requires Enabled(cat, y, ClientHandle) && z == Apply(cat, y, ClientHandle)
    ensures var out := Handle(y.c, y.s2c[y.sRead]).out;
      && z.c2s == y.c2s + out && z.s2c == y.s2c && z.cRead == y.cRead && z.s == y.s
      && Parked(z.c) == Parked(y.c)
      && (if Unspeakable(y.s2c[y.sRead]) then z.sRead == y.sRead && out == [] && Rank(z) < Rank(y)
          else z.sRead == y.sRead + 1 && CSum(out) < SWork(y.s2c[y.sRead]))
  {
    assert y.c2s + [] == y.c2s;
  }

  lemma HandleDecreases(cat: Catalog, y: Sys)
    requires Inv(cat, y) && Enabled(cat, y, ClientHandle) && Bounds(Apply(cat, y, ClientHandle))
    ensures Less(Apply(cat, y, ClientHandle), y)
  {
    var z := Apply(cat, y, ClientHandle);
    HandleShape(cat, y, z);
    CSumTail(y.c2s, y.cRead, Handle(y.c, y.s2c[y.sRead]).out);
    SSumTail(y.s2c, y.sRead, []);
  }

  lemma FlushShape(cat: Catalog, y: Sys, z: Sys)
    requires Enabled(cat, y, ClientFlushOne) && z == Apply(cat, y, ClientFlushOne)
    ensures var out := FlushOne(y.c).out;
      && z.c2s == y.c2s + out && z.sRead == y.sRead && z.s2c == y.s2c && z.cRead == y.cRead && z.s == y.s
      && |z.c.pending| < |y.c.pending| && z.c.phase == y.c.phase
      && 3 * |Parked(z.c)| + CSum(out) <= 3 * |Parked(y.c)|
  {
  }

  lemma FlushDecreases(cat: Catalog, y: Sys)
    requires Inv(cat, y) && Enabled(cat, y, ClientFlushOne) && Bounds(Apply(cat, y, ClientFlushOne))
    ensures Less(Apply(cat, y, ClientFlushOne), y)
  {
    FlushShape(cat, y, Apply(cat, y, ClientFlushOne));
    CSumTail(y.c2s, y.cRead, FlushOne(y.c).out);
  }

  /** What processing a message adds to the server's own work. */
  lemma ServerHandleWork(cat: Catalog, s: Server, m: CMsg, cause: nat, at: nat)
    requires !s.aborted && !Unparsable(m)
    ensures var r := ServerHandle(cat, s, m, cause, at);
      && !r.s.aborted
      && SSum(r.out) + (if r.s.scheduled != 0 then 2 else 0) < CWork(m) + (if s.scheduled != 0 then 2 else 0)
  {
    hide ServerOnGeneric, PickIface, SSum;
    OutWork(ServerHandle(cat, s, m, cause, at).out);
    if m.Request? { OnGenericWork(cat, s.(phase := true), m.target, m.op, m.ret, cause, at); }
  }

  /** Dispatching a request raises an error only for an unknown object, and answers with at
      most one message, a NewObject or a FatalProtocolError. */
  lemma OnGenericWork(cat: Catalog, s: Server, x: nat, m: nat, ret: nat, cause: nat, at: nat)
    ensures var r := ServerOnGeneric(cat, s, x, m, ret, cause, at);
      && r.s.scheduled == s.scheduled && r.s.aborted == s.aborted && r.s.gone == s.gone && r.s.impls == s.impls
      && (r.s.error ==> s.error || First(s.table, ServerIdIs(s.objs, x)).None?)
      && (r.out == [] || (|r.out| == 1 && (r.out[0].NewObject? || r.out[0].FatalProtocolError?)))
  {
    hide First, ServerIdIs, ServerDispatch;
    if First(s.table, ServerIdIs(s.objs, x)).Some? {
      var i := First(s.table, ServerIdIs(s.objs, x)).value;
      if i < |s.objs| { DispatchWork(cat, s, i, m, ret, cause, at); }
    }
  }

  lemma DispatchWork(cat: Catalog, s: Server, i: nat, m: nat, ret: nat, cause: nat, at: nat)
    requires i < |s.objs|
    ensures var r := ServerDispatch(cat, s, i, m, ret, cause, at);
      && r.s.scheduled == s.scheduled && r.s.aborted == s.aborted && r.s.gone == s.gone && r.s.impls == s.impls
      && r.s.error == s.error
      && (r.out == [] || (|r.out| == 1 && r.out[0].NewObject?))
  {
    hide PickIface;
  }

  lemma OutWork(out: seq<SMsg>)
    ensures out == [] ==> SSum(out) == 0
    ensures |out| == 1 ==> SSum(out) == SWork(out[0])
  {
    if |out| == 1 { assert out[1..] == []; }
  }

  lemma ServerHandleDecreases(cat: Catalog, y: Sys)
    requires Inv(cat, y) && Enabled(cat, y, ServerHandleNext) && Bounds(Apply(cat, y, ServerHandleNext))
    ensures Less(Apply(cat, y, ServerHandleNext), y)
  {
    hide ServerOnGeneric, AddServerObject, First, ClientTable, ServerTable, QueueIs, Kept, RequestsOk, AcksOk;
    var r := ServerHandle(cat, y.s, y.c2s[y.cRead], y.cRead, |y.s2c|);
    if !Unparsable(y.c2s[y.cRead]) { ServerHandleWork(cat, y.s, y.c2s[y.cRead], y.cRead, |y.s2c|); }
    CSumTail(y.c2s, y.cRead, []);
    SSumTail(y.s2c, y.sRead, r.out);
  }

  lemma EndDecreases(cat: Catalog, y: Sys)
    requires Inv(cat, y) && Enabled(cat, y, ServerEnd) && Bounds(Apply(cat, y, ServerEnd))
    ensures Less(Apply(cat, y, ServerEnd), y)
  {
    EndShape(cat, y, Apply(cat, y, ServerEnd));
    SSumTail(y.s2c, y.sRead, EndDispatch(y.s).out);
    SSumOne(RoundtripDone(y.s.scheduled));
    SSumOne(FatalProtocolError(0));
  }

  lemma SSumOne(m: SMsg)
    ensures SSum([m]) == SWork(m)
  {
    assert [m][1..] == [];
  }

  lemma PhaseDecreases(cat: Catalog, y: Sys, step: Step)
    requires Bounds(y) && Enabled(cat, y, step)
    requires step.ClientStartFlush? || step.ClientFinishFlush? || step.ServerFinish?
    requires y.s.finishing != 0 ==> y.s.phase
    requires y.c.phase.Flushing? || y.c.pending == []
    ensures Bounds(Apply(cat, y, step)) && Less(Apply(cat, y, step), y)
  {
    assert Parked(Apply(cat, y, step).c) == Parked(y.c);
  }

  /** Every quiet step decreases the measure: no run of quiet steps goes on forever. */
  lemma QuietDecreases(cat: Catalog, y: Sys, step: Step)
    requires Inv(cat, y) && Enabled(cat, y, step) && Quiet(step)
    ensures Bounds(Apply(cat, y, step)) && Less(Apply(cat, y, step), y)
  {
    hide AcksOk, Apply, Enabled;
    StepKeepsInv(cat, y, step);
    match step
    case ClientHandle => HandleDecreases(cat, y);
    case ClientFlushOne => FlushDecreases(cat, y);
    case ServerHandleNext => ServerHandleDecreases(cat, y);
    case ServerEnd => EndDecreases(cat, y);
    case _ => PhaseDecreases(cat, y, step);
  }

  // ---- where a quiet run ends -------------------------------------------------------------

  ghost predicate NoRequestDestructors(cat: Catalog) {
    forall p, f, m :: p in cat && f in cat[p] && m in f.c2s ==> !m.destructor
  }

  /** The server answered the creation request at position `p`. */
  ghost predicate Granted(y: Sys, p: nat)
    requires p < |y.c2s| && p < |y.handled|
  {
    Creates(y.c2s[p]) != 0 ==> y.handled[p].made != 0
  }

  /** A server that destroyed nothing and granted everything it was asked for. */
  ghost predicate Granting(y: Sys) {
    && y.s.finishing == 0
    && (forall i :: 0 <= i < |y.s.objs| ==> !y.s.objs[i].destroyed)
    && forall p: nat :: p < |y.c2s| && p < |y.handled| ==> Granted(y, p)
  }

  ghost predicate Alive(y: Sys) {
    !y.c.error && !y.s.error && !y.s.gone
  }

  ghost predicate Stuck(cat: Catalog, y: Sys) {
    forall step :: Quiet(step) ==> !Enabled(cat, y, step)
  }

  ghost predicate Drained(y: Sys) {
    && Parked(y.c) == [] && (forall i :: 0 <= i < |y.c.objs| ==> y.c.objs[i].id != 0)
    && y.c.lastAckd == y.c.lastSent && y.cRead == |y.c2s| && y.sRead == |y.s2c|
  }

  lemma StuckHasReadAll(cat: Catalog, y: Sys)
    requires Inv(cat, y) && Alive(y) && Stuck(cat, y)
    ensures y.c.phase.Idle? && y.cRead == |y.c2s| && y.sRead == |y.s2c| && !y.s.phase && y.s.finishing == 0
  {
    hide ObjOk, CallOk, CMsgOk, SObjOk, SMsgOk, HandledOk;
    assert !Enabled(cat, y, ClientFlushOne) && !Enabled(cat, y, ClientFinishFlush) && !Enabled(cat, y, ClientStartFlush);
    assert !Enabled(cat, y, ClientHandle) && !Enabled(cat, y, ServerFinish);
    assert !Enabled(cat, y, ServerEnd) && !Enabled(cat, y, ServerHandleNext);
  }

  /** When everything is read, an object without id is one whose request is still parked. */
  lemma UnresolvedIsParked(cat: Catalog, y: Sys, i: nat)
    requires Inv(cat, y) && Granting(y) && y.cRead == |y.c2s| && y.sRead == |y.s2c|
    requires forall k :: 0 <= k < |y.calls| ==> !y.calls[k].fate.Dropped?
    requires i < |y.c.objs| && y.c.objs[i].id == 0
    ensures 0 < y.c.objs[i].seqNo <= |y.alloc|
    ensures var a := y.alloc[y.c.objs[i].seqNo - 1]; a.Made? && a.call < |y.calls| && y.calls[a.call].fate.Waiting?
  {
    assert ObjOk(cat, y, i);
    var o := y.c.objs[i];
    match y.alloc[o.seqNo - 1]
    case Bound(p) => AnsweredObject(cat, y, i, p);
    case Made(k) =>
      assert CallOk(y, k);
      if y.calls[k].fate.Sent? {
        var p := y.calls[k].fate.pos;
        assert CMsgOk(y, p);
        AnsweredObject(cat, y, i, p);
      }
  }

  /** A granted request leads to an id once the answer is read. */
  lemma AnsweredObject(cat: Catalog, y: Sys, i: nat, p: nat)
    requires Inv(cat, y) && Granting(y) && y.cRead == |y.c2s| && y.sRead == |y.s2c|
    requires i < |y.c.objs| && p < |y.c2s| && Creates(y.c2s[p]) == y.c.objs[i].seqNo != 0
    ensures y.c.objs[i].id != 0
  {
    assert Granted(y, p);
    MadeIsResolved(cat, y, i, p);
  }

  /** A creation request that made an object leads to an id once everything is read. */
  lemma MadeIsResolved(cat: Catalog, y: Sys, i: nat, p: nat)
    requires Inv(cat, y) && y.cRead == |y.c2s| && y.sRead == |y.s2c|
    requires i < |y.c.objs| && p < |y.c2s| && Creates(y.c2s[p]) == y.c.objs[i].seqNo != 0
    requires y.handled[p].made != 0
    ensures y.c.objs[i].id != 0
  {
    assert HandledOk(y, p);
    assert SObjOk(y, y.handled[p].made - 1);
  }

  /** A deferral chain always has a first request that can go on: when everything is read
      and flushed, nothing is parked. */
  lemma NothingParked(cat: Catalog, y: Sys)
    requires Inv(cat, y) && Granting(y) && y.cRead == |y.c2s| && y.sRead == |y.s2c| && y.c.phase.Idle?
    requires forall k :: 0 <= k < |y.calls| ==> !y.calls[k].fate.Dropped?
    ensures Parked(y.c) == []
  {
    var q := Parked(y.c);
    if q != [] {
      assert q[0] == y.c.queue[0] && WaitsForId(y, q[0]);
      var on := y.calls[q[0].call].on;
      assert CallOk(y, q[0].call);
      UnresolvedIsParked(cat, y, on);
    }
  }

  lemma AllAcknowledged(cat: Catalog, y: Sys)
    requires Inv(cat, y) && y.cRead == |y.c2s| && y.sRead == |y.s2c| && !y.s.phase && !y.s.aborted
    ensures y.c.lastAckd == y.c.lastSent
  {
    var n := |y.reqAt|;
    if n != 0 {
      assert y.reqAt[n - 1] < y.cRead;
      assert n - 1 < y.s.acked;
    }
    if y.c.lastAckd != 0 {
      var p :| 0 <= p < y.sRead && y.s2c[p] == RoundtripDone(y.c.lastAckd);
      assert SMsgOk(y, p);
    }
  }

  lemma AllResolved(cat: Catalog, y: Sys)
    requires Inv(cat, y) && Granting(y) && y.cRead == |y.c2s| && y.sRead == |y.s2c| && Parked(y.c) == []
    requires forall k :: 0 <= k < |y.calls| ==> !y.calls[k].fate.Dropped?
    ensures forall i :: 0 <= i < |y.c.objs| ==> y.c.objs[i].id != 0
  {
    assert forall k: nat :: k < |y.calls| && y.calls[k].fate.Waiting? ==> CallIn(Parked(y.c), k);
    forall i: nat | i < |y.c.objs| ensures y.c.objs[i].id != 0 {
      if y.c.objs[i].id == 0 { UnresolvedIsParked(cat, y, i); }
    }
  }

  /** A live connection on which nothing moves is drained: every parked request was sent,
      every object has its id, every message is read and every roundtrip acknowledged. */
  lemma StuckIsDrained(cat: Catalog, y: Sys)
    requires Inv(cat, y) && Alive(y) && Granting(y) && Stuck(cat, y)
    requires forall k :: 0 <= k < |y.calls| ==> !y.calls[k].fate.Dropped?
    ensures Drained(y)
  {
    StuckHasReadAll(cat, y);
    NothingParked(cat, y);
    AllResolved(cat, y);
    AllAcknowledged(cat, y);
  }

  // ---- the server grants what it is asked for -----------------------------------------------

  /** What holds of a server whose protocol has no destructors. */
  ghost predicate CalmServer(cat: Catalog, y: Sys) {
    && y.s.finishing == 0 && KnownIfaces(cat, y.s.objs)
    && (y.s.gone || NoneDestroyed(y.s.objs))
    && (y.s.error || y.s.gone || forall p: nat :: p < |y.c2s| && p < |y.handled| ==> Granted(y, p))
  }

  ghost predicate KnownIfaces(cat: Catalog, objs: seq<SObj>) {
    forall i :: 0 <= i < |objs| && objs[i].iface.Some? ==> objs[i].proto in cat && objs[i].iface.value in cat[objs[i].proto]
  }

  ghost predicate NoneDestroyed(objs: seq<SObj>) {
    forall i :: 0 <= i < |objs| ==> !objs[i].destroyed
  }

  ghost predicate NoDestructors(cat: Catalog) {
    NoEventDestructors(cat) && NoRequestDestructors(cat)
  }

  lemma CalmHandleBind(cat: Catalog, y: Sys)
    requires Inv(cat, y) && CalmServer(cat, y) && Enabled(cat, y, ServerHandleNext) && y.c2s[y.cRead].BindProtocol?
    ensures CalmServer(cat, Apply(cat, y, ServerHandleNext))
  {
    hide ClientTable, Delivered, QueueIs, Kept, ServerTable, ClientHello, ServerHello, RequestsOk, AcksOk, PickIface;
    var z := Apply(cat, y, ServerHandleNext);
    var m := y.c2s[y.cRead];
    GrantedBefore(y, z);
    InvBounds(cat, y);
    BindKnown(cat, y.s.(phase := true), m.proto, m.bindVersion, m.seqNo, y.cRead, |y.s2c|);
  }

  lemma BindKnown(cat: Catalog, s: Server, proto: Name, version: nat, n: nat, cause: nat, at: nat)
    requires KnownIfaces(cat, s.objs)
    ensures var t := AddServerObject(s, [NewServerObject(cat, s, proto, [], version, n, cause, at)]);
      KnownIfaces(cat, t.objs) && (NoneDestroyed(s.objs) ==> NoneDestroyed(t.objs))
  {
  }

  lemma GrantedBefore(y: Sys, z: Sys)
    requires y.c2s <= z.c2s && y.handled <= z.handled
    ensures forall p: nat :: p < |y.c2s| && p < |y.handled| && Granted(y, p) ==> Granted(z, p)
  {
  }

  /** A request on an undestroyed object of the table is granted. */
  lemma RequestGranted(cat: Catalog, y: Sys)
    requires Inv(cat, y) && CalmServer(cat, y) && Enabled(cat, y, ServerHandleNext) && y.c2s[y.cRead].Request?
    requires !y.s.gone && !Unparsable(y.c2s[y.cRead])
    ensures Granted(Apply(cat, y, ServerHandleNext), y.cRead)
  {
    hide ClientTable, Delivered, QueueIs, Kept, ClientHello, ServerHello, RequestsOk, AcksOk, Unparsable, PickIface;
    RequestArrives(cat, y, y.cRead);
    ServerLookup(y.s, y.c2s[y.cRead].target);
  }

  /** A request without destructors neither destroys nor loses an interface. */
  lemma DispatchKeepsObjects(cat: Catalog, s: Server, i: nat, m: nat, ret: nat, cause: nat, at: nat)
    requires i < |s.objs| && NoRequestDestructors(cat) && KnownIfaces(cat, s.objs) && s.finishing == 0
    ensures var t := ServerDispatch(cat, s, i, m, ret, cause, at).s;
      && t.finishing == 0 && KnownIfaces(cat, t.objs) && (NoneDestroyed(s.objs) ==> NoneDestroyed(t.objs))
  {
    hide FindIface, FindAdvert;
    var o := s.objs[i];
    if HasHandler(o, m) { assert o.iface.value.c2s[m] in o.iface.value.c2s; }
  }

  lemma GenericKeepsObjects(cat: Catalog, s: Server, x: nat, m: nat, ret: nat, cause: nat, at: nat)
    requires NoRequestDestructors(cat) && KnownIfaces(cat, s.objs) && s.finishing == 0
    ensures var t := ServerOnGeneric(cat, s, x, m, ret, cause, at).s;
      && t.finishing == 0 && KnownIfaces(cat, t.objs) && (NoneDestroyed(s.objs) ==> NoneDestroyed(t.objs))
      && (s.error ==> t.error)
  {
    hide First, ServerIdIs, ServerDispatch, KnownIfaces, NoneDestroyed, NoRequestDestructors;
    if First(s.table, ServerIdIs(s.objs, x)).Some? {
      var i := First(s.table, ServerIdIs(s.objs, x)).value;
      if i < |s.objs| {
        DispatchKeepsObjects(cat, s, i, m, ret, cause, at);
        DispatchWork(cat, s, i, m, ret, cause, at);
      }
    }
  }

  lemma RequestKeepsObjects(cat: Catalog, y: Sys)
    requires CalmServer(cat, y) && NoRequestDestructors(cat)
    requires Enabled(cat, y, ServerHandleNext) && y.c2s[y.cRead].Request?
    ensures var z := Apply(cat, y, ServerHandleNext);
      && z.s.finishing == 0 && z.s.gone == y.s.gone && (y.s.error ==> z.s.error)
      && KnownIfaces(cat, z.s.objs) && (y.s.gone || NoneDestroyed(z.s.objs))
  {
    hide ServerOnGeneric, KnownIfaces, NoneDestroyed, NoRequestDestructors, Granted;
    var m := y.c2s[y.cRead];
    var h := y.s.(phase := true);
    GenericKeepsObjects(cat, h, m.target, m.op, m.ret, y.cRead, |y.s2c|);
    OnGenericWork(cat, h, m.target, m.op, m.ret, y.cRead, |y.s2c|);
  }

  lemma CalmHandleRequest(cat: Catalog, y: Sys)
    requires Inv(cat, y) && CalmServer(cat, y) && NoRequestDestructors(cat)
    requires Enabled(cat, y, ServerHandleNext) && y.c2s[y.cRead].Request?
    ensures CalmServer(cat, Apply(cat, y, ServerHandleNext))
  {
    RequestKeepsObjects(cat, y);
    if !Unparsable(y.c2s[y.cRead]) { RequestGranted(cat, y); }
    GrantedBefore(y, Apply(cat, y, ServerHandleNext));
  }

  lemma CalmHandleOther(cat: Catalog, y: Sys)
    requires Inv(cat, y) && CalmServer(cat, y) && Enabled(cat, y, ServerHandleNext)
    requires !y.c2s[y.cRead].Request? && !y.c2s[y.cRead].BindProtocol?
    ensures CalmServer(cat, Apply(cat, y, ServerHandleNext))
  {
    GrantedBefore(y, Apply(cat, y, ServerHandleNext));
  }

  lemma CalmEvent(cat: Catalog, y: Sys, o: nat, m: nat, args: seq<CallArg>)
    requires CalmServer(cat, y) && Bounds(y) && NoEventDestructors(cat) && Enabled(cat, y, ServerEvent(o, m, args))
    ensures CalmServer(cat, Apply(cat, y, ServerEvent(o, m, args)))
  {
    hide SendEvent;
    SendShape(y.s, o, m, args);
    if CanSend(y.s.objs[o], m) {
      assert y.s.objs[o].iface.value.s2c[m] in y.s.objs[o].iface.value.s2c;
    }
    OneUnchanged(y.s.objs, SendEvent(y.s, o, m, args).s.objs, o);
    CalmFrame(cat, y, Apply(cat, y, ServerEvent(o, m, args)));
  }

  lemma OneUnchanged(a: seq<SObj>, b: seq<SObj>, o: nat)
    requires o < |a| == |b| && a[o] == b[o] && forall i :: 0 <= i < |a| && i != o ==> b[i] == a[i]
    ensures a == b
  {
  }

  /** Client steps and the remaining server steps. */
  lemma CalmFrame(cat: Catalog, y: Sys, z: Sys)
    requires CalmServer(cat, y) && y.c2s <= z.c2s && z.handled == y.handled && |y.handled| <= |y.c2s|
    requires z.s.objs == y.s.objs && z.s.finishing == 0 && z.s.gone == y.s.gone && (y.s.error ==> z.s.error)
    ensures CalmServer(cat, z)
  {
    GrantedBefore(y, z);
  }

  lemma OtherStepsKeepServer(cat: Catalog, y: Sys, step: Step)
    requires Enabled(cat, y, step)
    requires !step.ServerHandleNext? && !step.ServerEvent? && !step.ServerDisconnect? && !step.ServerFinish?
    ensures var z := Apply(cat, y, step);
      && y.c2s <= z.c2s && z.handled == y.handled && z.s.objs == y.s.objs && z.s.finishing == y.s.finishing
      && z.s.gone == y.s.gone && (y.s.error ==> z.s.error)
  {
    hide Handle, FlushOne, DoCall, DropObject, Bind, Roundtrip, EndDispatch, SendEvent, RaiseError;
    match step
    case AppCall(o, op, args) => CallKeepsServer(cat, y, o, op, args);
    case AppRelease(o) =>
      DropKeepsServer(cat, y.(c := y.c.(objs := y.c.objs[o := y.c.objs[o].(held := false)])), o);
    case ClientCollect(o) => DropKeepsServer(cat, y.(c := Discard(y.c, o)), o);
    case ServerEnd => EndKeepsServer(y.s);
    case ServerRaise(o) => RaiseKeepsServer(y.s, o);
    case _ =>
  }

  lemma EndKeepsServer(s: Server)
    ensures var t := EndDispatch(s).s;
      t.objs == s.objs && t.finishing == s.finishing && t.gone == s.gone && (s.error ==> t.error)
  {
  }

  lemma RaiseKeepsServer(s: Server, o: nat)
    requires o < |s.objs|
    ensures var t := RaiseError(s, o).s;
      t.objs == s.objs && t.finishing == s.finishing && t.gone == s.gone && (s.error ==> t.error)
  {
  }

  lemma StepStaysCalm(cat: Catalog, y: Sys, step: Step)
    requires Inv(cat, y) && CalmServer(cat, y) && NoDestructors(cat) && Enabled(cat, y, step)
    ensures CalmServer(cat, Apply(cat, y, step))
  {
    hide QueueIs, ServerTable, ClientHello, ServerHello, AcksOk, Apply;
    match step
    case ServerHandleNext =>
      if y.c2s[y.cRead].BindProtocol? { CalmHandleBind(cat, y); }
      else if y.c2s[y.cRead].Request? { CalmHandleRequest(cat, y); }
      else { CalmHandleOther(cat, y); }
    case ServerEvent(o, m, args) => CalmEvent(cat, y, o, m, args);
    case ServerDisconnect(scripts) => CalmDisconnect(cat, y, scripts);
    case ServerFinish =>
    case _ =>
      OtherStepsKeepServer(cat, y, step);
      CalmFrame(cat, y, Apply(cat, y, step));
  }

  lemma CalmDisconnect(cat: Catalog, y: Sys, scripts: seq<seq<Speech>>)
    requires Inv(cat, y) && CalmServer(cat, y) && Enabled(cat, y, ServerDisconnect(scripts))
    ensures CalmServer(cat, Apply(cat, y, ServerDisconnect(scripts)))
  {
    hide Disconnect, Granted;
    var z := Apply(cat, y, ServerDisconnect(scripts));
    Disconnection.DisconnectTable(y.s, scripts);
    var d, said := Disconnection.DisconnectDelivers(y.s, scripts);
    forall i: nat | i < |z.s.objs| && z.s.objs[i].iface.Some?
      ensures z.s.objs[i].proto in cat && z.s.objs[i].iface.value in cat[z.s.objs[i].proto]
    {
      assert SameSObj(y.s.objs[i], z.s.objs[i]);
    }
  }

  lemma {:induction false} RunStaysCalm(cat: Catalog, y: Sys, steps: seq<Step>, z: Sys)
    requires Inv(cat, y) && CalmServer(cat, y) && NoDestructors(cat) && Run(cat, y, steps, z)
    ensures CalmServer(cat, z)
    decreases |steps|
  {
    if steps != [] {
      StepKeepsInv(cat, y, steps[0]);
      StepStaysCalm(cat, y, steps[0]);
      RunStaysCalm(cat, Apply(cat, y, steps[0]), steps[1..], z);
    }
  }

  // ---- the connection stays alive -----------------------------------------------------------

  /** Nothing undelivered will end the connection: no bind asks for version 0, no array is too
      long for its receiver, the list of protocols is short enough whether it is on its way or
      still to be sent, and every event in flight is for an object the client retains. */
  ghost predicate Clear(y: Sys) {
    && (forall p :: y.cRead <= p < |y.c2s| ==> !Unparsable(y.c2s[p]))
    && (forall p :: y.sRead <= p < |y.s2c| ==> !Unspeakable(y.s2c[p]))
    && (y.protoAt == 0 ==> |y.s.impls| < MAX_PROTOCOLS)
    && (forall p :: y.sRead <= p < |y.s2c| && y.s2c[p].Event? ==> Wanted(y, y.s2c[p].source))
  }

  /** And no parked request will, either. */
  ghost predicate Peaceful(y: Sys) {
    Clear(y) && forall d :: d in Parked(y.c) ==> Sendable(d.args)
  }

  ghost predicate Wanted(y: Sys, x: nat) {
    exists j: nat :: Retains(y, x, j)
  }

  lemma WantedStays(y: Sys, z: Sys)
    requires Extends(y, z) && forall i: nat :: i in y.c.table ==> i in z.c.table
    ensures forall x: nat :: Wanted(y, x) ==> Wanted(z, x)
  {
    forall x: nat | Wanted(y, x) ensures Wanted(z, x) {
      var j: nat :| Retains(y, x, j);
      assert SameObj(y.c.objs[j], z.c.objs[j]) && SameSObj(y.s.objs[x - 1], z.s.objs[x - 1]);
      assert Retains(z, x, j);
    }
  }

  lemma QuietKeepsTable(cat: Catalog, y: Sys, step: Step)
    requires Inv(cat, y) && NoEventDestructors(cat) && Enabled(cat, y, step) && Quiet(step)
    ensures forall i :: i in y.c.table ==> i in Apply(cat, y, step).c.table
  {
    hide Wanted, ClientHello, ServerHello, RequestsOk, AcksOk, Kept, QueueIs;
    if step.ClientHandle? {
      var z := Apply(cat, y, step);
      forall i: nat | i in y.c.table ensures i in z.c.table {
        if i !in z.c.table {
          HandleRemoves(cat, y, z, i);
          var j := First(y.c.table, IdIs(y.c.objs, y.s2c[y.sRead].source)).value;
          ClientIfaceKnown(cat, y, j);
        }
      }
    }
  }

  /** What a quiet step leaves: it reads on and adds messages, parks nothing new, and only the
      answer to the HandshakeAck changes what the server has advertised. */
  ghost predicate Moves(y: Sys, z: Sys) {
    && y.c2s <= z.c2s && y.s2c <= z.s2c && y.cRead <= z.cRead && y.sRead <= z.sRead
    && z.s.gone == y.s.gone && z.s.impls == y.s.impls
    && (forall d :: d in Parked(z.c) ==> d in Parked(y.c))
    && (z.protoAt == 0 ==> y.protoAt == 0)
  }

  lemma QuietMoves(cat: Catalog, y: Sys, step: Step)
    requires Inv(cat, y) && Enabled(cat, y, step) && Quiet(step)
    ensures Moves(y, Apply(cat, y, step))
  {
    hide Handle, ServerHandle, Finish, FlushOne, EndDispatch, Inv;
    InvBounds(cat, y);
    match step
    case ClientHandle => HandleParks(y.c, y.s2c[y.sRead]);
    case ClientFlushOne => FlushParksNothing(y.c);
    case ServerHandleNext =>
      HandleImpls(cat, y.s, y.c2s[y.cRead], y.cRead, |y.s2c|);
      if y.c2s[y.cRead].HandshakeAck? { AnswersInTurn(cat, y); }
    case ServerFinish => FinishKeepsImpls(y.s);
    case ServerEnd => EndKeepsImpls(y.s);
    case _ =>
  }

  lemma FlushParksNothing(c: Client)
    requires c.pending != []
    ensures forall d :: d in Parked(FlushOne(c).c) ==> d in Parked(c)
  {
  }

  lemma EndKeepsImpls(s: Server)
    ensures EndDispatch(s).s.gone == s.gone && EndDispatch(s).s.impls == s.impls
  {
  }

  lemma HandleParks(c: Client, m: SMsg)
    ensures Parked(Handle(c, m).c) == Parked(c)
  {
  }

  lemma FinishKeepsImpls(s: Server)
    ensures Finish(s).gone == s.gone && Finish(s).impls == s.impls
  {
  }

  lemma HandleImpls(cat: Catalog, s: Server, m: CMsg, cause: nat, at: nat)
    ensures var t := ServerHandle(cat, s, m, cause, at).s; t.gone == s.gone && t.impls == s.impls
  {
    hide ServerOnGeneric, PickIface;
    if m.Request? { OnGenericWork(cat, s.(phase := true), m.target, m.op, m.ret, cause, at); }
  }

  /** The HandshakeAck is read before the list is sent. */
  lemma AnswersInTurn(cat: Catalog, y: Sys)
    requires Inv(cat, y) && y.cRead < |y.c2s| && y.c2s[y.cRead].HandshakeAck?
    ensures y.protoAt == 0 && y.s2c != []
  {
    hide History, ClientTable, Delivered, QueueIs, Kept, RequestsOk, AcksOk;
    assert y.cRead == y.ackAt && y.cRead != 0;
  }

  /** The messages a quiet step of a peaceful connection sends are peaceful, too. */
  ghost predicate SendsWell(y: Sys, z: Sys)
    requires |y.c2s| <= |z.c2s| && |y.s2c| <= |z.s2c|
  {
    && (forall p :: |y.c2s| <= p < |z.c2s| ==> !Unparsable(z.c2s[p]))
    && (forall p :: |y.s2c| <= p < |z.s2c| ==> !Unspeakable(z.s2c[p]) && !z.s2c[p].Event?)
  }

  lemma HandleSendsWell(c: Client, m: SMsg)
    ensures var out := Handle(c, m).out; forall p :: 0 <= p < |out| ==> !Unparsable(out[p])
  {
  }

  lemma FlushSendsWell(c: Client)
    requires c.pending != [] && Sendable(c.pending[0].args)
    ensures var out := FlushOne(c).out; forall p :: 0 <= p < |out| ==> !Unparsable(out[p])
  {
    hide Sendable;
  }

  lemma ServerSendsWell(cat: Catalog, s: Server, m: CMsg, cause: nat, at: nat)
    requires m.HandshakeAck? ==> |s.impls| < MAX_PROTOCOLS
    ensures var out := ServerHandle(cat, s, m, cause, at).out;
      forall p :: 0 <= p < |out| ==> !Unspeakable(out[p]) && !out[p].Event?
  {
    hide ServerOnGeneric, PickIface;
    if m.Request? { OnGenericWork(cat, s.(phase := true), m.target, m.op, m.ret, cause, at); }
  }

  lemma QuietSendsWell(cat: Catalog, y: Sys, step: Step)
    requires Inv(cat, y) && Peaceful(y) && Enabled(cat, y, step) && Quiet(step)
    ensures Moves(y, Apply(cat, y, step)) && SendsWell(y, Apply(cat, y, step))
  {
    hide Handle, ServerHandle, Finish, FlushOne, History, ClientTable, Delivered, QueueIs, Kept;
    hide ClientHello, ServerHello, RequestsOk, AcksOk, Wanted, Sendable;
    QuietMoves(cat, y, step);
    match step
    case ClientHandle => HandleSendsWell(y.c, y.s2c[y.sRead]);
    case ClientFlushOne =>
      assert y.c.pending[0] in Parked(y.c);
      FlushSendsWell(y.c);
    case ServerHandleNext =>
      if y.c2s[y.cRead].HandshakeAck? { AnswersInTurn(cat, y); }
      ServerSendsWell(cat, y.s, y.c2s[y.cRead], y.cRead, |y.s2c|);
    case _ =>
  }

  lemma PeaceFrame(y: Sys, z: Sys)
    requires Peaceful(y) && Moves(y, z) && SendsWell(y, z) && forall x: nat :: Wanted(y, x) ==> Wanted(z, x)
    ensures Peaceful(z)
  {
    hide Wanted, Sendable, Unparsable, Unspeakable;
    assert forall p :: 0 <= p < |y.c2s| ==> z.c2s[p] == y.c2s[p];
    assert forall p :: 0 <= p < |y.s2c| ==> z.s2c[p] == y.s2c[p];
  }

  lemma InvBounds(cat: Catalog, y: Sys)
    requires Inv(cat, y)
    ensures Bounds(y)
  {
  }

  lemma QuietKeepsPeace(cat: Catalog, y: Sys, step: Step)
    requires Inv(cat, y) && Peaceful(y) && NoEventDestructors(cat) && Enabled(cat, y, step) && Quiet(step)
    ensures Peaceful(Apply(cat, y, step))
  {
    hide *;
    QuietSendsWell(cat, y, step);
    QuietKeepsTable(cat, y, step);
    StepKeepsInv(cat, y, step);
    WantedStays(y, Apply(cat, y, step));
    PeaceFrame(y, Apply(cat, y, step));
  }

  lemma HandleStaysAlive(cat: Catalog, impls: set<Name>, y: Sys)
    requires Reachable(cat, impls, y) && Alive(y) && Peaceful(y) && Enabled(cat, y, ClientHandle)
    ensures Alive(Apply(cat, y, ClientHandle))
  {
    hide Wanted, History, ClientTable, Delivered, QueueIs, Kept, ClientHello, ServerHello, RequestsOk, AcksOk, OnGeneric, OnSeq;
    ReachableInv(cat, impls, y);
    NoFatalYet(cat, y);
    if y.s2c[y.sRead].Event? {
      UnknownObjectIff(cat, impls, y);
      assert Wanted(y, y.s2c[y.sRead].source);
      WantedIs(y, y.s2c[y.sRead].source);
    } else {
      TakeErrors(y.c.(phase := Handling), y.s2c[y.sRead]);
    }
  }

  lemma WantedIs(y: Sys, x: nat)
    requires Wanted(y, x)
    ensures exists j: nat :: Retains(y, x, j)
  {
  }

  lemma NoFatalYet(cat: Catalog, y: Sys)
    requires Inv(cat, y) && !y.s.error && y.sRead < |y.s2c|
    ensures !y.s2c[y.sRead].FatalProtocolError?
  {
    assert SMsgOk(y, y.sRead);
  }

  lemma TakeErrors(c: Client, m: SMsg)
    requires !m.Event? && !m.FatalProtocolError?
    ensures Take(c, m).c.error == c.error
  {
  }

  /** Only an unknown object or a message the parser refuses puts the server in error. */
  lemma ServerHandleErrors(cat: Catalog, s: Server, m: CMsg, cause: nat, at: nat)
    ensures var t := ServerHandle(cat, s, m, cause, at).s;
      && t.gone == s.gone
      && (t.error ==> s.error || Unparsable(m) || (m.Request? && First(s.table, ServerIdIs(s.objs, m.target)).None?))
  {
    hide ServerOnGeneric, PickIface, First, ServerIdIs;
    if m.Request? { OnGenericWork(cat, s.(phase := true), m.target, m.op, m.ret, cause, at); }
  }

  lemma TargetKnown(cat: Catalog, y: Sys)
    requires Inv(cat, y) && CalmServer(cat, y) && !y.s.gone && y.cRead < |y.c2s| && y.c2s[y.cRead].Request?
    ensures First(y.s.table, ServerIdIs(y.s.objs, y.c2s[y.cRead].target)).Some?
  {
    RequestArrives(cat, y, y.cRead);
    ServerLookup(y.s, y.c2s[y.cRead].target);
  }

  lemma ServerHandleStaysAlive(cat: Catalog, y: Sys)
    requires Inv(cat, y) && CalmServer(cat, y) && Alive(y) && Peaceful(y) && Enabled(cat, y, ServerHandleNext)
    ensures Alive(Apply(cat, y, ServerHandleNext))
  {
    hide Wanted, ServerHandle, History, ClientTable, Delivered, QueueIs, Kept, ClientHello, ServerHello, RequestsOk, AcksOk;
    ServerHandleErrors(cat, y.s, y.c2s[y.cRead], y.cRead, |y.s2c|);
    if y.c2s[y.cRead].Request? { TargetKnown(cat, y); }
  }

  lemma OtherQuietStaysAlive(cat: Catalog, y: Sys, step: Step)
    requires Alive(y) && Enabled(cat, y, step) && Quiet(step)
    requires !step.ClientHandle? && !step.ServerHandleNext? && (y.s.aborted ==> y.s.error)
    ensures Alive(Apply(cat, y, step))
  {
  }

  lemma QuietStaysAlive(cat: Catalog, impls: set<Name>, y: Sys, step: Step)
    requires Reachable(cat, impls, y) && CalmServer(cat, y) && Alive(y) && Peaceful(y)
    requires Enabled(cat, y, step) && Quiet(step)
    ensures Alive(Apply(cat, y, step))
  {
    ReachableInv(cat, impls, y);
    match step
    case ClientHandle => HandleStaysAlive(cat, impls, y);
    case ServerHandleNext => ServerHandleStaysAlive(cat, y);
    case _ => OtherQuietStaysAlive(cat, y, step);
  }

  ghost predicate AllQuiet(steps: seq<Step>) {
    forall i :: 0 <= i < |steps| ==> Quiet(steps[i])
  }

  ghost predicate Drainable(cat: Catalog, impls: set<Name>, y: Sys) {
    Reachable(cat, impls, y) && NoDestructors(cat) && CalmServer(cat, y) && Alive(y) && Peaceful(y)
  }

  lemma QuietStaysDrainable(cat: Catalog, impls: set<Name>, y: Sys, step: Step)
    requires Drainable(cat, impls, y) && Enabled(cat, y, step) && Quiet(step)
    ensures Drainable(cat, impls, Apply(cat, y, step))
  {
    ReachableInv(cat, impls, y);
    ReachableStep(cat, impls, y, step);
    StepStaysCalm(cat, y, step);
    QuietKeepsPeace(cat, y, step);
    QuietStaysAlive(cat, impls, y, step);
  }

  lemma {:induction false} QuietRunStaysDrainable(cat: Catalog, impls: set<Name>, y: Sys, steps: seq<Step>, z: Sys)
    requires Drainable(cat, impls, y) && Run(cat, y, steps, z) && AllQuiet(steps)
    ensures Drainable(cat, impls, z)
    decreases |steps|
  {
    if steps != [] {
      QuietStaysDrainable(cat, impls, y, steps[0]);
      QuietRunStaysDrainable(cat, impls, Apply(cat, y, steps[0]), steps[1..], z);
    }
  }

  lemma DrainableWhenStuck(cat: Catalog, impls: set<Name>, z: Sys)
    requires Drainable(cat, impls, z) && Stuck(cat, z)
    ensures Drained(z)
  {
    ReachableInv(cat, impls, z);
    forall k: nat | k < |z.calls| ensures !z.calls[k].fate.Dropped? {
      NothingDropped(cat, impls, z, k);
    }
    StuckIsDrained(cat, z);
  }

  lemma ReachableCalm(cat: Catalog, impls: set<Name>, y: Sys)
    requires Reachable(cat, impls, y) && NoDestructors(cat)
    ensures CalmServer(cat, y)
  {
    var steps :| Run(cat, Init(impls), steps, y);
    InitInv(cat, impls);
    RunStaysCalm(cat, Init(impls), steps, y);
  }

  /** However the remaining work is scheduled, it ends drained: every quiet run from a live
      connection whose protocol has no destructors either can go on or has sent every
      parked request, resolved every object and acknowledged every roundtrip.  Together
      with QuietDecreases no schedule can postpone that forever. */
  lemma QuietRunsDrain(cat: Catalog, impls: set<Name>, y: Sys, steps: seq<Step>, z: Sys)
    requires Reachable(cat, impls, y) && NoDestructors(cat) && Alive(y) && Peaceful(y)
    requires Run(cat, y, steps, z) && AllQuiet(steps)
    ensures Alive(z) && (Stuck(cat, z) ==> Drained(z))
  {
    ReachableCalm(cat, impls, y);
    QuietRunStaysDrainable(cat, impls, y, steps, z);
    if Stuck(cat, z) { DrainableWhenStuck(cat, impls, z); }
  }

  lemma QuietStepDrains(cat: Catalog, impls: set<Name>, y: Sys, step: Step)
    requires Drainable(cat, impls, y) && Bounds(y) && Enabled(cat, y, step) && Quiet(step)
    ensures Drainable(cat, impls, Apply(cat, y, step)) && Bounds(Apply(cat, y, step)) && Less(Apply(cat, y, step), y)
  {
    ReachableInv(cat, impls, y);
    QuietDecreases(cat, y, step);
    QuietStaysDrainable(cat, impls, y, step);
  }

  /** And such a run exists. */
  lemma {:induction false} SomeRunDrains(cat: Catalog, impls: set<Name>, y: Sys) returns (steps: seq<Step>, z: Sys)
    requires Drainable(cat, impls, y) && Bounds(y)
    ensures Run(cat, y, steps, z) && AllQuiet(steps) && Drained(z)
    decreases Work(y), Rank(y), |y.c.pending|
  {
    if Stuck(cat, y) {
      steps, z := [], y;
      DrainableWhenStuck(cat, impls, y);
    } else {
      var step :| Quiet(step) && Enabled(cat, y, step);
      QuietStepDrains(cat, impls, y, step);
      var rest;
      rest, z := SomeRunDrains(cat, impls, Apply(cat, y, step));
      RunCons(cat, y, step, rest, z);
      steps := [step] + rest;
    }
  }

  /** From every reachable, live, peaceful state of a protocol without destructors the
      remaining work can be run to its end. */
  lemma EveryStateCanDrain(cat: Catalog, impls: set<Name>, y: Sys) returns (steps: seq<Step>, z: Sys)
    requires Reachable(cat, impls, y) && NoDestructors(cat) && Alive(y) && Peaceful(y)
    ensures Run(cat, y, steps, z) && AllQuiet(steps) && Drained(z)
  {
    ReachableCalm(cat, impls, y);
    ReachableInv(cat, impls, y);
    steps, z := SomeRunDrains(cat, impls, y);
  }
}
