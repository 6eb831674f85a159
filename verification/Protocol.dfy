// What every run of the composed system guarantees.
module Protocol {
  import opened Types
  import opened ClientModel
  import opened ServerModel
  import opened System
  import opened Invariant
  import opened ClientSteps
  import opened ClientReads
  import opened ServerSteps
  import opened ServerRequests
  import opened Disconnection
  import Adverts

  lemma StepKeepsInv(cat: Catalog, y: Sys, step: Step)
    requires Inv(cat, y) && Enabled(cat, y, step)
    ensures Inv(cat, Apply(cat, y, step)) && Extends(y, Apply(cat, y, step))
  {
    hide History, ClientTable, Delivered, QueueIs, Kept, ServerTable, ClientHello, ServerHello, RequestsOk, AcksOk, Extends;
    match step
    case AppBind(proto, version) => BindKeepsInv(cat, y, proto, version);
    case AppCall(o, op, args) => CallKeepsInv(cat, y, o, op, args);
    case AppRoundtrip => RoundtripKeepsInv(cat, y);
    case AppRelease(o) => ReleaseKeepsInv(cat, y, o);
    case AppAcquire(o) => AcquireKeepsInv(cat, y, o);
    case ClientHandle => HandleKeepsInv(cat, y);
    case ClientStartFlush => StartFlushKeepsInv(cat, y);
    case ClientFlushOne => FlushOneKeepsInv(cat, y);
    case ClientFinishFlush => FinishFlushKeepsInv(cat, y);
    case ClientCollect(o) => CollectKeepsInv(cat, y, o);
    case ServerHandleNext => ServerHandleKeepsInv(cat, y);
    case ServerFinish => FinishKeepsInv(cat, y);
    case ServerEnd => EndKeepsInv(cat, y);
    case ServerEvent(o, m, args) => EventKeepsInv(cat, y, o, m, args);
    case ServerRaise(o) => RaiseKeepsInv(cat, y, o);
    case ServerDisconnect(scripts) => DisconnectKeepsInv(cat, y, scripts);
    case ServerRegister(a) => RegisterKeepsInv(cat, y, a);
  }

  /** The invariant holds along every run, and no run rewrites history. */
  lemma {:induction false} RunKeepsInv(cat: Catalog, y: Sys, steps: seq<Step>, z: Sys)
    requires Inv(cat, y) && Run(cat, y, steps, z)
    ensures Inv(cat, z) && Extends(y, z)
    decreases |steps|
  {
    if steps != [] {
      var y1 := Apply(cat, y, steps[0]);
      StepKeepsInv(cat, y, steps[0]);
      RunKeepsInv(cat, y1, steps[1..], z);
      ExtendsTransitive(y, y1, z);
    }
  }

  lemma ReachableInv(cat: Catalog, impls: set<Name>, y: Sys)
    requires Reachable(cat, impls, y)
    ensures Inv(cat, y)
  {
    InitInv(cat, impls);
    var steps :| Run(cat, Init(impls), steps, y);
    RunKeepsInv(cat, Init(impls), steps, y);
  }

  // ---- agreement on objects ----------------------------------------------------------

  /** A resolved client object carries the id the server allocated for its sequence
      number, and both ends hold the same protocol and interface for it. */
  lemma Agreement(cat: Catalog, impls: set<Name>, y: Sys, i: nat)
    requires Reachable(cat, impls, y) && i < |y.c.objs| && y.c.objs[i].id != 0
    ensures var o := y.c.objs[i];
      && 1 <= o.id <= |y.s.objs|
      && var so := y.s.objs[o.id - 1];
      && so.id == o.id && so.seqNo == o.seqNo && so.proto == o.proto && so.iface == Some(o.iface)
  {
    ReachableInv(cat, impls, y);
    assert ObjOk(cat, y, i);
    assert SObjOk(y, y.c.objs[i].id - 1);
  }

  /** No two client objects share a sequence number or a resolved id, and no two server
      objects share an id or a sequence number. */
  lemma DistinctIdentities(cat: Catalog, impls: set<Name>, y: Sys, i: nat, j: nat)
    requires Reachable(cat, impls, y) && i != j
    ensures i < |y.c.objs| && j < |y.c.objs| ==>
      && y.c.objs[i].seqNo != y.c.objs[j].seqNo
      && (y.c.objs[i].id == y.c.objs[j].id ==> y.c.objs[i].id == 0)
    ensures i < |y.s.objs| && j < |y.s.objs| ==>
      y.s.objs[i].id != y.s.objs[j].id && y.s.objs[i].seqNo != y.s.objs[j].seqNo
  {
    hide Delivered, QueueIs, Kept, ServerHello, ClientHello, RequestsOk, AcksOk;
    ReachableInv(cat, impls, y);
    if i < |y.c.objs| && j < |y.c.objs| {
      assert ObjOk(cat, y, i) && ObjOk(cat, y, j);
    }
    if i < |y.s.objs| && j < |y.s.objs| && y.s.objs[i].seqNo == y.s.objs[j].seqNo {
      AnswerUnique(cat, y, i, j);
    }
  }

  /** Every request ever put on the wire is one accepted call, unchanged, addressed to the
      id the server had allocated, for a request earlier on the wire, to the object the
      call was made on: whether it was sent at once or through the deferred queue. */
  lemma Addressing(cat: Catalog, impls: set<Name>, y: Sys, p: nat)
    requires Reachable(cat, impls, y) && p < |y.c2s| && y.c2s[p].Request?
    ensures var m := y.c2s[p];
      && m.target != 0 && m.call < |y.calls| && y.calls[m.call].fate == Sent(p)
      && var r := y.calls[m.call];
      && r.op == m.op && r.ret == m.ret && r.args == m.args
      && r.on < |y.c.objs| && y.c.objs[r.on].id == m.target && m.target <= |y.s.objs|
      && var so := y.s.objs[m.target - 1];
      && so.seqNo == y.c.objs[r.on].seqNo && so.cause < p && Creates(y.c2s[so.cause]) == so.seqNo
  {
    ReachableInv(cat, impls, y);
    assert CMsgOk(y, p);
    RequestArrives(cat, y, p);
    assert SObjOk(y, y.c2s[p].target - 1);
  }

  // ---- versions ---------------------------------------------------------------------

  /** A root object has at both ends the version its bind named.  A returned object has
      version 0 at the client, whatever its creator has, and its creator's at the server. */
  lemma VersionsAgree(cat: Catalog, impls: set<Name>, y: Sys, i: nat)
    requires Reachable(cat, impls, y) && i < |y.c.objs| && y.c.objs[i].id != 0
    ensures var o := y.c.objs[i];
      && 0 < o.seqNo <= |y.alloc| && 1 <= o.id <= |y.s.objs|
      && var so := y.s.objs[o.id - 1];
      match y.alloc[o.seqNo - 1]
      case Bound(p) =>
        p < |y.c2s| && y.c2s[p].BindProtocol? && o.version == y.c2s[p].bindVersion == so.version
      case Made(k) =>
        && k < |y.calls| && y.calls[k].on < |y.c.objs| && o.version == 0
        && var creator := y.c.objs[y.calls[k].on].id;
           1 <= creator <= |y.s.objs| && so.version == y.s.objs[creator - 1].version
  {
    hide ClientTable, ServerTable, Delivered, QueueIs, Kept, ServerHello, ClientHello, RequestsOk, AcksOk, Reachable;
    ReachableInv(cat, impls, y);
    AllocatedVersion(cat, y, i);
  }

  lemma AllocatedVersion(cat: Catalog, y: Sys, i: nat)
    requires History(cat, y) && i < |y.c.objs| && y.c.objs[i].id != 0
    ensures var o := y.c.objs[i];
      && 0 < o.seqNo <= |y.alloc| && 1 <= o.id <= |y.s.objs|
      && var so := y.s.objs[o.id - 1];
      match y.alloc[o.seqNo - 1]
      case Bound(p) =>
        p < |y.c2s| && y.c2s[p].BindProtocol? && o.version == y.c2s[p].bindVersion == so.version
      case Made(k) =>
        && k < |y.calls| && y.calls[k].on < |y.c.objs| && o.version == 0
        && var creator := y.c.objs[y.calls[k].on].id;
           1 <= creator <= |y.s.objs| && so.version == y.s.objs[creator - 1].version
  {
    hide HandledOk, SMsgOk, CallOk, SameInterface;
    assert ObjOk(cat, y, i);
    var o := y.c.objs[i];
    var so := y.s.objs[o.id - 1];
    assert SObjOk(y, o.id - 1);
    match y.alloc[o.seqNo - 1]
    case Bound(p) => CreatorUnique(cat, y, p, so.cause);
    case Made(k) =>
      assert CMsgOk(y, so.cause);
      RequestOfCall(y, so.cause);
  }

  /** The number a request returns was allocated by its call. */
  lemma RequestOfCall(y: Sys, p: nat)
    requires forall k: nat :: k < |y.calls| ==> CallOk(y, k)
    requires p < |y.c2s| && CMsgOk(y, p)
    ensures y.c2s[p].Request? && y.c2s[p].ret != 0 ==>
      y.c2s[p].call < |y.calls| && y.c2s[p].ret <= |y.alloc| && y.alloc[y.c2s[p].ret - 1] == Made(y.c2s[p].call)
  {
    if y.c2s[p].Request? { assert CallOk(y, y.c2s[p].call); }
  }

  /** Every request on the wire, direct or deferred, is of a method no newer than the object it
      was made on, at the client and at the server. */
  lemma CallsInVersion(cat: Catalog, impls: set<Name>, y: Sys, p: nat)
    requires Reachable(cat, impls, y) && p < |y.c2s| && y.c2s[p].Request?
    ensures var m := y.c2s[p];
      && m.call < |y.calls| && y.calls[m.call].on < |y.c.objs| && 1 <= m.target <= |y.s.objs|
      && var o := y.c.objs[y.calls[m.call].on]; var so := y.s.objs[m.target - 1];
      && m.op < |o.iface.c2s| && so.iface == Some(o.iface)
      && o.iface.c2s[m.op].since <= o.version <= so.version
  {
    hide ClientTable, ServerTable, Delivered, QueueIs, Kept, ServerHello, ClientHello, RequestsOk, AcksOk, Reachable;
    ReachableInv(cat, impls, y);
    RequestArrives(cat, y, p);
    assert CMsgOk(y, p);
    assert CallOk(y, y.c2s[p].call);
    AllocatedVersion(cat, y, y.calls[y.c2s[p].call].on);
  }

  /** Every event on the wire is of a method no newer than its source, and returns nothing. */
  lemma EventsInVersion(cat: Catalog, impls: set<Name>, y: Sys, p: nat)
    requires Reachable(cat, impls, y) && p < |y.s2c| && y.s2c[p].Event?
    ensures var m := y.s2c[p];
      && 1 <= m.source <= |y.s.objs|
      && var so := y.s.objs[m.source - 1];
      && so.iface.Some? && m.event < |so.iface.value.s2c|
      && so.iface.value.s2c[m.event].since <= so.version && so.iface.value.s2c[m.event].creates == []
  {
    ReachableInv(cat, impls, y);
    assert SMsgOk(y, p);
  }

  // ---- events -----------------------------------------------------------------------

  /** On the wire, the NewObject of an object precedes every event from it. */
  lemma CreationPrecedesEvents(cat: Catalog, impls: set<Name>, y: Sys, p: nat)
    requires Reachable(cat, impls, y) && p < |y.s2c| && y.s2c[p].Event?
    ensures exists q: nat :: q < p && y.s2c[q].NewObject? && y.s2c[q].newId == y.s2c[p].source
  {
    ReachableInv(cat, impls, y);
    assert SMsgOk(y, p);
    assert SObjOk(y, y.s2c[p].source - 1);
    assert y.s2c[y.s.objs[y.s2c[p].source - 1].at].NewObject?;
  }

  /** The client object an event is for, if the client still has it. */
  ghost predicate Retains(y: Sys, x: nat, j: nat) {
    1 <= x <= |y.s.objs| && j < |y.c.objs| && j in y.c.table && y.c.objs[j].seqNo == y.s.objs[x - 1].seqNo
  }

  /** The unknown-object branch is taken exactly for objects the client let go of: an
      event for a retained object is always delivered to that object. */
  lemma UnknownObjectIff(cat: Catalog, impls: set<Name>, y: Sys)
    requires Reachable(cat, impls, y) && Enabled(cat, y, ClientHandle) && y.s2c[y.sRead].Event?
    ensures var x := y.s2c[y.sRead].source;
      && (First(y.c.table, IdIs(y.c.objs, x)).None? <==> !exists j: nat :: Retains(y, x, j))
      && (Apply(cat, y, ClientHandle).c.error <==>
            y.c.error || Unspeakable(y.s2c[y.sRead]) || !exists j: nat :: Retains(y, x, j))
      && (forall j: nat :: Retains(y, x, j) ==> First(y.c.table, IdIs(y.c.objs, x)) == Some(j))
  {
    hide Kept, AcksOk, RequestsOk, ServerHello, QueueIs, ServerTable, ClientHello, CallOk, CMsgOk, HandledOk;
    ReachableInv(cat, impls, y);
    var x := y.s2c[y.sRead].source;
    assert SMsgOk(y, y.sRead);
    forall j: nat | Retains(y, x, j) ensures y.c.objs[j].id == x {
      assert y.s.objs[x - 1].at < y.sRead;
    }
    match First(y.c.table, IdIs(y.c.objs, x))
    case None =>
      assert forall j: nat :: Retains(y, x, j) ==> j in IdIs(y.c.objs, x);
    case Some(i) =>
      assert ObjOk(cat, y, i);
      assert Retains(y, x, i);
  }

  // ---- roundtrips -------------------------------------------------------------------

  /** When request `k` counts as acknowledged, the server has processed everything sent
      before it, and the client has handled everything the server had sent by then. */
  lemma RoundtripBarrier(cat: Catalog, impls: set<Name>, y: Sys, k: nat)
    requires Reachable(cat, impls, y) && 1 <= k <= y.c.lastAckd
    ensures k <= y.c.lastSent == |y.reqAt|
    ensures var p := y.reqAt[k - 1];
      && p < |y.c2s| && y.c2s[p] == RoundtripRequest(k)
      && p < y.cRead == |y.handled| && y.handled[p].mark <= y.sRead
  {
    hide ClientTable, ServerTable, Delivered, QueueIs, Kept, ServerHello, ClientHello;
    ReachableInv(cat, impls, y);
    var q :| 0 <= q < y.sRead && y.s2c[q] == RoundtripDone(y.c.lastAckd);
    assert SMsgOk(y, q);
    var j := y.c.lastAckd;
    assert k < j ==> y.reqAt[k - 1] < y.reqAt[j - 1];
    assert y.handled[y.reqAt[k - 1]].mark <= y.handled[y.reqAt[j - 1]].mark;
  }

  /** Acknowledgements never go back and never run ahead of the requests. */
  lemma AcksMonotone(cat: Catalog, impls: set<Name>, y: Sys, steps: seq<Step>, z: Sys)
    requires Reachable(cat, impls, y) && Run(cat, y, steps, z)
    ensures y.c.lastAckd <= z.c.lastAckd <= z.c.lastSent
  {
    hide Reachable, Run, ClientTable, ServerHello, RequestsOk, QueueIs;
    ReachableInv(cat, impls, y);
    RunKeepsInv(cat, y, steps, z);
    if y.c.lastAckd != 0 {
      var p :| 0 <= p < y.sRead && y.s2c[p] == RoundtripDone(y.c.lastAckd);
      assert z.s2c[p] == y.s2c[p];
    }
    if z.c.lastAckd != 0 {
      var q :| 0 <= q < z.sRead && z.s2c[q] == RoundtripDone(z.c.lastAckd);
      assert SMsgOk(z, q);
    }
  }

  /** Acknowledging only the last request of a batch loses none: between dispatches of a
      connection without parse errors, each processed request is covered by an answer. */
  lemma NoRequestLost(cat: Catalog, impls: set<Name>, y: Sys, k: nat)
    requires Reachable(cat, impls, y) && 1 <= k <= |y.reqAt| && y.reqAt[k - 1] < y.cRead
    requires !y.s.phase && !y.s.aborted
    ensures exists p :: 0 <= p < |y.s2c| && y.s2c[p].RoundtripDone? && y.s2c[p].done >= k
  {
    ReachableInv(cat, impls, y);
    assert k - 1 < y.s.acked;
  }

  // ---- handshake --------------------------------------------------------------------

  /** A finished handshake means that the server recorded version 1 after its first-poll
      step and that the client's table is the list the server had registered when it
      answered the ack; later registrations only extend that list. */
  lemma HandshakeSafety(cat: Catalog, impls: set<Name>, y: Sys)
    requires Reachable(cat, impls, y)
    ensures y.c.handshakeDone ==>
      y.s.version == 1 && y.s.firstPoll && y.c.specs == y.adv && y.adv <= y.s.impls
    ensures !y.c.handshakeDone ==> y.c.specs == []
    ensures !y.s.firstPoll ==> y.s.objs == [] && y.s2c == []
  {
    ReachableInv(cat, impls, y);
  }

  // ---- destructors ------------------------------------------------------------------

  /** Over any run each server object receives at most one destructor event. */
  lemma AtMostOneDestructor(cat: Catalog, impls: set<Name>, y: Sys)
    requires Reachable(cat, impls, y)
    ensures NoDuplicates(y.s.dlog)
  {
    ReachableInv(cat, impls, y);
  }

  /** A disconnect, whatever the destructors' handlers send meanwhile, gives one destructor to
      every object ever created that was not destroyed and has a parameterless one, and to no
      other, but for those whose destructor event the handler of a newer object sent first;
      newest first, none of them for the second time.  `said[k]` is what the handler of `d[k]`
      sent.  The object table ends empty. */
  lemma DestructorDelivery(cat: Catalog, impls: set<Name>, y: Sys, scripts: seq<seq<Speech>>)
    returns (d: seq<nat>, said: seq<seq<SMsg>>)
    requires Reachable(cat, impls, y) && Enabled(cat, y, ServerDisconnect(scripts))
    ensures Decreasing(d) && |said| == |d|
    ensures forall x: nat :: x in d <==>
      1 <= x <= |y.s.objs| && WantsDestructor(y.s.objs[x - 1]) && !KilledBefore(y.s.objs, d, said, x)
    ensures var z := Apply(cat, y, ServerDisconnect(scripts));
      && z.s.dlog == y.s.dlog + d && NoDuplicates(z.s.dlog) && z.s.table == []
      && z.s2c == y.s2c + Flat(said) && |z.s.objs| == |y.s.objs|
      && forall i: nat :: i < |y.s.objs| ==>
           (z.s.objs[i].destroyed <==> y.s.objs[i].destroyed || i + 1 in d || Killed(y.s.objs, Flat(said), i + 1))
  {
    hide WantsDestructor, NoDuplicates, Decreasing, Disconnect, ServerTable, Reachable, KilledBefore, Killed, SameSObj;
    ReachableInv(cat, impls, y);
    d, said := DisconnectDelivers(y.s, scripts);
    DisconnectTable(y.s, scripts);
  }

  /** If the handlers send nothing, every object that wants a destructor receives one. */
  lemma SilentDelivery(cat: Catalog, impls: set<Name>, y: Sys, scripts: seq<seq<Speech>>) returns (d: seq<nat>)
    requires Reachable(cat, impls, y) && Enabled(cat, y, ServerDisconnect(scripts))
    requires forall k :: 0 <= k < |scripts| ==> scripts[k] == []
    ensures Decreasing(d) && forall x: nat :: x in d <==> 1 <= x <= |y.s.objs| && WantsDestructor(y.s.objs[x - 1])
    ensures var z := Apply(cat, y, ServerDisconnect(scripts)); z.s.dlog == y.s.dlog + d && z.s2c == y.s2c
  {
    hide WantsDestructor, NoDuplicates, Decreasing, ServerTable, Reachable, Killed, SameSObj;
    var said;
    d, said := DestructorDelivery(cat, impls, y, scripts);
    SilentFrom(y.s, y.s.table, scripts, |y.s.table|);
    assert y.s2c + [] == y.s2c;
    forall x: nat ensures !KilledBefore(y.s.objs, d, said, x) {
      if KilledBefore(y.s.objs, d, said, x) {
        var k :| 0 <= k < |d| && k < |said| && d[k] > x && Killed(y.s.objs, said[k], x);
        KillerSpeaks(y.s.objs, said, k, x);
      }
    }
  }

  lemma {:induction false} SilentFrom(s: Server, todo: seq<nat>, scripts: seq<seq<Speech>>, n: nat)
    requires n <= |todo| == |scripts| && forall k :: 0 <= k < |scripts| ==> scripts[k] == []
    ensures DestroyFrom(s, todo, scripts, n).out == []
    decreases n
  {
    if n > 0 { SilentFrom(DestroyTurn(s, todo[n - 1], scripts[n - 1]).s, todo, scripts, n - 1); }
  }

  lemma {:induction false} KillerSpeaks(objs: seq<SObj>, said: seq<seq<SMsg>>, k: nat, x: nat)
    requires k < |said| && Killed(objs, said[k], x)
    ensures Flat(said) != []
    decreases |said|
  {
    if k > 0 { KillerSpeaks(objs, said[1..], k - 1, x); }
  }
}
