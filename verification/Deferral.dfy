// A deferred request is dropped only when the server destroyed its object.
module Deferral {
  import opened Types
  import opened ClientModel
  import opened ServerModel
  import opened System
  import opened Invariant
  import opened ClientSteps
  import opened ClientReads
  import opened Protocol
  import opened CallOrder

  // ---- deferred requests are not lost ----------------------------------------------------

  ghost predicate NoEventDestructors(cat: Catalog) {
    forall p, f, m :: p in cat && f in cat[p] && m in f.s2c ==> !m.destructor
  }

  /** The client has read a destructor event of its object `i`. */
  ghost predicate DestructorRead(y: Sys, i: nat)
    requires i < |y.c.objs|
  {
    exists p: nat :: p < y.sRead && p < |y.s2c| && DestroysObject(y.s2c[p], y.c.objs[i])
  }

  ghost predicate DestroysObject(m: SMsg, o: CObj) {
    m.Event? && m.source == o.id && o.id != 0 && m.event < |o.iface.s2c| && o.iface.s2c[m.event].destructor
  }

  /** An unsent call is on an object in the table, unless the server destroyed it. */
  ghost predicate LostOnlyByDestructor(y: Sys) {
    forall k :: 0 <= k < |y.calls| && !y.calls[k].fate.Sent? && y.calls[k].on < |y.c.objs| ==>
      y.calls[k].on in y.c.table || DestructorRead(y, y.calls[k].on)
  }

  lemma DestructorStaysRead(y: Sys, z: Sys)
    requires Extends(y, z)
    ensures forall i: nat :: i < |y.c.objs| && DestructorRead(y, i) ==> DestructorRead(z, i)
  {
    forall i: nat | i < |y.c.objs| && DestructorRead(y, i) ensures DestructorRead(z, i) {
      var p: nat :| p < y.sRead && p < |y.s2c| && DestroysObject(y.s2c[p], y.c.objs[i]);
      assert SameObj(y.c.objs[i], z.c.objs[i]);
      assert DestroysObject(z.s2c[p], z.c.objs[i]);
    }
  }

  /** A step that takes only objects without unsent calls out of the table. */
  lemma TableFrame(cat: Catalog, y: Sys, z: Sys)
    requires History(cat, y) && LostOnlyByDestructor(y) && Extends(y, z)
    requires forall k :: 0 <= k < |y.calls| && !z.calls[k].fate.Sent? && y.calls[k].on in y.c.table ==>
                           y.calls[k].on in z.c.table
    requires forall k :: |y.calls| <= k < |z.calls| && !z.calls[k].fate.Sent? ==> z.calls[k].on in z.c.table
    ensures LostOnlyByDestructor(z)
  {
    DestructorStaysRead(y, z);
    forall k: nat | k < |z.calls| && !z.calls[k].fate.Sent? && z.calls[k].on < |z.c.objs|
      ensures z.calls[k].on in z.c.table || DestructorRead(z, z.calls[k].on)
    {
      if k < |y.calls| {
        assert SameCall(y.calls[k], z.calls[k], |y.c2s|);
        assert CallOk(y, k);
      }
    }
  }

  lemma CallKeepsTable(cat: Catalog, y: Sys, o: nat, op: nat, args: seq<CallArg>)
    requires o < |y.c.objs|
    ensures var z := DoCall(cat, y, o, op, args);
      && (forall i :: i in y.c.table ==> i in z.c.table)
      && (z.calls == y.calls
          || (z.calls == y.calls + [z.calls[|y.calls|]]
              && (z.calls[|y.calls|].fate.Sent? || (z.calls[|y.calls|].on == o && y.c.objs[o].id == 0))))
  {
  }

  lemma CallTableFrame(cat: Catalog, y: Sys, o: nat, op: nat, args: seq<CallArg>)
    requires Inv(cat, y) && LostOnlyByDestructor(y) && o < |y.c.objs| && (y.c.objs[o].id == 0 ==> Resting(y.c))
    ensures LostOnlyByDestructor(DoCall(cat, y, o, op, args))
  {
    hide DoCall, Extends, LostOnlyByDestructor, ObjOk, CallOk, CMsgOk, SObjOk, SMsgOk, HandledOk;
    CallKeepsInv(cat, y, o, op, args);
    CallKeepsTable(cat, y, o, op, args);
    assert y.c.objs[o].id == 0 ==> o in y.c.table;
    MoreCallsFrame(cat, y, DoCall(cat, y, o, op, args), o);
  }

  /** At most one call more, on an object in the table unless it was sent. */
  lemma MoreCallsFrame(cat: Catalog, y: Sys, z: Sys, o: nat)
    requires History(cat, y) && LostOnlyByDestructor(y) && Extends(y, z)
    requires forall i :: i in y.c.table ==> i in z.c.table
    requires z.calls == y.calls || (|z.calls| > |y.calls| && z.calls == y.calls + [z.calls[|y.calls|]]
                                    && (z.calls[|y.calls|].fate.Sent? || (z.calls[|y.calls|].on == o && o in y.c.table)))
    ensures LostOnlyByDestructor(z)
  {
    TableFrame(cat, y, z);
  }

  lemma DropTableFrame(cat: Catalog, y: Sys, o: nat)
    requires Inv(cat, y) && LostOnlyByDestructor(y) && o < |y.c.objs|
    ensures LostOnlyByDestructor(DropObject(cat, y, o))
  {
    if AutoDestructor(y.c.objs[o]).Some? { CallTableFrame(cat, y, o, AutoDestructor(y.c.objs[o]).value, []); }
  }

  lemma ReleaseTableFrame(cat: Catalog, y: Sys, o: nat)
    requires Inv(cat, y) && LostOnlyByDestructor(y) && Enabled(cat, y, AppRelease(o))
    ensures LostOnlyByDestructor(Apply(cat, y, AppRelease(o)))
  {
    hide History, Delivered, QueueIs, Kept, ServerTable, ClientHello, ServerHello, RequestsOk, AcksOk;
    var y1 := y.(c := y.c.(objs := y.c.objs[o := y.c.objs[o].(held := false)]));
    RelabelKeepsInv(cat, y, y1);
    TableFrame(cat, y, y1);
    DropTableFrame(cat, y1, o);
  }

  /** Orphan collection never discards pending work. */
  lemma CollectTableFrame(cat: Catalog, y: Sys, o: nat)
    requires Inv(cat, y) && LostOnlyByDestructor(y) && Enabled(cat, y, ClientCollect(o))
    ensures LostOnlyByDestructor(Apply(cat, y, ClientCollect(o)))
  {
    hide ServerTable, ClientHello, ServerHello, RequestsOk, AcksOk;
    var y1 := y.(c := Discard(y.c, o));
    RetainIncreasing(y.c.table, {o});
    RelabelKeepsInv(cat, y, y1);
    forall k: nat | k < |y.calls| && !y.calls[k].fate.Sent? && y.calls[k].on in y.c.table
      ensures y.calls[k].on in y1.c.table
    {
      assert CallOk(y, k);
      WaitingInQueue(cat, y, k);
    }
    TableFrame(cat, y, y1);
    DropTableFrame(cat, y1, o);
  }

  /** Handling an event removes at most the object it destroys. */
  lemma HandleTableFrame(cat: Catalog, y: Sys)
    requires Inv(cat, y) && LostOnlyByDestructor(y) && Enabled(cat, y, ClientHandle)
    ensures LostOnlyByDestructor(Apply(cat, y, ClientHandle))
  {
    HandleKeepsInv(cat, y);
    RemovedIsDestroyed(cat, y, Apply(cat, y, ClientHandle));
    OnlyDestroyedRemoved(y, Apply(cat, y, ClientHandle));
  }

  lemma OnlyDestroyedRemoved(y: Sys, z: Sys)
    requires LostOnlyByDestructor(y) && Extends(y, z) && z.calls == y.calls && |z.c.objs| == |y.c.objs|
    requires forall i: nat :: i < |y.c.objs| && i in y.c.table && i !in z.c.table ==> DestructorRead(z, i)
    ensures LostOnlyByDestructor(z)
  {
    DestructorStaysRead(y, z);
  }

  lemma HandleRemoves(cat: Catalog, y: Sys, z: Sys, i: nat)
    requires Enabled(cat, y, ClientHandle) && z == Apply(cat, y, ClientHandle)
    requires i in y.c.table && i !in z.c.table
    ensures var m := y.s2c[y.sRead];
      && m.Event? && i < |z.c.objs| && z.c.objs[i].id == m.source
      && var j := First(y.c.table, IdIs(y.c.objs, m.source));
      && j.Some? && j.value < |y.c.objs| && y.c.objs[j.value].id == m.source
      && m.event < |y.c.objs[j.value].iface.s2c| && y.c.objs[j.value].iface.s2c[m.event].destructor
  {
  }

  lemma HandleSame(cat: Catalog, y: Sys)
    requires Enabled(cat, y, ClientHandle)
    ensures var z := Apply(cat, y, ClientHandle);
      && z.calls == y.calls && |z.c.objs| == |y.c.objs| && z.s2c == y.s2c
      && (z.sRead == y.sRead + 1 || z.c.table == y.c.table)
  {
  }

  lemma RemovedIsDestroyed(cat: Catalog, y: Sys, z: Sys)
    requires Inv(cat, y) && Enabled(cat, y, ClientHandle) && z == Apply(cat, y, ClientHandle) && Inv(cat, z)
    ensures z.calls == y.calls && |z.c.objs| == |y.c.objs|
    ensures forall i: nat :: i < |y.c.objs| && i in y.c.table && i !in z.c.table ==> DestructorRead(z, i)
  {
    HandleSame(cat, y);
    forall i: nat | i < |y.c.objs| && i in y.c.table && i !in z.c.table ensures DestructorRead(z, i) {
      HandleRemoves(cat, y, z, i);
      HandleKeepsInv(cat, y);
      var m := y.s2c[y.sRead];
      var j := First(y.c.table, IdIs(y.c.objs, m.source)).value;
      SameIdSameObject(cat, y, z, i, j, m.source);
      assert DestroysObject(z.s2c[y.sRead], z.c.objs[i]);
    }
  }

  lemma SameIdSameObject(cat: Catalog, y: Sys, z: Sys, i: nat, j: nat, x: nat)
    requires History(cat, z) && ClientTable(z.c) && Extends(y, z)
    requires y.sRead < |y.s2c| && y.s2c[y.sRead].Event? && y.s2c[y.sRead].source == x && SMsgOk(y, y.sRead)
    requires i < |z.c.objs| && j < |y.c.objs| && z.c.objs[i].id == x && y.c.objs[j].id == x
    ensures i == j && SameObj(y.c.objs[j], z.c.objs[i]) && x != 0
  {
    assert SameObj(y.c.objs[j], z.c.objs[j]);
    assert ObjOk(cat, z, i) && ObjOk(cat, z, j);
  }

  lemma FlushKeepsTable(cat: Catalog, y: Sys)
    requires Enabled(cat, y, ClientFlushOne)
    ensures var z := Apply(cat, y, ClientFlushOne); |z.calls| == |y.calls| && z.c.table == y.c.table
  {
  }

  lemma FlushTableFrame(cat: Catalog, y: Sys)
    requires Inv(cat, y) && LostOnlyByDestructor(y) && Enabled(cat, y, ClientFlushOne)
    ensures LostOnlyByDestructor(Apply(cat, y, ClientFlushOne))
  {
    FlushOneKeepsInv(cat, y);
    FlushKeepsTable(cat, y);
    TableFrame(cat, y, Apply(cat, y, ClientFlushOne));
  }

  lemma OtherTableFrame(cat: Catalog, y: Sys, step: Step)
    requires Inv(cat, y) && LostOnlyByDestructor(y) && Enabled(cat, y, step)
    requires !step.AppCall? && !step.AppRelease? && !step.ClientCollect? && !step.ClientFlushOne? && !step.ClientHandle?
    ensures LostOnlyByDestructor(Apply(cat, y, step))
  {
    StepKeepsInv(cat, y, step);
    OtherStepsKeepTable(cat, y, step);
    TableFrame(cat, y, Apply(cat, y, step));
  }

  lemma OtherStepsKeepTable(cat: Catalog, y: Sys, step: Step)
    requires Enabled(cat, y, step)
    requires !step.AppCall? && !step.AppRelease? && !step.ClientCollect? && !step.ClientFlushOne? && !step.ClientHandle?
    ensures Apply(cat, y, step).calls == y.calls
    ensures forall i :: i in y.c.table ==> i in Apply(cat, y, step).c.table
  {
  }

  lemma StepLosesOnlyDestroyed(cat: Catalog, y: Sys, step: Step)
    requires Inv(cat, y) && LostOnlyByDestructor(y) && Enabled(cat, y, step)
    ensures LostOnlyByDestructor(Apply(cat, y, step))
  {
    hide Kept, ServerTable, ClientHello, ServerHello, RequestsOk, AcksOk, LostOnlyByDestructor;
    hide Handle, ServerHandle, DropObject, DoCall, FlushOne, Finish, DestroyFrom;
    match step
    case AppCall(o, op, args) => CallTableFrame(cat, y, o, op, args);
    case AppRelease(o) => ReleaseTableFrame(cat, y, o);
    case ClientCollect(o) => CollectTableFrame(cat, y, o);
    case ClientFlushOne => FlushTableFrame(cat, y);
    case ClientHandle => HandleTableFrame(cat, y);
    case _ => OtherTableFrame(cat, y, step);
  }

  lemma {:induction false} RunLosesOnlyDestroyed(cat: Catalog, y: Sys, steps: seq<Step>, z: Sys)
    requires Inv(cat, y) && LostOnlyByDestructor(y) && Run(cat, y, steps, z)
    ensures LostOnlyByDestructor(z)
    decreases |steps|
  {
    if steps != [] {
      StepKeepsInv(cat, y, steps[0]);
      StepLosesOnlyDestroyed(cat, y, steps[0]);
      RunLosesOnlyDestroyed(cat, Apply(cat, y, steps[0]), steps[1..], z);
    }
  }

  /** No deferred call is lost: between dispatches every parked request waits for an
      object without id that is still in the table; a flush drops a request only after
      the client read a destructor event of its object. */
  lemma NoDeferredCallLost(cat: Catalog, impls: set<Name>, y: Sys)
    requires Reachable(cat, impls, y)
    ensures y.c.phase.Idle? ==> forall i :: 0 <= i < |Parked(y.c)| ==>
      WaitsForId(y, Parked(y.c)[i]) && y.calls[Parked(y.c)[i].call].on in y.c.table
    ensures forall k :: 0 <= k < |y.calls| && y.calls[k].fate.Dropped? ==>
      y.calls[k].on < |y.c.objs| && DestructorRead(y, y.calls[k].on)
  {
    hide Run, Init, History, DestructorRead, WaitsForId;
    ReachableInv(cat, impls, y);
    IdleWaits(y);
    ReachableLosses(cat, impls, y);
    forall k: nat | k < |y.calls| && y.calls[k].fate.Dropped?
      ensures y.calls[k].on < |y.c.objs| && DestructorRead(y, y.calls[k].on)
    {
      CallPlace(cat, y, k);
    }
  }

  lemma IdleWaits(y: Sys)
    requires ClientTable(y.c) && Kept(y)
    ensures y.c.phase.Idle? ==> forall i :: 0 <= i < |Parked(y.c)| ==>
      WaitsForId(y, Parked(y.c)[i]) && y.calls[Parked(y.c)[i].call].on in y.c.table
  {
    if y.c.phase.Idle? {
      assert Parked(y.c) == y.c.queue;
      forall i | 0 <= i < |Parked(y.c)|
        ensures WaitsForId(y, Parked(y.c)[i]) && y.calls[Parked(y.c)[i].call].on in y.c.table
      {
        assert WaitsForId(y, y.c.queue[i]);
      }
    }
  }

  lemma CallPlace(cat: Catalog, y: Sys, k: nat)
    requires History(cat, y) && k < |y.calls|
    ensures y.calls[k].on < |y.c.objs|
    ensures y.calls[k].fate.Dropped? ==> y.calls[k].on !in y.c.table
  {
    assert CallOk(y, k);
  }

  lemma ReachableLosses(cat: Catalog, impls: set<Name>, y: Sys)
    requires Reachable(cat, impls, y)
    ensures LostOnlyByDestructor(y)
  {
    hide Run, Inv, LostOnlyByDestructor;
    var steps :| Run(cat, Init(impls), steps, y);
    InitInv(cat, impls);
    NothingLostYet(impls);
    RunLosesOnlyDestroyed(cat, Init(impls), steps, y);
  }

  lemma NothingLostYet(impls: set<Name>)
    ensures LostOnlyByDestructor(Init(impls))
  {
  }

  lemma ClientIfaceKnown(cat: Catalog, y: Sys, i: nat)
    requires History(cat, y) && i < |y.c.objs|
    ensures y.c.objs[i].proto in cat && y.c.objs[i].iface in cat[y.c.objs[i].proto]
  {
    assert ObjOk(cat, y, i);
  }

  /** For a protocol without destructor events the dropping branch is unreachable. */
  lemma NothingDropped(cat: Catalog, impls: set<Name>, y: Sys, k: nat)
    requires Reachable(cat, impls, y) && NoEventDestructors(cat) && k < |y.calls|
    ensures !y.calls[k].fate.Dropped?
  {
    ReachableInv(cat, impls, y);
    NoDeferredCallLost(cat, impls, y);
    if y.calls[k].fate.Dropped? {
      ClientIfaceKnown(cat, y, y.calls[k].on);
    }
  }
}
