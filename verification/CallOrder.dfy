// The order in which the calls on one object reach the wire.
module CallOrder {
  import opened Types
  import opened ClientModel
  import opened ServerModel
  import opened System
  import opened Invariant
  import opened ClientSteps
  import opened ClientReads
  import opened Protocol

  /** Every call on `o` that is on the wire has all earlier calls on `o` before it. */
  ghost predicate WireOrder(y: Sys, o: nat) {
    forall j, k | 0 <= j < k < |y.calls| && y.calls[j].on == o && y.calls[k].on == o && y.calls[k].fate.Sent? ::
      SentBefore(y.calls[j], y.calls[k])
  }

  ghost predicate SentBefore(a: CallRec, b: CallRec)
    requires b.fate.Sent?
  {
    a.fate.Sent? && a.fate.pos < b.fate.pos
  }

  /** No call on `o` was sent at once while an earlier one on `o` was unsent. */
  ghost predicate NeverJumped(y: Sys, o: nat) {
    forall k :: 0 <= k < |y.calls| && y.calls[k].on == o ==> !y.calls[k].jumped
  }

  /** Calls that did not jump are in order: the part a run has to carry along. */
  ghost predicate PatientInOrder(y: Sys) {
    forall j, k | 0 <= j < k < |y.calls| && y.calls[j].on == y.calls[k].on
                  && y.calls[k].fate.Sent? && !y.calls[k].jumped ::
      SentBefore(y.calls[j], y.calls[k])
  }

  lemma CallStaysInOrder(cat: Catalog, y: Sys, o: nat, op: nat, args: seq<CallArg>)
    requires Inv(cat, y) && PatientInOrder(y) && o < |y.c.objs|
    ensures PatientInOrder(DoCall(cat, y, o, op, args))
  {
    var z := DoCall(cat, y, o, op, args);
    if z.calls != y.calls {
      forall j, k | 0 <= j < k < |z.calls| && z.calls[j].on == z.calls[k].on
                    && z.calls[k].fate.Sent? && !z.calls[k].jumped
        ensures SentBefore(z.calls[j], z.calls[k])
      {
        assert z.calls[j] == y.calls[j];
        if k == |y.calls| {
          assert y.calls[j].fate.Sent?;
          assert CallOk(y, j);
        } else {
          assert z.calls[k] == y.calls[k];
        }
      }
    }
  }

  lemma DropStaysInOrder(cat: Catalog, y: Sys, o: nat)
    requires Inv(cat, y) && PatientInOrder(y) && o < |y.c.objs|
    ensures PatientInOrder(DropObject(cat, y, o))
  {
    match AutoDestructor(y.c.objs[o])
    case None =>
    case Some(m) => CallStaysInOrder(cat, y, o, m, []);
  }

  /** A flush sends a parked call only after all earlier calls on its object. */
  lemma FlushStaysInOrder(cat: Catalog, y: Sys)
    requires Inv(cat, y) && PatientInOrder(y) && Enabled(cat, y, ClientFlushOne)
    ensures PatientInOrder(Apply(cat, y, ClientFlushOne))
  {
    hide ObjOk, CallOk, CMsgOk, SObjOk, SMsgOk, HandledOk;
    var z := Apply(cat, y, ClientFlushOne);
    var d := y.c.pending[0];
    assert Parked(y.c)[|y.c.queue|] == d;
    FlushLookup(y, d);
    var c := d.call;
    forall j, k | 0 <= j < k < |z.calls| && z.calls[j].on == z.calls[k].on
                  && z.calls[k].fate.Sent? && !z.calls[k].jumped
      ensures SentBefore(z.calls[j], z.calls[k])
    {
      if k == c && !y.calls[c].fate.Sent? {
        HeadIsFirst(cat, y, j);
      } else {
        assert z.calls[k] == y.calls[k];
      }
    }
  }

  /** Between dispatches and in a flush, a waiting call that a flush has visited (or that is older
      than the head of the flush) waits for an object without id. */
  lemma WaitingInQueue(cat: Catalog, y: Sys, j: nat)
    requires Inv(cat, y) && (y.c.phase.Idle? || y.c.phase.Flushing?) && j < |y.calls|
    requires y.c.pending != [] ==> j < y.c.pending[0].call
    ensures y.calls[j].fate.Waiting? ==> y.calls[j].on < |y.c.objs| && y.c.objs[y.calls[j].on].id == 0
  {
    if y.calls[j].fate.Waiting? {
      var q := Parked(y.c);
      var i :| 0 <= i < |q| && q[i].call == j;
      assert y.c.pending != [] ==> q[|y.c.queue|] == y.c.pending[0];
      assert i < |y.c.queue|;
      assert WaitsForId(y, y.c.queue[i]);
    }
  }

  /** When the head of the flush can be sent, every earlier call on its object is sent. */
  lemma HeadIsFirst(cat: Catalog, y: Sys, j: nat)
    requires Inv(cat, y) && Enabled(cat, y, ClientFlushOne)
    requires var d := y.c.pending[0];
      && d.call < |y.calls| && j < d.call && y.calls[j].on == y.calls[d.call].on
      && y.calls[d.call].on < |y.c.objs|
      && y.calls[d.call].on in y.c.table && y.c.objs[y.calls[d.call].on].id != 0
    ensures y.calls[j].fate.Sent? && y.calls[j].fate.pos < |y.c2s|
  {
    assert CallOk(y, j);
    WaitingInQueue(cat, y, j);
  }

  lemma OtherStepsKeepCalls(cat: Catalog, y: Sys, step: Step)
    requires Enabled(cat, y, step)
    requires !step.AppCall? && !step.AppRelease? && !step.ClientCollect? && !step.ClientFlushOne?
    ensures Apply(cat, y, step).calls == y.calls
  {
  }

  lemma ReleaseStaysInOrder(cat: Catalog, y: Sys, o: nat)
    requires Inv(cat, y) && PatientInOrder(y) && Enabled(cat, y, AppRelease(o))
    ensures PatientInOrder(Apply(cat, y, AppRelease(o)))
  {
    hide History, Delivered, QueueIs, Kept, ServerTable, ClientHello, ServerHello, RequestsOk, AcksOk, Extends;
    var y1 := y.(c := y.c.(objs := y.c.objs[o := y.c.objs[o].(held := false)]));
    RelabelKeepsInv(cat, y, y1);
    DropStaysInOrder(cat, y1, o);
  }

  lemma CollectStaysInOrder(cat: Catalog, y: Sys, o: nat)
    requires Inv(cat, y) && PatientInOrder(y) && Enabled(cat, y, ClientCollect(o))
    ensures PatientInOrder(Apply(cat, y, ClientCollect(o)))
  {
    var y1 := y.(c := Discard(y.c, o));
    RetainIncreasing(y.c.table, {o});
    RelabelKeepsInv(cat, y, y1);
    DropStaysInOrder(cat, y1, o);
  }

  lemma StepStaysInOrder(cat: Catalog, y: Sys, step: Step)
    requires Inv(cat, y) && PatientInOrder(y) && Enabled(cat, y, step)
    ensures PatientInOrder(Apply(cat, y, step))
  {
    hide History, ClientTable, Delivered, QueueIs, Kept, ServerTable, ClientHello, ServerHello, RequestsOk, AcksOk, Extends;
    match step
    case AppCall(o, op, args) => CallStaysInOrder(cat, y, o, op, args);
    case AppRelease(o) => ReleaseStaysInOrder(cat, y, o);
    case ClientCollect(o) => CollectStaysInOrder(cat, y, o);
    case ClientFlushOne => FlushStaysInOrder(cat, y);
    case _ => OtherStepsKeepCalls(cat, y, step);
  }

  lemma {:induction false} RunStaysInOrder(cat: Catalog, y: Sys, steps: seq<Step>, z: Sys)
    requires Inv(cat, y) && PatientInOrder(y) && Run(cat, y, steps, z)
    ensures PatientInOrder(z)
    decreases |steps|
  {
    if steps != [] {
      StepKeepsInv(cat, y, steps[0]);
      StepStaysInOrder(cat, y, steps[0]);
      RunStaysInOrder(cat, Apply(cat, y, steps[0]), steps[1..], z);
    }
  }

  /** The calls on an object reach the wire in call order, with none missing before one
      that is sent, if and only if no call on it was sent at once while an earlier one was
      unsent. */
  lemma CallOrderIff(cat: Catalog, impls: set<Name>, y: Sys, o: nat)
    requires Reachable(cat, impls, y)
    ensures WireOrder(y, o) <==> NeverJumped(y, o)
  {
    ReachableInv(cat, impls, y);
    ReachablePatient(cat, impls, y);
    forall k: nat | k < |y.calls| && y.calls[k].on == o && y.calls[k].jumped ensures !WireOrder(y, o) {
      JumpBreaksOrder(cat, y, k);
    }
  }

  lemma ReachablePatient(cat: Catalog, impls: set<Name>, y: Sys)
    requires Reachable(cat, impls, y)
    ensures PatientInOrder(y)
  {
    var steps :| Run(cat, Init(impls), steps, y);
    InitInv(cat, impls);
    RunStaysInOrder(cat, Init(impls), steps, y);
  }

  lemma JumpBreaksOrder(cat: Catalog, y: Sys, k: nat)
    requires History(cat, y) && k < |y.calls| && y.calls[k].jumped
    ensures !WireOrder(y, y.calls[k].on)
  {
    assert CallOk(y, k);
    var j: nat :| j < k && y.calls[j].on == y.calls[k].on
                  && !(y.calls[j].fate.Sent? && y.calls[j].fate.pos < y.calls[k].fate.pos);
    assert !SentBefore(y.calls[j], y.calls[k]);
  }

  /** Between dispatches a call jumps only past a dropped call: nothing parked can belong
      to an object whose id is known. */
  lemma BetweenDispatchesNoJump(cat: Catalog, impls: set<Name>, y: Sys, o: nat, op: nat, args: seq<CallArg>)
    requires Reachable(cat, impls, y) && Enabled(cat, y, AppCall(o, op, args)) && y.c.phase.Idle?
    requires forall k :: 0 <= k < |y.calls| && y.calls[k].on == o ==> !y.calls[k].fate.Dropped?
    ensures NeverJumped(y, o) ==> NeverJumped(Apply(cat, y, AppCall(o, op, args)), o)
  {
    ReachableInv(cat, impls, y);
    forall k: nat | k < |y.calls| && y.calls[k].on == o
      ensures y.calls[k].fate.Sent? || y.c.objs[o].id == 0
    {
      WaitingInQueue(cat, y, k);
    }
    CallRecords(cat, y, o, op, args);
  }

  lemma CallRecords(cat: Catalog, y: Sys, o: nat, op: nat, args: seq<CallArg>)
    requires o < |y.c.objs|
    ensures var z := DoCall(cat, y, o, op, args);
      z.calls == y.calls
      || (z.calls == y.calls + [z.calls[|y.calls|]]
          && z.calls[|y.calls|].jumped == (y.c.objs[o].id != 0 && Behind(y.calls, o)))
  {
  }
}
