// How far the progress theorems reach: quiet runs are bounded, and peace is exactly what
// keeps a connection alive.
module Limits {
  import opened Types
  import opened ClientModel
  import opened ServerModel
  import opened System
  import opened Invariant
  import opened Protocol
  import opened Deferral
  import opened Progress
  import Adverts

  // ---- quiet runs are bounded ----------------------------------------------------------------

  /** An upper bound for the quiet steps from `y`, for work of at most `w`. */
  function Measure(y: Sys, w: nat): nat
    requires Bounds(y)
  {
    (6 * Work(y) + Rank(y)) * (w + 1) + |y.c.pending|
  }

  lemma Larger(a: nat, b: nat, w: nat, p: nat, q: nat)
    requires b < a && p <= w
    ensures b * (w + 1) + p < a * (w + 1) + q
  {
    assert a * (w + 1) == (a - 1) * (w + 1) + (w + 1);
    assert b * (w + 1) <= (a - 1) * (w + 1);
  }

  lemma MeasureDrops(y: Sys, z: Sys, w: nat)
    requires Bounds(y) && Bounds(z) && Less(z, y) && Work(y) <= w
    ensures Work(z) <= w && Measure(z, w) < Measure(y, w)
  {
    var a, b := 6 * Work(y) + Rank(y), 6 * Work(z) + Rank(z);
    if Work(z) < Work(y) || Rank(z) < Rank(y) {
      Larger(a, b, w, |z.c.pending|, |y.c.pending|);
    } else {
      assert a == b;
    }
  }

  lemma {:induction false} QuietRunWithin(cat: Catalog, y: Sys, steps: seq<Step>, z: Sys, w: nat)
    requires Inv(cat, y) && Run(cat, y, steps, z) && AllQuiet(steps) && Work(y) <= w
    ensures |steps| <= Measure(y, w)
    decreases |steps|
  {
    if steps != [] {
      var m := Apply(cat, y, steps[0]);
      QuietDecreases(cat, y, steps[0]);
      StepKeepsInv(cat, y, steps[0]);
      MeasureDrops(y, m, w);
      assert AllQuiet(steps[1..]);
      QuietRunWithin(cat, m, steps[1..], z, w);
    }
  }

  /** No run of quiet steps is longer than a number its first state determines. */
  lemma QuietRunsBounded(cat: Catalog, impls: set<Name>, y: Sys, steps: seq<Step>, z: Sys)
    requires Reachable(cat, impls, y) && Run(cat, y, steps, z) && AllQuiet(steps)
    ensures Bounds(y) && |steps| <= Measure(y, Work(y))
  {
    hide Inv, Bounds, Measure, Run, Reachable, Work;
    ReachableInv(cat, impls, y);
    InvBounds(cat, y);
    QuietRunWithin(cat, y, steps, z, Work(y));
  }

  // ---- peace is exactly what keeps a connection alive -------------------------------------------

  /** A message the server will refuse is refused now, or still unread. */
  lemma RefusalStays(cat: Catalog, y: Sys, step: Step, p: nat)
    requires Inv(cat, y) && Enabled(cat, y, step) && Quiet(step)
    requires y.cRead <= p < |y.c2s| && Unparsable(y.c2s[p])
    ensures var z := Apply(cat, y, step); z.s.error || (z.cRead <= p < |z.c2s| && Unparsable(z.c2s[p]))
  {
    hide ServerTake, Handle, FlushOne, Finish, Inv, Unparsable;
    QuietMoves(cat, y, step);
  }

  /** Likewise for a message the client will fail on. */
  lemma FailureStays(cat: Catalog, y: Sys, step: Step, p: nat)
    requires Inv(cat, y) && Enabled(cat, y, step) && Quiet(step)
    requires y.sRead <= p < |y.s2c| && Unspeakable(y.s2c[p])
    ensures var z := Apply(cat, y, step); z.c.error || (z.sRead <= p < |z.s2c| && Unspeakable(z.s2c[p]))
  {
    hide ServerHandle, Take, FlushOne, Finish, Inv, Unspeakable;
    QuietMoves(cat, y, step);
  }

  /** No step brings an object back that the client let go. */
  lemma UnwantedStays(cat: Catalog, y: Sys, z: Sys, x: nat)
    requires Inv(cat, y) && Extends(y, z) && 1 <= x <= |y.s.objs|
    ensures Wanted(z, x) ==> Wanted(y, x)
  {
    if Wanted(z, x) {
      assert SObjOk(y, x - 1) && SameSObj(y.s.objs[x - 1], z.s.objs[x - 1]);
      var j: nat :| Retains(z, x, j);
      assert j < |y.c.objs|;
      assert SameObj(y.c.objs[j], z.c.objs[j]);
      assert Retains(y, x, j);
    }
  }

  /** An event for an object the client let go ends the connection now, or is still unread. */
  lemma StrangerStays(cat: Catalog, impls: set<Name>, y: Sys, step: Step, p: nat)
    requires Reachable(cat, impls, y) && Inv(cat, y) && Enabled(cat, y, step) && Quiet(step)
    requires y.sRead <= p < |y.s2c| && y.s2c[p].Event? && !Wanted(y, y.s2c[p].source)
    ensures var z := Apply(cat, y, step);
      z.c.error || (z.sRead <= p < |z.s2c| && z.s2c[p] == y.s2c[p] && !Wanted(z, z.s2c[p].source))
  {
    hide Wanted, Reachable, History, ClientTable, Delivered, QueueIs, Kept, ServerTable, ClientHello, ServerHello, RequestsOk, AcksOk;
    hide ServerHandle, Handle, FlushOne, Finish, Extends;
    EventSource(cat, y, p);
    QuietMoves(cat, y, step);
    StepKeepsInv(cat, y, step);
    UnwantedStays(cat, y, Apply(cat, y, step), y.s2c[p].source);
    if step.ClientHandle? && p == y.sRead { StrangerRead(cat, impls, y); }
  }

  lemma EventSource(cat: Catalog, y: Sys, p: nat)
    requires Inv(cat, y) && p < |y.s2c| && y.s2c[p].Event?
    ensures 1 <= y.s2c[p].source <= |y.s.objs|
  {
    assert SMsgOk(y, p);
  }

  lemma StrangerRead(cat: Catalog, impls: set<Name>, y: Sys)
    requires Reachable(cat, impls, y) && Enabled(cat, y, ClientHandle)
    requires y.s2c[y.sRead].Event? && !Wanted(y, y.s2c[y.sRead].source)
    ensures Apply(cat, y, ClientHandle).c.error
  {
    UnknownObjectIff(cat, impls, y);
  }

  /** A parked request that is too long stays parked, or is on its way. */
  lemma ParkedStays(cat: Catalog, impls: set<Name>, y: Sys, step: Step, d: Deferred)
    requires Reachable(cat, impls, y) && Inv(cat, y) && NoEventDestructors(cat) && Enabled(cat, y, step) && Quiet(step)
    requires d in Parked(y.c) && !Sendable(d.args)
    ensures var z := Apply(cat, y, step);
      d in Parked(z.c) || exists p :: z.cRead <= p < |z.c2s| && Unparsable(z.c2s[p])
  {
    hide Sendable, Reachable, History, Delivered, Kept, ServerTable, ClientHello, ServerHello, RequestsOk, AcksOk;
    hide ServerHandle, Handle, Finish;
    QuietMoves(cat, y, step);
    if step.ClientHandle? { HandleParks(y.c, y.s2c[y.sRead]); }
    if step.ClientFlushOne? && d != y.c.pending[0] { FlushParks(y.c, d); }
    if step.ClientFlushOne? && d == y.c.pending[0] {
      ReachableStep(cat, impls, y, step);
      InvBounds(cat, y);
      assert ParkedOk(y, Parked(y.c)[|y.c.queue|]);
      FlushedHead(cat, y);
      var z := Apply(cat, y, step);
      if z.calls[d.call].fate.Dropped? { NothingDropped(cat, impls, z, d.call); }
      if z.c2s != y.c2s { assert Unparsable(z.c2s[|y.c2s|]); }
    }
  }

  lemma FlushParks(c: Client, d: Deferred)
    requires c.pending != [] && d in Parked(c) && d != c.pending[0]
    ensures d in Parked(FlushOne(c).c)
  {
    assert c.pending == [c.pending[0]] + c.pending[1..];
  }

  /** The head of a flush is kept, sent as it is, or recorded as dropped. */
  lemma FlushedHead(cat: Catalog, y: Sys)
    requires Enabled(cat, y, ClientFlushOne) && y.c.pending[0].call < |y.calls|
    ensures var z := Apply(cat, y, ClientFlushOne); var d := y.c.pending[0];
      && |z.calls| == |y.calls|
      && (z.calls[d.call].fate.Dropped? || d in z.c.queue
          || (|z.c2s| == |y.c2s| + 1 && z.c2s[|y.c2s|].Request? && z.c2s[|y.c2s|].args == d.args))
  {
  }

  /** A list too long to be taken is still unsent, or on its way. */
  lemma ListStays(cat: Catalog, y: Sys, step: Step)
    requires Inv(cat, y) && Enabled(cat, y, step) && Quiet(step) && y.protoAt == 0 && |y.s.impls| >= MAX_PROTOCOLS
    ensures var z := Apply(cat, y, step);
      (z.protoAt == 0 && |z.s.impls| >= MAX_PROTOCOLS) || exists p :: z.sRead <= p < |z.s2c| && Unspeakable(z.s2c[p])
  {
    hide ServerOnGeneric, Handle, FlushOne, Finish, History, ClientTable, Delivered, QueueIs, Kept, ServerTable;
    QuietMoves(cat, y, step);
    InvBounds(cat, y);
    var z := Apply(cat, y, step);
    if z.protoAt != 0 { assert z.s2c[|y.s2c|] == HandshakeProtocols(Adverts.FormatAll(y.s.impls)); }
  }

  /** For every protocol: a connection threatened by something undelivered dies of its next
      quiet step or stays threatened. */
  lemma UnclearStays(cat: Catalog, impls: set<Name>, y: Sys, step: Step)
    requires Reachable(cat, impls, y) && !Clear(y) && Enabled(cat, y, step) && Quiet(step)
    ensures var z := Apply(cat, y, step); !Alive(z) || !Clear(z)
  {
    hide Reachable, Inv, Apply, Enabled, Wanted, Unparsable, Unspeakable;
    ReachableInv(cat, impls, y);
    if p :| y.cRead <= p < |y.c2s| && Unparsable(y.c2s[p]) {
      RefusalStays(cat, y, step, p);
    } else if p :| y.sRead <= p < |y.s2c| && Unspeakable(y.s2c[p]) {
      FailureStays(cat, y, step, p);
    } else if y.protoAt == 0 && |y.s.impls| >= MAX_PROTOCOLS {
      ListStays(cat, y, step);
    } else {
      var p :| y.sRead <= p < |y.s2c| && y.s2c[p].Event? && !Wanted(y, y.s2c[p].source);
      StrangerStays(cat, impls, y, step, p);
    }
  }

  /** Likewise for one threatened by a parked request, if no event destroys objects. */
  lemma ThreatStays(cat: Catalog, impls: set<Name>, y: Sys, step: Step)
    requires Reachable(cat, impls, y) && NoEventDestructors(cat) && !Peaceful(y)
    requires Enabled(cat, y, step) && Quiet(step)
    ensures var z := Apply(cat, y, step); !Alive(z) || !Peaceful(z)
  {
    hide Reachable, Inv, Apply, Enabled, Wanted, Unparsable, Unspeakable, Sendable, Alive;
    if !Clear(y) {
      UnclearStays(cat, impls, y, step);
    } else {
      ReachableInv(cat, impls, y);
      var d :| d in Parked(y.c) && !Sendable(d.args);
      ParkedStays(cat, impls, y, step, d);
    }
  }

  /** A live connection on which nothing can move has nothing left that threatens it. */
  lemma ClearWhenStuck(cat: Catalog, y: Sys)
    requires Inv(cat, y) && Alive(y) && Stuck(cat, y)
    ensures Clear(y)
  {
    hide Inv, Stuck, Wanted;
    StuckHasReadAll(cat, y);
    ListIsSent(cat, y);
  }

  lemma PeacefulWhenStuck(cat: Catalog, impls: set<Name>, y: Sys)
    requires Reachable(cat, impls, y) && NoDestructors(cat) && Alive(y) && Stuck(cat, y)
    ensures Peaceful(y)
  {
    hide Reachable, Stuck, Wanted, Inv, Clear;
    ReachableInv(cat, impls, y);
    ReachableCalm(cat, impls, y);
    forall k: nat | k < |y.calls| ensures !y.calls[k].fate.Dropped? {
      NothingDropped(cat, impls, y, k);
    }
    StuckIsDrained(cat, y);
    ClearWhenStuck(cat, y);
  }

  /** When everything is read, the list of protocols has been sent. */
  lemma ListIsSent(cat: Catalog, y: Sys)
    requires Inv(cat, y) && y.cRead == |y.c2s| && y.sRead == |y.s2c|
    ensures y.protoAt != 0
  {
    hide History, ClientTable, Delivered, QueueIs, Kept, ServerTable, RequestsOk, AcksOk;
  }

  /** From a threatened live connection some quiet run ends it. */
  lemma {:induction false} SomeRunDies(cat: Catalog, impls: set<Name>, y: Sys) returns (steps: seq<Step>, z: Sys)
    requires Reachable(cat, impls, y) && NoDestructors(cat) && !Peaceful(y) && Bounds(y)
    ensures Run(cat, y, steps, z) && AllQuiet(steps) && !Alive(z)
    decreases Work(y), Rank(y), |y.c.pending|
  {
    hide Reachable, Inv, Apply, Enabled, Peaceful, Alive, NoDestructors, Bounds, Work, Rank;
    if !Alive(y) {
      steps, z := [], y;
    } else if Stuck(cat, y) {
      PeacefulWhenStuck(cat, impls, y);
    } else {
      var step :| Quiet(step) && Enabled(cat, y, step);
      ReachableInv(cat, impls, y);
      QuietDecreases(cat, y, step);
      ReachableStep(cat, impls, y, step);
      EventPart(cat);
      ThreatStays(cat, impls, y, step);
      var m := Apply(cat, y, step);
      var rest;
      if Alive(m) {
        rest, z := SomeRunDies(cat, impls, m);
      } else {
        rest, z := [], m;
      }
      Prefixed(cat, y, step, rest, z);
      steps := [step] + rest;
    }
  }

  lemma EventPart(cat: Catalog)
    requires NoDestructors(cat)
    ensures NoEventDestructors(cat)
  {
  }

  lemma Prefixed(cat: Catalog, y: Sys, step: Step, rest: seq<Step>, z: Sys)
    requires Enabled(cat, y, step) && Quiet(step) && Run(cat, Apply(cat, y, step), rest, z) && AllQuiet(rest)
    ensures Run(cat, y, [step] + rest, z) && AllQuiet([step] + rest)
  {
    RunCons(cat, y, step, rest, z);
  }

  /** A dead connection stays dead. */
  lemma QuietStaysDead(cat: Catalog, y: Sys, step: Step)
    requires Inv(cat, y) && !Alive(y) && Enabled(cat, y, step) && Quiet(step)
    ensures !Alive(Apply(cat, y, step))
  {
    hide History, ClientTable, Delivered, QueueIs, Kept, ServerTable, ClientHello, ServerHello, RequestsOk, AcksOk;
    hide ServerHandle, Finish, FlushOne, Handle;
    StepKeepsInv(cat, y, step);
    QuietMoves(cat, y, step);
    if step.ClientHandle? && y.c.error { HandleKeepsError(y.c, y.s2c[y.sRead]); }
    if step.ClientFlushOne? { FlushKeepsError(y.c); }
  }

  lemma HandleKeepsError(c: Client, m: SMsg)
    requires c.error
    ensures Handle(c, m).c.error
  {
  }

  lemma FlushKeepsError(c: Client)
    requires c.pending != []
    ensures FlushOne(c).c.error == c.error
  {
  }

  lemma {:induction false} ThreatenedRun(cat: Catalog, impls: set<Name>, y: Sys, steps: seq<Step>, z: Sys)
    requires Reachable(cat, impls, y) && NoEventDestructors(cat) && (!Alive(y) || !Peaceful(y))
    requires Run(cat, y, steps, z) && AllQuiet(steps)
    ensures Reachable(cat, impls, z) && (!Alive(z) || !Peaceful(z))
    decreases |steps|
  {
    if steps != [] {
      ReachableInv(cat, impls, y);
      ReachableStep(cat, impls, y, steps[0]);
      if Alive(y) { ThreatStays(cat, impls, y, steps[0]); } else { QuietStaysDead(cat, y, steps[0]); }
      assert AllQuiet(steps[1..]);
      ThreatenedRun(cat, impls, Apply(cat, y, steps[0]), steps[1..], z);
    }
  }

  lemma {:induction false} UnclearRun(cat: Catalog, impls: set<Name>, y: Sys, steps: seq<Step>, z: Sys)
    requires Reachable(cat, impls, y) && (!Alive(y) || !Clear(y)) && Run(cat, y, steps, z) && AllQuiet(steps)
    ensures Reachable(cat, impls, z) && (!Alive(z) || !Clear(z))
    decreases |steps|
  {
    hide Reachable, Inv, Alive, Clear, Enabled, Apply;
    if steps != [] {
      ReachableInv(cat, impls, y);
      ReachableStep(cat, impls, y, steps[0]);
      if Alive(y) { UnclearStays(cat, impls, y, steps[0]); } else { QuietStaysDead(cat, y, steps[0]); }
      assert AllQuiet(steps[1..]);
      UnclearRun(cat, impls, Apply(cat, y, steps[0]), steps[1..], z);
    }
  }

  /** For every protocol, with destructors or without: once something undelivered threatens a
      connection, no schedule saves it. */
  lemma UnclearDies(cat: Catalog, impls: set<Name>, y: Sys, steps: seq<Step>, z: Sys)
    requires Reachable(cat, impls, y) && !Clear(y) && Run(cat, y, steps, z) && AllQuiet(steps) && Stuck(cat, z)
    ensures !Alive(z)
  {
    hide Reachable, Run, Stuck, Clear, Alive, Inv;
    UnclearRun(cat, impls, y, steps, z);
    if Alive(z) {
      ReachableInv(cat, impls, z);
      ClearWhenStuck(cat, z);
    }
  }

  /** Whatever is delivered next, the connection survives. */
  ghost predicate Survives(cat: Catalog, y: Sys) {
    forall steps, z :: Run(cat, y, steps, z) && AllQuiet(steps) ==> Alive(z)
  }

  /** No schedule saves a threatened connection: every quiet run that cannot go on has ended
      it. */
  lemma UnpeacefulDies(cat: Catalog, impls: set<Name>, y: Sys, steps: seq<Step>, z: Sys)
    requires Reachable(cat, impls, y) && NoDestructors(cat) && !Peaceful(y)
    requires Run(cat, y, steps, z) && AllQuiet(steps) && Stuck(cat, z)
    ensures !Alive(z)
  {
    hide Reachable, Run, Stuck, Peaceful, Alive;
    ThreatenedRun(cat, impls, y, steps, z);
    if Alive(z) { PeacefulWhenStuck(cat, impls, z); }
  }

  /** A live connection of a protocol without destructors survives every quiet run if and
      only if it is peaceful: no version 0 bind and no array too long is parked or on its way,
      the list of protocols is short enough, and every event on its way is for an object the
      client still has. */
  lemma PeacefulIff(cat: Catalog, impls: set<Name>, y: Sys)
    requires Reachable(cat, impls, y) && NoDestructors(cat) && Alive(y)
    ensures Peaceful(y) <==> Survives(cat, y)
  {
    hide Reachable, Inv, Peaceful, NoDestructors, Alive, Bounds;
    ReachableInv(cat, impls, y);
    InvBounds(cat, y);
    if Peaceful(y) {
      forall steps, z | Run(cat, y, steps, z) && AllQuiet(steps) ensures Alive(z) {
        QuietRunsDrain(cat, impls, y, steps, z);
      }
    } else {
      var steps, z := SomeRunDies(cat, impls, y);
    }
  }
}
