// Calls that wait for ever.  The server creates nothing for an object it has destroyed and
// does not say so (hyprwire/src/server/server_object.rs:108-111), so what was to be created
// never gets an id.  This says exactly when.
module Refusals {
  import opened Types
  import opened ClientModel
  import opened ServerModel
  import opened System
  import opened Invariant
  import opened ClientSteps
  import opened ClientReads
  import opened ServerSteps
  import opened ServerRequests
  import opened Disconnection
  import opened Protocol
  import opened Deferral
  import opened Progress
  import opened CallOrder

  // ---- the destroyed flag, as seen on the wire ---------------------------------------------

  /** A destructor event of the server object `x` is among the first `mark` server messages. */
  ghost predicate DestroyedBefore(y: Sys, x: nat, mark: nat) {
    exists q :: 0 <= q < mark && q < |y.s2c| && Kills(y.s.objs, y.s2c[q], x)
  }

  /** Objects whose destructor event was sent are destroyed. */
  ghost predicate EventsDestroy(y: Sys) {
    forall x: nat :: DestroyedBefore(y, x, |y.s2c|) ==> 1 <= x <= |y.s.objs| && y.s.objs[x - 1].destroyed
  }

  /** A destroyed object that is still in the table was destroyed by an event. */
  ghost predicate DestroyedByEvent(y: Sys) {
    !y.s.gone ==> forall i: nat :: i in y.s.table && i < |y.s.objs| && y.s.objs[i].destroyed ==>
                                     DestroyedBefore(y, i + 1, |y.s2c|)
  }

  /** What became of the creation request processed at `p`: a bind always makes its object; a
      request makes none if its target was destroyed before, and only then on a connection
      without error. */
  ghost predicate Recorded(y: Sys, p: nat)
    requires p < |y.c2s| && p < |y.handled|
  {
    match y.c2s[p]
    case BindProtocol(_, _, _) => y.handled[p].made != 0
    case Request(x, _, ret, _, _) =>
      ret != 0 ==>
        && (DestroyedBefore(y, x, y.handled[p].mark) ==> y.handled[p].made == 0)
        && (!y.s.error && y.handled[p].made == 0 ==> DestroyedBefore(y, x, y.handled[p].mark))
    case _ => true
  }

  ghost predicate AllRecorded(y: Sys) {
    forall p: nat :: p < |y.c2s| && p < |y.handled| ==> Recorded(y, p)
  }

  ghost predicate Flagged(y: Sys) {
    EventsDestroy(y) && DestroyedByEvent(y) && AllRecorded(y)
  }

  // ---- it holds along every run --------------------------------------------------------------

  /** What a step may do to the flags: set them with the event that says so, or on objects
      that leave the table; new objects come undestroyed. */
  ghost predicate FlagsMove(y: Sys, z: Sys) {
    && (forall x: nat :: 1 <= x <= |y.s.objs| && NewlyKilled(y, z, x) ==> z.s.objs[x - 1].destroyed)
    && (forall x: nat :: NewlyKilled(y, z, x) ==> x <= |y.s.objs|)
    && (z.s.gone || !y.s.gone)
    && (!z.s.gone ==> forall i: nat :: i in z.s.table && i < |z.s.objs| && z.s.objs[i].destroyed ==>
          (i < |y.s.objs| && i in y.s.table && y.s.objs[i].destroyed) || NewlyKilled(y, z, i + 1))
  }

  ghost predicate NewlyKilled(y: Sys, z: Sys, x: nat) {
    exists q :: |y.s2c| <= q < |z.s2c| && Kills(z.s.objs, z.s2c[q], x)
  }

  /** An old destructor event stays one, and is of an old object. */
  lemma OldKills(cat: Catalog, y: Sys, z: Sys, q: nat, x: nat)
    requires History(cat, y) && Extends(y, z) && q < |y.s2c|
    ensures Kills(z.s.objs, z.s2c[q], x) <==> Kills(y.s.objs, y.s2c[q], x)
  {
    assert SMsgOk(y, q);
    if 1 <= x <= |y.s.objs| { assert SameSObj(y.s.objs[x - 1], z.s.objs[x - 1]); }
  }

  lemma BeforeStable(cat: Catalog, y: Sys, z: Sys, x: nat, mark: nat)
    requires History(cat, y) && Extends(y, z) && mark <= |y.s2c|
    ensures DestroyedBefore(y, x, mark) <==> DestroyedBefore(z, x, mark)
  {
    hide Kills, History, Extends;
    PrefixOf(y, z);
    forall q: nat | q < |y.s2c| ensures Kills(z.s.objs, z.s2c[q], x) <==> Kills(y.s.objs, y.s2c[q], x) {
      OldKills(cat, y, z, q, x);
    }
  }

  lemma PrefixOf(y: Sys, z: Sys)
    requires Extends(y, z)
    ensures y.s2c <= z.s2c && y.c2s <= z.c2s && y.handled <= z.handled && |y.s.objs| <= |z.s.objs| && (y.s.error ==> z.s.error)
  {
  }

  lemma BeforeNow(cat: Catalog, y: Sys, z: Sys, x: nat)
    requires History(cat, y) && Extends(y, z)
    ensures DestroyedBefore(z, x, |z.s2c|) <==> DestroyedBefore(y, x, |y.s2c|) || NewlyKilled(y, z, x)
  {
    hide Kills, History, Extends;
    PrefixOf(y, z);
    BeforeStable(cat, y, z, x, |y.s2c|);
  }

  lemma FlagsStay(cat: Catalog, y: Sys, z: Sys)
    requires History(cat, y) && Extends(y, z) && EventsDestroy(y) && DestroyedByEvent(y) && FlagsMove(y, z)
    ensures EventsDestroy(z) && DestroyedByEvent(z)
  {
    hide DestroyedBefore, NewlyKilled, History;
    forall x: nat | DestroyedBefore(z, x, |z.s2c|) ensures 1 <= x <= |z.s.objs| && z.s.objs[x - 1].destroyed {
      BeforeNow(cat, y, z, x);
      Positive(z, x);
      if DestroyedBefore(y, x, |y.s2c|) { assert SameSObj(y.s.objs[x - 1], z.s.objs[x - 1]); }
    }
    forall i: nat | !z.s.gone && i in z.s.table && i < |z.s.objs| && z.s.objs[i].destroyed
      ensures DestroyedBefore(z, i + 1, |z.s2c|)
    {
      BeforeNow(cat, y, z, i + 1);
    }
  }

  lemma Positive(z: Sys, x: nat)
    requires DestroyedBefore(z, x, |z.s2c|)
    ensures 1 <= x <= |z.s.objs|
  {
  }

  /** A step that processes nothing keeps the records. */
  lemma RecordsStay(cat: Catalog, y: Sys, z: Sys)
    requires History(cat, y) && Extends(y, z) && AllRecorded(y)
    ensures forall p: nat :: p < |y.c2s| && p < |y.handled| ==> p < |z.handled| && p < |z.c2s| && Recorded(z, p)
  {
    hide DestroyedBefore, Extends;
    PrefixOf(y, z);
    HistoryMarks(cat, y);
    forall p: nat | p < |y.c2s| && p < |y.handled| ensures p < |z.handled| && p < |z.c2s| && Recorded(z, p) {
      assert Recorded(y, p);
      if y.c2s[p].Request? { BeforeStable(cat, y, z, y.c2s[p].target, y.handled[p].mark); }
    }
  }

  lemma OtherFlagged(cat: Catalog, y: Sys, z: Sys)
    requires History(cat, y) && Flagged(y) && Extends(y, z) && FlagsMove(y, z) && z.handled == y.handled
    ensures Flagged(z)
  {
    hide EventsDestroy, DestroyedByEvent, FlagsMove, Extends, Recorded;
    FlagsStay(cat, y, z);
    RecordsStay(cat, y, z);
    HandledBounds(cat, y);
  }

  lemma HandledBounds(cat: Catalog, y: Sys)
    requires History(cat, y)
    ensures |y.handled| == y.cRead <= |y.c2s|
  {
  }

  // ---- step by step ----------------------------------------------------------------------------

  /** Nothing of the server but flags of the dispatch moves. */
  lemma SameServerMoves(y: Sys, z: Sys)
    requires z.s.objs == y.s.objs && z.s.table == y.s.table && z.s.gone == y.s.gone && y.s2c <= z.s2c
    requires forall q :: |y.s2c| <= q < |z.s2c| ==> !z.s2c[q].Event?
    ensures FlagsMove(y, z)
  {
  }

  lemma SpeechMoves(y: Sys, w: Speech)
    requires SaneIds(y.s.objs)
    ensures FlagsMove(y, Emit(y, SpeakOne(y.s, w)))
  {
    hide Killed, Kills;
    var r := SpeakOne(y.s, w);
    var z := Emit(y, r);
    SpokeOne(y.s, w);
    forall x: nat ensures NewlyKilled(y, z, x) <==> Killed(y.s.objs, r.out, x) { NewIsSaid(y, z, r.out, x); }
    KilledExists(y.s.objs, r.out);
  }

  lemma NewIsSaid(y: Sys, z: Sys, out: seq<SMsg>, x: nat)
    requires z.s2c == y.s2c + out && SameObjs(y.s.objs, z.s.objs)
    ensures NewlyKilled(y, z, x) <==> Killed(y.s.objs, out, x)
  {
    hide Kills;
    KillsSame(y.s.objs, z.s.objs, out, x);
    if NewlyKilled(y, z, x) {
      var q :| |y.s2c| <= q < |z.s2c| && Kills(z.s.objs, z.s2c[q], x);
      assert out[q - |y.s2c|] == z.s2c[q];
    }
    if Killed(z.s.objs, out, x) {
      var k :| 0 <= k < |out| && Kills(z.s.objs, out[k], x);
      assert z.s2c[|y.s2c| + k] == out[k];
    }
  }

  lemma KilledExists(objs: seq<SObj>, out: seq<SMsg>)
    ensures forall x: nat :: Killed(objs, out, x) ==> 1 <= x <= |objs|
  {
  }

  lemma DisconnectMoves(y: Sys, scripts: seq<seq<Speech>>)
    requires ServerTable(y.s) && !y.s.gone && |scripts| == |y.s.table|
    ensures FlagsMove(y, Emit(y, Disconnect(y.s, scripts)))
  {
    hide Killed, Kills, KilledBefore, WantsDestructor, Disconnect, ServerTable, Flat, SameObjs;
    var r := Disconnect(y.s, scripts);
    var z := Emit(y, r);
    var d, said := DisconnectDelivers(y.s, scripts);
    forall x: nat ensures NewlyKilled(y, z, x) <==> Killed(y.s.objs, r.out, x) { NewIsSaid(y, z, r.out, x); }
    KilledExists(y.s.objs, r.out);
    SameLength(y.s.objs, r.s.objs);
  }

  lemma SameLength(a: seq<SObj>, b: seq<SObj>)
    requires SameObjs(a, b)
    ensures |a| == |b|
  {
  }

  lemma FinishMoves(y: Sys)
    requires ServerTable(y.s) && y.s.finishing != 0
    ensures FlagsMove(y, y.(s := Finish(y.s)))
  {
    var ids := ServerIdIs(y.s.objs, y.s.finishing);
    assert y.s.finishing - 1 in ids;
  }

  /** Processing a message sends no event, destroys nothing, and makes only new objects. */
  lemma ProcessMoves(cat: Catalog, y: Sys, z: Sys)
    requires Inv(cat, y) && Enabled(cat, y, ServerHandleNext) && z == Apply(cat, y, ServerHandleNext)
    ensures FlagsMove(y, z)
  {
    hide History, ClientTable, Delivered, QueueIs, Kept, ClientHello, ServerHello, RequestsOk, AcksOk, Kills;
    hide ServerHandle, Unparsable;
    var m := y.c2s[y.cRead];
    TakesObjects(cat, y.s, m, y.cRead, |y.s2c|);
    ServerSaysNoEvent(cat, y.s, m, y.cRead, |y.s2c|);
    forall x: nat ensures !NewlyKilled(y, z, x) { NotAnEvent(y, z, x); }
  }

  lemma NotAnEvent(y: Sys, z: Sys, x: nat)
    requires y.s2c <= z.s2c && forall q :: |y.s2c| <= q < |z.s2c| ==> !z.s2c[q].Event?
    ensures !NewlyKilled(y, z, x)
  {
  }

  lemma ServerSaysNoEvent(cat: Catalog, s: Server, m: CMsg, cause: nat, at: nat)
    ensures var r := ServerHandle(cat, s, m, cause, at);
      r.s.gone == s.gone && forall k :: 0 <= k < |r.out| ==> !r.out[k].Event?
  {
    hide ServerOnGeneric, PickIface;
    if m.Request? { OnGenericWork(cat, s.(phase := true), m.target, m.op, m.ret, cause, at); }
  }

  ghost predicate GrowsFresh(s: Server, t: Server) {
    && s.objs <= t.objs && (forall i :: |s.objs| <= i < |t.objs| ==> !t.objs[i].destroyed)
    && (forall i :: i in t.table && i < |s.objs| ==> i in s.table)
  }

  lemma TakesObjects(cat: Catalog, s: Server, m: CMsg, cause: nat, at: nat)
    requires ServerTable(s)
    ensures GrowsFresh(s, ServerHandle(cat, s, m, cause, at).s)
  {
    hide ServerOnGeneric, PickIface, ServerTable, GrowsFresh;
    if m.Request? { GenericGrows(cat, s.(phase := true), m.target, m.op, m.ret, cause, at); }
    if m.BindProtocol? && !Unparsable(m) {
      AddGrows(s.(phase := true), [NewServerObject(cat, s.(phase := true), m.proto, [], m.bindVersion, m.seqNo, cause, at)]);
    }
    SameGrows(s, ServerHandle(cat, s, m, cause, at).s);
    PhaseGrows(s, ServerHandle(cat, s, m, cause, at).s);
  }

  lemma SameGrows(s: Server, t: Server)
    ensures t.objs == s.objs && t.table == s.table ==> GrowsFresh(s, t)
  {
  }

  lemma PhaseGrows(s: Server, t: Server)
    ensures GrowsFresh(s.(phase := true), t) ==> GrowsFresh(s, t)
  {
  }

  lemma AddGrows(s: Server, made: seq<SObj>)
    requires forall i :: 0 <= i < |made| ==> !made[i].destroyed
    ensures GrowsFresh(s, AddServerObject(s, made))
  {
  }

  lemma GenericGrows(cat: Catalog, s: Server, x: nat, m: nat, ret: nat, cause: nat, at: nat)
    ensures GrowsFresh(s, ServerOnGeneric(cat, s, x, m, ret, cause, at).s)
  {
    hide First, ServerIdIs, PickIface;
    if First(s.table, ServerIdIs(s.objs, x)).Some? {
      var i := First(s.table, ServerIdIs(s.objs, x)).value;
      if i < |s.objs| && HasHandler(s.objs[i], m) {
        AddGrows(s, Created(cat, s, s.objs[i], m, ret, cause, at));
      }
    }
  }

  // ---- what a creation request meets --------------------------------------------------------

  /** A request for a returned object, on an object of the table, is refused exactly if that
      object's destroyed flag is set. */
  lemma CreationRefusedIff(cat: Catalog, y: Sys)
    requires Inv(cat, y) && Enabled(cat, y, ServerHandleNext) && y.c2s[y.cRead].Request?
    requires !Unparsable(y.c2s[y.cRead]) && y.c2s[y.cRead].ret != 0
    requires 1 <= y.c2s[y.cRead].target <= |y.s.objs| && y.c2s[y.cRead].target - 1 in y.s.table
    ensures Apply(cat, y, ServerHandleNext).handled[y.cRead].made == 0 <==> y.s.objs[y.c2s[y.cRead].target - 1].destroyed
  {
    hide ClientTable, Delivered, QueueIs, Kept, ClientHello, ServerHello, RequestsOk, AcksOk, Unparsable, PickIface;
    RequestArrives(cat, y, y.cRead);
    ServerLookup(y.s, y.c2s[y.cRead].target);
    HandledBounds(cat, y);
  }

  /** A request on an object that is not in the table makes nothing and is an error. */
  lemma UnknownRefused(cat: Catalog, y: Sys)
    requires Inv(cat, y) && Enabled(cat, y, ServerHandleNext) && y.c2s[y.cRead].Request? && !Unparsable(y.c2s[y.cRead])
    requires y.c2s[y.cRead].target == 0 || y.c2s[y.cRead].target - 1 !in y.s.table
    ensures var z := Apply(cat, y, ServerHandleNext); z.handled[y.cRead].made == 0 && z.s.error
  {
    hide ClientTable, Delivered, QueueIs, Kept, ClientHello, ServerHello, RequestsOk, AcksOk, Unparsable, PickIface;
    ServerLookup(y.s, y.c2s[y.cRead].target);
    HandledBounds(cat, y);
  }

  /** The new record is right. */
  lemma RequestRecorded(cat: Catalog, y: Sys, z: Sys)
    requires Inv(cat, y) && Flagged(y) && Enabled(cat, y, ServerHandleNext) && z == Apply(cat, y, ServerHandleNext)
    requires y.c2s[y.cRead].Request? && !Unparsable(y.c2s[y.cRead]) && Extends(y, z)
    requires y.cRead < |z.handled| && |y.s2c| <= z.handled[y.cRead].mark == |z.s2c| && z.c2s == y.c2s
    requires forall x: nat :: !NewlyKilled(y, z, x)
    ensures Recorded(z, y.cRead)
  {
    hide Apply, Kills, Unparsable, NewlyKilled, AllRecorded, Extends;
    hide ClientTable, Delivered, QueueIs, Kept, ClientHello, ServerHello, RequestsOk, AcksOk;
    var x := y.c2s[y.cRead].target;
    RequestArrives(cat, y, y.cRead);
    BeforeNow(cat, y, z, x);
    if y.c2s[y.cRead].ret != 0 {
      if x - 1 in y.s.table {
        CreationRefusedIff(cat, y);
        StillServing(cat, y);
      } else {
        UnknownRefused(cat, y);
      }
    }
  }

  lemma StillServing(cat: Catalog, y: Sys)
    requires Enabled(cat, y, ServerHandleNext)
    ensures !y.s.gone
  {
  }

  lemma ProcessFlagged(cat: Catalog, y: Sys)
    requires Inv(cat, y) && Flagged(y) && Enabled(cat, y, ServerHandleNext)
    ensures Flagged(Apply(cat, y, ServerHandleNext))
  {
    hide EventsDestroy, DestroyedByEvent, Recorded, Extends, FlagsMove, Unparsable, NewlyKilled;
    hide ClientTable, Delivered, QueueIs, Kept, ServerTable, ClientHello, ServerHello, RequestsOk, AcksOk, History, Apply, Enabled;
    var z := Apply(cat, y, ServerHandleNext);
    ServerHandleKeepsInv(cat, y);
    ProcessMoves(cat, y, z);
    FlagsStay(cat, y, z);
    RecordsStay(cat, y, z);
    HandledBounds(cat, y);
    NewRecord(cat, y, z);
  }

  lemma NewRecord(cat: Catalog, y: Sys, z: Sys)
    requires Inv(cat, y) && Flagged(y) && Enabled(cat, y, ServerHandleNext) && z == Apply(cat, y, ServerHandleNext)
    requires Extends(y, z)
    ensures z.c2s == y.c2s && |z.handled| <= |y.handled| + 1
    ensures |z.handled| > |y.handled| ==> y.cRead == |y.handled| < |z.c2s| && Recorded(z, y.cRead)
  {
    hide EventsDestroy, DestroyedByEvent, Extends, Unparsable, Kills, ServerTake;
    hide ClientTable, Delivered, QueueIs, Kept, ServerTable, ClientHello, ServerHello, RequestsOk, AcksOk, History;
    InvBounds(cat, y);
    var m := y.c2s[y.cRead];
    if !Unparsable(m) {
      ServerSaysNoEvent(cat, y.s, m, y.cRead, |y.s2c|);
      if m.Request? {
        forall x: nat ensures !NewlyKilled(y, z, x) { NotAnEvent(y, z, x); }
        RequestRecorded(cat, y, z);
      } else if m.BindProtocol? {
        BindMakes(cat, y, z);
      }
    }
  }

  lemma BindMakes(cat: Catalog, y: Sys, z: Sys)
    requires Bounds(y) && Enabled(cat, y, ServerHandleNext) && z == Apply(cat, y, ServerHandleNext)
    requires y.c2s[y.cRead].BindProtocol? && !Unparsable(y.c2s[y.cRead])
    ensures z.handled[y.cRead].made != 0
  {
  }

  lemma QuietServerMoves(cat: Catalog, y: Sys, step: Step)
    requires Inv(cat, y) && Enabled(cat, y, step)
    requires !step.ServerHandleNext? && !step.ServerEvent? && !step.ServerRaise? && !step.ServerDisconnect? && !step.ServerFinish?
    ensures var z := Apply(cat, y, step);
      && z.handled == y.handled && z.s.objs == y.s.objs && z.s.table == y.s.table && z.s.gone == y.s.gone && y.s2c <= z.s2c
      && forall q :: |y.s2c| <= q < |z.s2c| ==> !z.s2c[q].Event?
  {
    hide Inv, Handle, FlushOne, DoCall, DropObject, Bind, Roundtrip;
    match step
    case AppCall(o, op, args) => CallKeepsServer(cat, y, o, op, args);
    case AppRelease(o) =>
      DropKeepsServer(cat, y.(c := y.c.(objs := y.c.objs[o := y.c.objs[o].(held := false)])), o);
    case ClientCollect(o) => DropKeepsServer(cat, y.(c := Discard(y.c, o)), o);
    case _ =>
  }

  lemma TableSane(s: Server)
    requires ServerTable(s)
    ensures SaneIds(s.objs)
  {
  }

  lemma StepFlagged(cat: Catalog, y: Sys, step: Step)
    requires Inv(cat, y) && Flagged(y) && Enabled(cat, y, step)
    ensures Flagged(Apply(cat, y, step))
  {
    hide Flagged, Extends, FlagsMove, History, ClientTable, Delivered, QueueIs, Kept, ServerTable, ClientHello, ServerHello, RequestsOk, AcksOk;
    hide Disconnect, Finish, SendEvent, RaiseError, ServerHandle, Handle;
    var z := Apply(cat, y, step);
    StepKeepsInv(cat, y, step);
    TableSane(y.s);
    match step
    case ServerHandleNext => ProcessFlagged(cat, y);
    case ServerEvent(o, m, args) =>
      SpeechMoves(y, Say(o, m, args));
      OtherFlagged(cat, y, z);
    case ServerRaise(o) =>
      SpeechMoves(y, Complain(o));
      OtherFlagged(cat, y, z);
    case ServerDisconnect(scripts) =>
      DisconnectMoves(y, scripts);
      OtherFlagged(cat, y, z);
    case ServerFinish =>
      FinishMoves(y);
      OtherFlagged(cat, y, z);
    case _ =>
      QuietServerMoves(cat, y, step);
      SameServerMoves(y, z);
      OtherFlagged(cat, y, z);
  }

  lemma {:induction false} RunFlagged(cat: Catalog, y: Sys, steps: seq<Step>, z: Sys)
    requires Inv(cat, y) && Flagged(y) && Run(cat, y, steps, z)
    ensures Flagged(z)
    decreases |steps|
  {
    hide Inv, Flagged, Apply, Enabled;
    if steps != [] {
      StepKeepsInv(cat, y, steps[0]);
      StepFlagged(cat, y, steps[0]);
      RunFlagged(cat, Apply(cat, y, steps[0]), steps[1..], z);
    }
  }

  lemma ReachableFlagged(cat: Catalog, impls: set<Name>, y: Sys)
    requires Reachable(cat, impls, y)
    ensures Flagged(y) && Inv(cat, y)
  {
    hide Inv, Run;
    ReachableInv(cat, impls, y);
    InitInv(cat, impls);
    var steps :| Run(cat, Init(impls), steps, y);
    RunFlagged(cat, Init(impls), steps, y);
  }

  // ---- what follows ------------------------------------------------------------------------------

  /** The destroyed flag of an object in the table is on the wire: it is set exactly if a
      destructor event of the object was sent. */
  lemma DestroyedFlagIff(cat: Catalog, impls: set<Name>, y: Sys, x: nat)
    requires Reachable(cat, impls, y) && !y.s.gone && 1 <= x <= |y.s.objs| && x - 1 in y.s.table
    ensures y.s.objs[x - 1].destroyed <==> DestroyedBefore(y, x, |y.s2c|)
  {
    hide Inv, DestroyedBefore, AllRecorded;
    ReachableFlagged(cat, impls, y);
    assert y.s.objs[x - 1].destroyed ==> DestroyedBefore(y, x - 1 + 1, |y.s2c|);
  }

  /** Object `i` will never have an id: the request that asks for it reached the server after a
      destructor event of its creator had been sent; or that request was dropped after such an
      event was read, or waits for an object that will never have an id. */
  ghost predicate Refused(y: Sys, i: nat)
    decreases i
  {
    && i < |y.c.objs| && 0 < y.c.objs[i].seqNo <= |y.alloc|
    && match y.alloc[y.c.objs[i].seqNo - 1]
       case Bound(_) => false
       case Made(k) =>
         && k < |y.calls|
         && match y.calls[k].fate
            case Sent(p) =>
              p < |y.handled| && p < |y.c2s| && y.c2s[p].Request? && DestroyedBefore(y, y.c2s[p].target, y.handled[p].mark)
            case Dropped => y.calls[k].on < |y.c.objs| && DestructorRead(y, y.calls[k].on)
            case Waiting => y.calls[k].on < i && Refused(y, y.calls[k].on)
  }

  /** Where an object with an id comes from: its request was processed and made it. */
  lemma ResolvedWasMade(cat: Catalog, y: Sys, i: nat)
    requires Inv(cat, y) && i < |y.c.objs| && y.c.objs[i].id != 0
    ensures 0 < y.c.objs[i].seqNo <= |y.alloc|
    ensures y.alloc[y.c.objs[i].seqNo - 1].Made? ==>
      var k := y.alloc[y.c.objs[i].seqNo - 1].call;
      && k < |y.calls| && y.calls[k].fate.Sent?
      && var p := y.calls[k].fate.pos;
      && p < |y.handled| && p < |y.c2s| && y.c2s[p].Request? && y.c2s[p].ret == y.c.objs[i].seqNo && y.handled[p].made != 0
  {
    hide ClientTable, Delivered, QueueIs, Kept, ServerTable, ClientHello, ServerHello, RequestsOk, AcksOk;
    var o := y.c.objs[i];
    assert ObjOk(cat, y, i);
    assert SObjOk(y, o.id - 1);
    var cause := y.s.objs[o.id - 1].cause;
    assert CMsgOk(y, cause);
    if y.c2s[cause].Request? { assert CallOk(y, y.c2s[cause].call); }
  }

  /** A refused object has no id, in any reachable state. */
  lemma RefusedIsUnresolved(cat: Catalog, impls: set<Name>, y: Sys, i: nat)
    requires Reachable(cat, impls, y) && Refused(y, i)
    ensures y.c.objs[i].id == 0
  {
    hide Inv, Flagged, Refused, Reachable;
    ReachableFlagged(cat, impls, y);
    RefusedNotMade(y, i);
    if y.c.objs[i].id != 0 { ResolvedWasMade(cat, y, i); }
  }

  /** The request behind a refused object made nothing. */
  lemma RefusedNotMade(y: Sys, i: nat)
    requires Flagged(y) && Refused(y, i)
    ensures i < |y.c.objs| && 0 < y.c.objs[i].seqNo <= |y.alloc|
    ensures var a := y.alloc[y.c.objs[i].seqNo - 1];
      && a.Made? && a.call < |y.calls|
      && (y.calls[a.call].fate.Sent? ==>
            var p := y.calls[a.call].fate.pos;
            p < |y.handled| && p < |y.c2s| && y.c2s[p].Request? && (y.c2s[p].ret != 0 ==> y.handled[p].made == 0))
  {
    hide DestroyedBefore, EventsDestroy, DestroyedByEvent;
    var a := y.alloc[y.c.objs[i].seqNo - 1];
    if y.calls[a.call].fate.Sent? { assert Recorded(y, y.calls[a.call].fate.pos); }
  }

  /** On a connection without error whose messages are all read, an object without an id was
      refused. */
  lemma {:induction false} UnresolvedIsRefused(cat: Catalog, impls: set<Name>, y: Sys, i: nat)
    requires Reachable(cat, impls, y) && Inv(cat, y) && Flagged(y) && !y.s.error && y.c.phase.Idle? && y.cRead == |y.c2s| && y.sRead == |y.s2c|
    requires i < |y.c.objs| && y.c.objs[i].id == 0
    ensures Refused(y, i)
    decreases i
  {
    hide Kept, ServerHello, AcksOk, SMsgOk, DestroyedBefore, EventsDestroy, DestroyedByEvent, Reachable, DestructorRead;
    assert ObjOk(cat, y, i);
    match y.alloc[y.c.objs[i].seqNo - 1]
    case Bound(p) =>
      assert Recorded(y, p);
      MadeIsResolved(cat, y, i, p);
    case Made(k) =>
      assert CallOk(y, k);
      match y.calls[k].fate
      case Sent(p) =>
        assert CMsgOk(y, p) && Recorded(y, p);
        if y.handled[p].made != 0 { MadeIsResolved(cat, y, i, p); }
      case Dropped => NoDeferredCallLost(cat, impls, y);
      case Waiting =>
        WaitingInQueue(cat, y, k);
        UnresolvedIsRefused(cat, impls, y, y.calls[k].on);
  }

  /** Exactly the refused objects are without an id where nothing moves any more. */
  lemma StuckUnresolvedIff(cat: Catalog, impls: set<Name>, y: Sys, i: nat)
    requires Reachable(cat, impls, y) && Alive(y) && Stuck(cat, y) && i < |y.c.objs|
    ensures y.c.objs[i].id == 0 <==> Refused(y, i)
  {
    hide Inv, Flagged, Refused, Reachable, Stuck;
    ReachableFlagged(cat, impls, y);
    StuckHasReadAll(cat, y);
    if y.c.objs[i].id == 0 { UnresolvedIsRefused(cat, impls, y, i); }
    if Refused(y, i) { RefusedIsUnresolved(cat, impls, y, i); }
  }

  /** A call on an object without an id waits; one on an object with an id was decided. */
  lemma UndecidedCall(cat: Catalog, y: Sys, k: nat)
    requires Inv(cat, y) && k < |y.calls|
    ensures y.calls[k].on < |y.c.objs|
    ensures y.c.objs[y.calls[k].on].id == 0 ==> y.calls[k].fate.Waiting?
  {
    hide ClientTable, Delivered, QueueIs, Kept, ServerTable, ClientHello, ServerHello, RequestsOk, AcksOk;
    assert CallOk(y, k);
    if y.calls[k].fate.Sent? { assert CMsgOk(y, y.calls[k].fate.pos); }
  }

  /** No run ever gives a refused object an id, and no call on it is ever sent or dropped. */
  lemma {:induction false} RefusedForEver(cat: Catalog, impls: set<Name>, y: Sys, steps: seq<Step>, z: Sys, i: nat)
    requires Reachable(cat, impls, y) && Run(cat, y, steps, z) && Refused(y, i)
    ensures Refused(z, i) && z.c.objs[i].id == 0
    ensures forall k :: 0 <= k < |z.calls| && z.calls[k].on == i ==> z.calls[k].fate.Waiting?
  {
    hide Inv, Flagged, Refused, Reachable, Run;
    ReachableFlagged(cat, impls, y);
    ReachableRun(cat, impls, y, steps, z);
    RunKeepsInv(cat, y, steps, z);
    RefusedStays(cat, impls, y, z, i);
    RefusedIsUnresolved(cat, impls, z, i);
    forall k: nat | k < |z.calls| && z.calls[k].on == i ensures z.calls[k].fate.Waiting? {
      UndecidedCall(cat, z, k);
    }
  }

  lemma ReachableRun(cat: Catalog, impls: set<Name>, y: Sys, steps: seq<Step>, z: Sys)
    requires Reachable(cat, impls, y) && Run(cat, y, steps, z)
    ensures Reachable(cat, impls, z)
  {
    hide Run;
    var a :| Run(cat, Init(impls), a, y);
    RunJoin(cat, Init(impls), a, y, steps, z);
  }

  lemma {:induction false} RefusedStays(cat: Catalog, impls: set<Name>, y: Sys, z: Sys, i: nat)
    requires Inv(cat, y) && Inv(cat, z) && Reachable(cat, impls, z) && Extends(y, z) && Refused(y, i)
    ensures Refused(z, i)
    decreases i
  {
    hide Reachable, DestroyedBefore, DestructorRead, ClientTable, Delivered, QueueIs, Kept, ServerTable;
    hide ClientHello, ServerHello, RequestsOk, AcksOk, ObjOk, CallOk, CMsgOk, SObjOk, SMsgOk;
    var a := y.alloc[y.c.objs[i].seqNo - 1];
    var k := a.call;
    assert SameObj(y.c.objs[i], z.c.objs[i]) && SameCall(y.calls[k], z.calls[k], |y.c2s|);
    assert z.alloc[z.c.objs[i].seqNo - 1] == a;
    match y.calls[k].fate
    case Sent(p) =>
      assert HandledOk(y, p) && z.handled[p] == y.handled[p] && z.c2s[p] == y.c2s[p];
      BeforeStable(cat, y, z, y.c2s[p].target, y.handled[p].mark);
    case Dropped => DestructorStaysRead(y, z);
    case Waiting =>
      RefusedStays(cat, impls, y, z, y.calls[k].on);
      RefusedIsUnresolved(cat, impls, z, y.calls[k].on);
      UndecidedCall(cat, z, k);
  }

  lemma IdleFlushed(cat: Catalog, y: Sys)
    requires Inv(cat, y) && y.c.phase.Idle?
    ensures y.c.pending == []
  {
  }

  /** For every protocol: on a live connection where nothing moves any more, a call waits if
      and only if the object it was made on was refused; a dropped call is one on an object
      whose destructor event was read; any other call was sent. */
  lemma EveryCallAccounted(cat: Catalog, impls: set<Name>, y: Sys, k: nat)
    requires Reachable(cat, impls, y) && Alive(y) && Stuck(cat, y) && k < |y.calls|
    ensures y.calls[k].on < |y.c.objs|
    ensures y.calls[k].fate.Waiting? <==> Refused(y, y.calls[k].on)
    ensures y.calls[k].fate.Dropped? ==> DestructorRead(y, y.calls[k].on)
  {
    hide Inv, Flagged, Refused, Reachable, Stuck;
    ReachableFlagged(cat, impls, y);
    StuckHasReadAll(cat, y);
    UndecidedCall(cat, y, k);
    NoDeferredCallLost(cat, impls, y);
    StuckUnresolvedIff(cat, impls, y, y.calls[k].on);
    IdleFlushed(cat, y);
    if y.calls[k].fate.Waiting? { WaitingInQueue(cat, y, k); }
  }
}
