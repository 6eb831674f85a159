// The server steps that create, address and destroy objects.
module ServerRequests {
  import opened Types
  import opened ClientModel
  import opened ServerModel
  import opened System
  import opened Invariant
  import opened ServerSteps
  import Adverts

  // ---- binding and dispatching ------------------------------------------------------

  ghost predicate Binds(cat: Catalog, y: Sys, z: Sys, made: seq<SObj>, m: CMsg)
    requires m.BindProtocol?
  {
    && Processes(y, z, made, if made == [] then [] else [NewObject(m.seqNo, |y.s.objs| + 1)])
    && (made != [] ==>
          made[0] == SObj(m.seqNo, |y.s.objs| + 1, m.bindVersion, m.proto,
                          PickIface(cat, y.s.impls, m.proto, []), false, y.cRead, |y.s2c|))
    && z.s == y.s.(phase := true, objs := y.s.objs + made, maxId := y.s.maxId + |made|,
                   table := y.s.table + (if made == [] then [] else [|y.s.objs|]),
                   error := z.s.error, aborted := z.s.aborted)
    && (y.s.aborted || z.s.aborted ==> z.s.error)
    && z.protoAt == y.protoAt && z.adv == y.adv
  }

  lemma BindShape(cat: Catalog, y: Sys, z: Sys) returns (made: seq<SObj>)
    requires Enabled(cat, y, ServerHandleNext) && z == Apply(cat, y, ServerHandleNext)
    requires y.c2s[y.cRead].BindProtocol? && !Unparsable(y.c2s[y.cRead]) && ServerTable(y.s)
    ensures Binds(cat, y, z, made, y.c2s[y.cRead])
  {
    made := z.s.objs[|y.s.objs|..];
    assert y.s.objs + [] == y.s.objs && y.s2c + [] == y.s2c && y.s.table + [] == y.s.table;
  }

  lemma TableGrows(y: Server, z: Server, made: seq<SObj>)
    requires ServerTable(y) && |made| <= 1 && !y.gone
    requires z == y.(phase := true, objs := y.objs + made, maxId := y.maxId + |made|,
                     table := y.table + (if made == [] then [] else [|y.objs|]),
                     error := z.error, aborted := z.aborted)
    requires made != [] ==> made[0].id == |y.objs| + 1
    requires z.aborted ==> z.error
    ensures ServerTable(z)
  {
    PushIncreasing(y.table, |y.objs|);
    assert y.table + [] == y.table;
  }

  lemma BindHistory(cat: Catalog, y: Sys, z: Sys, made: seq<SObj>)
    requires Inv(cat, y) && y.cRead < |y.c2s| && y.c2s[y.cRead].BindProtocol?
    requires Binds(cat, y, z, made, y.c2s[y.cRead])
    ensures Extends(y, z) && History(cat, z) && Delivered(z)
    ensures ClientTable(z.c) && QueueIs(z, Parked(z.c)) && Kept(z) && MarksBounded(y)
  {
    var m := y.c2s[y.cRead];
    if made == [] {
      ProcessHistory(cat, y, z, []);
    } else {
      assert made == [made[0]];
      BindCreates(cat, y, made[0], m.proto, m.seqNo, m.bindVersion);
      CreateHistory(cat, y, z, made[0], m.seqNo);
    }
  }

  lemma ProcessBind(cat: Catalog, y: Sys, z: Sys)
    requires Inv(cat, y) && Enabled(cat, y, ServerHandleNext) && z == Apply(cat, y, ServerHandleNext)
    requires y.c2s[y.cRead].BindProtocol? && !Unparsable(y.c2s[y.cRead])
    ensures Inv(cat, z) && Extends(y, z)
  {
    var made := BindShape(cat, y, z);
    BindHistory(cat, y, z, made);
    TableGrows(y.s, z.s, made);
    BindHello(cat, y, z, made);
  }

  lemma BindHello(cat: Catalog, y: Sys, z: Sys, made: seq<SObj>)
    requires ClientHello(y) && ServerHello(cat, y) && RequestsOk(y) && AcksOk(y)
    requires Bounds(y) && Bounds(z) && MarksBounded(y)
    requires y.cRead < |y.c2s| && y.c2s[y.cRead].BindProtocol?
    requires Binds(cat, y, z, made, y.c2s[y.cRead])
    ensures ClientHello(z) && ServerHello(cat, z) && RequestsOk(z) && AcksOk(z)
  {
    NotHello(cat, y, z);
    ServerAcksFrame(y, z);
  }

  /** The object a request is for, when the server still has it. */
  lemma ServerLookup(s: Server, x: nat)
    requires ServerTable(s)
    ensures First(s.table, ServerIdIs(s.objs, x)) ==
            (if x != 0 && x - 1 in s.table then Some(x - 1) else None)
  {
    if x != 0 && x - 1 in s.table {
      assert x - 1 in ServerIdIs(s.objs, x);
    }
  }

  /** The outcome of processing the request `m`: an unknown object, or an object of `y`
      dispatched to, possibly creating `made` and possibly starting a destruction. */
  ghost predicate Dispatches(cat: Catalog, y: Sys, z: Sys, made: seq<SObj>, out: seq<SMsg>, m: CMsg)
    requires m.Request?
  {
    && 1 <= m.target <= |y.s.objs| && Processes(y, z, made, out)
    && z.protoAt == y.protoAt && z.adv == y.adv
    && var so := y.s.objs[m.target - 1];
    && (made == [] ==> out == [] || (out == [FatalProtocolError(m.target)] && z.s.error))
    && (made != [] ==>
          && out == [NewObject(m.ret, |y.s.objs| + 1)]
          && so.iface.Some? && m.op < |so.iface.value.c2s| && so.iface.value.c2s[m.op].creates != []
          && made[0] == SObj(m.ret, |y.s.objs| + 1, so.version, so.proto,
                             PickIface(cat, y.s.impls, so.proto, so.iface.value.c2s[m.op].creates),
                             false, y.cRead, |y.s2c|))
  }

  ghost predicate TableAfter(y: Server, z: Server, made: seq<SObj>, x: nat) {
    && z == y.(phase := true, objs := y.objs + made, maxId := y.maxId + |made|,
               table := y.table + (if made == [] then [] else [|y.objs|]),
               error := z.error, finishing := z.finishing, dlog := z.dlog)
    && ((z.finishing == 0 && z.dlog == y.dlog)
        || (x != 0 && x - 1 in y.table && z.finishing == x && (z.dlog == y.dlog || z.dlog == y.dlog + [x])))
  }

  lemma ServerCount(s: Server)
    requires ServerTable(s)
    ensures s.maxId == |s.objs| + 1 && forall i: nat :: i < |s.objs| ==> s.objs[i].id == i + 1
  {
  }

  /** The objects a dispatch creates. */
  function CreatedBy(cat: Catalog, s: Server, i: nat, m: nat, ret: nat, cause: nat, at: nat): seq<SObj>
    requires i < |s.objs|
  {
    if HasHandler(s.objs[i], m) then Created(cat, s, s.objs[i], m, ret, cause, at) else []
  }

  lemma CreatedShape(cat: Catalog, s: Server, x: nat, m: nat, ret: nat, cause: nat, at: nat)
    requires 1 <= x <= |s.objs| && s.maxId == |s.objs| + 1
    ensures var made := CreatedBy(cat, s, x - 1, m, ret, cause, at); var so := s.objs[x - 1];
      && |made| <= 1
      && (made != [] ==>
            && so.iface.Some? && m < |so.iface.value.c2s| && so.iface.value.c2s[m].creates != []
            && made[0] == SObj(ret, |s.objs| + 1, so.version, so.proto,
                               PickIface(cat, s.impls, so.proto, so.iface.value.c2s[m].creates),
                               false, cause, at))
  {
    hide PickIface;
  }

  /** The table after a dispatch to the object with id `x`, and what was answered. */
  lemma DispatchShape(cat: Catalog, s: Server, x: nat, m: nat, ret: nat, cause: nat, at: nat)
    requires 1 <= x <= |s.objs| && x - 1 in s.table && s.objs[x - 1].id == x && s.finishing == 0 && s.phase
    ensures var r := ServerDispatch(cat, s, x - 1, m, ret, cause, at);
      var made := CreatedBy(cat, s, x - 1, m, ret, cause, at);
      TableAfter(s, r.s, made, x) && r.s.error == s.error && r.out == Answers(made)
  {
    hide Created, First, ServerIdIs, Retain;
    var made := CreatedBy(cat, s, x - 1, m, ret, cause, at);
    var t := AddServerObject(s, made);
    assert s.objs + [] == s.objs && s.table + [] == s.table && s.dlog + [] == s.dlog;
    assert TableAfter(s, t, made, x);
    if HasHandler(s.objs[x - 1], m) && s.objs[x - 1].iface.value.c2s[m].destructor {
      var d := ServerDispatch(cat, s, x - 1, m, ret, cause, at).s.dlog;
      assert d == s.dlog || d == s.dlog + [x];
      assert TableAfter(s, t.(finishing := x, dlog := d), made, x);
    }
  }

  lemma PhaseSet(s: Server, z: Server, made: seq<SObj>, x: nat)
    requires TableAfter(s.(phase := true), z, made, x)
    ensures TableAfter(s, z, made, x)
  {
  }

  lemma DispatchMissing(cat: Catalog, s: Server, x: nat, m: nat, ret: nat, cause: nat, at: nat)
    requires First(s.table, ServerIdIs(s.objs, x)) == None && s.finishing == 0
    ensures var r := ServerOnGeneric(cat, s.(phase := true), x, m, ret, cause, at);
      TableAfter(s, r.s, [], x) && r.out == [FatalProtocolError(x)] && r.s.error
  {
    hide First, ServerIdIs, ServerDispatch;
    assert s.objs + [] == s.objs && s.table + [] == s.table;
  }

  lemma DispatchFound(cat: Catalog, s: Server, x: nat, i: nat, m: nat, ret: nat, cause: nat, at: nat)
    requires i < |s.objs| && First(s.table, ServerIdIs(s.objs, x)) == Some(i)
    ensures ServerOnGeneric(cat, s, x, m, ret, cause, at) == ServerDispatch(cat, s, i, m, ret, cause, at)
  {
    hide First, ServerIdIs, ServerDispatch;
  }

  /** What dispatching to an object does to the server, whatever branch is taken. */
  lemma OnGenericShape(cat: Catalog, s: Server, x: nat, m: nat, ret: nat, at: nat, cause: nat)
    returns (made: seq<SObj>)
    requires ServerTable(s) && 1 <= x <= |s.objs| && s.finishing == 0
    ensures var r := ServerOnGeneric(cat, s.(phase := true), x, m, ret, cause, at); var so := s.objs[x - 1];
      && TableAfter(s, r.s, made, x) && |made| <= 1 && (s.error ==> r.s.error)
      && (made == [] ==> r.out == [] || (r.out == [FatalProtocolError(x)] && r.s.error))
      && (made != [] ==>
            && r.out == [NewObject(ret, |s.objs| + 1)]
            && so.iface.Some? && m < |so.iface.value.c2s| && so.iface.value.c2s[m].creates != []
            && made[0] == SObj(ret, |s.objs| + 1, so.version, so.proto,
                               PickIface(cat, s.impls, so.proto, so.iface.value.c2s[m].creates),
                               false, cause, at))
  {
    hide First, ServerIdIs, PickIface, ServerTable, TableAfter, ServerDispatch, CreatedBy, ServerOnGeneric;
    var h := s.(phase := true);
    ServerLookup(s, x);
    ServerCount(s);
    if x - 1 in s.table {
      DispatchFound(cat, h, x, x - 1, m, ret, cause, at);
      DispatchShape(cat, h, x, m, ret, cause, at);
      CreatedShape(cat, h, x, m, ret, cause, at);
      made := CreatedBy(cat, h, x - 1, m, ret, cause, at);
      PhaseSet(s, ServerDispatch(cat, h, x - 1, m, ret, cause, at).s, made, x);
    } else {
      made := [];
      DispatchMissing(cat, s, x, m, ret, cause, at);
    }
  }

  lemma RequestShape(cat: Catalog, y: Sys, z: Sys) returns (made: seq<SObj>, out: seq<SMsg>)
    requires Enabled(cat, y, ServerHandleNext) && z == Apply(cat, y, ServerHandleNext)
    requires y.c2s[y.cRead].Request? && !Unparsable(y.c2s[y.cRead]) && ServerTable(y.s)
    requires 1 <= y.c2s[y.cRead].target <= |y.s.objs|
    ensures Dispatches(cat, y, z, made, out, y.c2s[y.cRead])
    ensures TableAfter(y.s, z.s, made, y.c2s[y.cRead].target)
  {
    hide Inv, Extends;
    var m := y.c2s[y.cRead];
    made := OnGenericShape(cat, y.s, m.target, m.op, m.ret, |y.s2c|, y.cRead);
    out := ServerHandle(cat, y.s, m, y.cRead, |y.s2c|).out;
  }

  lemma RequestHistory(cat: Catalog, y: Sys, z: Sys, made: seq<SObj>, out: seq<SMsg>)
    requires Inv(cat, y) && y.cRead < |y.c2s| && y.c2s[y.cRead].Request?
    requires Dispatches(cat, y, z, made, out, y.c2s[y.cRead])
    ensures Extends(y, z) && History(cat, z) && Delivered(z)
    ensures ClientTable(z.c) && QueueIs(z, Parked(z.c)) && Kept(z) && MarksBounded(y)
  {
    hide ClientTable, Delivered, QueueIs, Kept, ClientHello, ServerHello, RequestsOk, AcksOk, Extends;
    if made == [] {
      ProcessHistory(cat, y, z, out);
    } else {
      assert made == [made[0]];
      RequestArrives(cat, y, y.cRead);
      RequestCreates(cat, y, made[0]);
      CreateHistory(cat, y, z, made[0], y.c2s[y.cRead].ret);
    }
  }

  lemma ProcessRequest(cat: Catalog, y: Sys, z: Sys)
    requires Inv(cat, y) && Enabled(cat, y, ServerHandleNext) && z == Apply(cat, y, ServerHandleNext)
    requires y.c2s[y.cRead].Request? && !Unparsable(y.c2s[y.cRead])
    ensures Inv(cat, z) && Extends(y, z)
  {
    RequestArrives(cat, y, y.cRead);
    var made, out := RequestShape(cat, y, z);
    RequestHistory(cat, y, z, made, out);
    RequestTable(y.s, z.s, made, y.c2s[y.cRead].target);
    RequestHello(cat, y, z, made, out);
  }

  lemma RequestHello(cat: Catalog, y: Sys, z: Sys, made: seq<SObj>, out: seq<SMsg>)
    requires ClientHello(y) && ServerHello(cat, y) && RequestsOk(y) && AcksOk(y)
    requires Bounds(y) && Bounds(z) && MarksBounded(y)
    requires y.cRead < |y.c2s| && y.c2s[y.cRead].Request?
    requires Dispatches(cat, y, z, made, out, y.c2s[y.cRead])
    requires TableAfter(y.s, z.s, made, y.c2s[y.cRead].target)
    ensures ClientHello(z) && ServerHello(cat, z) && RequestsOk(z) && AcksOk(z)
  {
    NotHello(cat, y, z);
    ServerAcksFrame(y, z);
  }

  lemma PushNoDuplicates(xs: seq<nat>, x: nat)
    requires NoDuplicates(xs) && x !in xs
    ensures NoDuplicates(xs + [x])
  {
    forall i, j | 0 <= i < j < |xs| + 1 ensures (xs + [x])[i] != (xs + [x])[j] {
      assert xs[i] in xs;
    }
  }

  lemma RequestTable(y: Server, z: Server, made: seq<SObj>, x: nat)
    requires ServerTable(y) && |made| <= 1 && !y.gone && !y.aborted && y.finishing == 0
    requires TableAfter(y, z, made, x)
    requires made != [] ==> made[0].id == |y.objs| + 1
    ensures ServerTable(z)
  {
    PushIncreasing(y.table, |y.objs|);
    assert y.table + [] == y.table;
    assert forall i :: i in z.table <==> i in y.table || (made != [] && i == |y.objs|);
    assert forall d :: d in y.dlog ==> d - 1 !in z.table;
    if z.dlog == y.dlog + [x] && z.finishing == x { PushNoDuplicates(y.dlog, x); }
  }

  lemma ServerHandleKeepsInv(cat: Catalog, y: Sys)
    requires Inv(cat, y) && Enabled(cat, y, ServerHandleNext)
    ensures Inv(cat, Apply(cat, y, ServerHandleNext)) && Extends(y, Apply(cat, y, ServerHandleNext))
  {
    hide Unparsable, ServerHandle;
    var z := Apply(cat, y, ServerHandleNext);
    if Unparsable(y.c2s[y.cRead]) {
      AbortKeepsInv(cat, y);
      return;
    }
    match y.c2s[y.cRead]
    case Sup => ProcessSup(cat, y, z);
    case HandshakeAck(_) => ProcessAck(cat, y, z);
    case BindProtocol(_, _, _) => ProcessBind(cat, y, z);
    case Request(_, _, _, _, _) => ProcessRequest(cat, y, z);
    case RoundtripRequest(_) => ProcessRoundtrip(cat, y, z);
  }

  // ---- the other server steps ---------------------------------------------------------

  /** A step that creates nothing and processes no message. */
  ghost predicate Emits(y: Sys, z: Sys, out: seq<SMsg>) {
    && z == y.(s := z.s, s2c := y.s2c + out)
    && |z.s.objs| == |y.s.objs| && (forall i :: 0 <= i < |y.s.objs| ==> SameSObj(y.s.objs[i], z.s.objs[i]))
    && y.s.impls <= z.s.impls && y.s.acked <= z.s.acked && (y.s.error ==> z.s.error)
  }

  lemma EmitHistory(cat: Catalog, y: Sys, z: Sys, out: seq<SMsg>)
    requires Inv(cat, y) && Emits(y, z, out)
    requires forall p: nat :: |y.s2c| <= p < |z.s2c| ==> SMsgOk(z, p)
    ensures Extends(y, z) && History(cat, z) && Delivered(z)
    ensures ClientTable(z.c) && QueueIs(z, Parked(z.c)) && Kept(z) && MarksBounded(y) && Bounds(y)
  {
    assert Extends(y, z);
    QuietServerStep(cat, y, z);
    HistoryMarks(cat, y);
  }

  lemma FinishTable(s: Server)
    requires ServerTable(s) && s.finishing != 0
    ensures ServerTable(Finish(s))
  {
    var ids := ServerIdIs(s.objs, s.finishing);
    RetainIncreasing(s.table, ids);
    assert s.finishing - 1 in ids;
  }

  lemma FinishEmits(y: Sys)
    ensures Emits(y, y.(s := Finish(y.s)), [])
  {
    assert y.s2c + [] == y.s2c;
  }

  lemma FinishKeepsInv(cat: Catalog, y: Sys)
    requires Inv(cat, y) && Enabled(cat, y, ServerFinish)
    ensures Inv(cat, Apply(cat, y, ServerFinish)) && Extends(y, Apply(cat, y, ServerFinish))
  {
    var z := Apply(cat, y, ServerFinish);
    FinishEmits(y);
    EmitHistory(cat, y, z, []);
    FinishTable(y.s);
    FinishHello(cat, y, z);
  }

  lemma FinishHello(cat: Catalog, y: Sys, z: Sys)
    requires ClientHello(y) && ServerHello(cat, y) && RequestsOk(y) && AcksOk(y) && Bounds(y) && ServerTable(y.s)
    requires MarksBounded(y) && y.s.finishing != 0 && z == y.(s := Finish(y.s))
    ensures ClientHello(z) && ServerHello(cat, z) && RequestsOk(z) && AcksOk(z)
  {
    assert y.cRead != 0;
    ServerHelloFrame(cat, y, z);
    ServerAcksFrame(y, z);
  }

  lemma EndShape(cat: Catalog, y: Sys, z: Sys)
    requires Enabled(cat, y, ServerEnd) && z == Apply(cat, y, ServerEnd)
    ensures y.s.aborted ==> z == y.(s := y.s.(phase := false, error := true), s2c := y.s2c + [FatalProtocolError(0)])
    ensures !y.s.aborted && y.s.scheduled == 0 ==> z == y.(s := y.s.(phase := false))
    ensures !y.s.aborted && y.s.scheduled != 0 ==>
      z == y.(s := y.s.(phase := false, scheduled := 0, acked := y.s.scheduled),
              s2c := y.s2c + [RoundtripDone(y.s.scheduled)])
  {
    assert y.s2c + [] == y.s2c;
  }

  lemma EndKeepsInv(cat: Catalog, y: Sys)
    requires Inv(cat, y) && Enabled(cat, y, ServerEnd)
    ensures Inv(cat, Apply(cat, y, ServerEnd)) && Extends(y, Apply(cat, y, ServerEnd))
  {
    var z := Apply(cat, y, ServerEnd);
    EndShape(cat, y, z);
    if y.s.aborted {
      EndAborted(cat, y, z);
    } else if y.s.scheduled == 0 {
      EndSilent(cat, y, z);
    } else {
      EndAcks(cat, y, z);
    }
  }

  lemma EndSilent(cat: Catalog, y: Sys, z: Sys)
    requires Inv(cat, y) && y.s.scheduled == 0 && y.s.finishing == 0
    requires z == y.(s := y.s.(phase := false))
    ensures Inv(cat, z) && Extends(y, z)
  {
    hide ClientHello, RequestsOk, AcksOk;
    assert y.s2c + [] == y.s2c;
    EmitHistory(cat, y, z, []);
    ServerHelloFrame(cat, y, z);
    ServerAcksFrame(y, z);
  }

  lemma EndAborted(cat: Catalog, y: Sys, z: Sys)
    requires Inv(cat, y) && y.s.phase && y.s.aborted && y.s.finishing == 0
    requires z == y.(s := y.s.(phase := false, error := true), s2c := y.s2c + [FatalProtocolError(0)])
    ensures Inv(cat, z) && Extends(y, z)
  {
    hide History, ClientTable, Delivered, QueueIs, Kept, ClientHello, RequestsOk, AcksOk;
    EmitHistory(cat, y, z, [FatalProtocolError(0)]);
    ServerHelloFrame(cat, y, z);
    ServerAcksFrame(y, z);
  }

  lemma EndAcks(cat: Catalog, y: Sys, z: Sys)
    requires Inv(cat, y) && y.s.phase && !y.s.aborted && y.s.finishing == 0 && y.s.scheduled != 0
    requires z == y.(s := y.s.(phase := false, scheduled := 0, acked := y.s.scheduled),
                     s2c := y.s2c + [RoundtripDone(y.s.scheduled)])
    ensures Inv(cat, z) && Extends(y, z)
  {
    hide Kept, ClientHello, ServerHello, RequestsOk;
    HistoryMarks(cat, y);
    assert SMsgOk(z, |y.s2c|);
    EmitHistory(cat, y, z, [RoundtripDone(y.s.scheduled)]);
    ServerHelloFrame(cat, y, z);
    AckSent(cat, y, z);
  }

  lemma AckSent(cat: Catalog, y: Sys, z: Sys)
    requires RequestsOk(y) && AcksOk(y) && Bounds(y) && y.s.scheduled != 0
    requires forall p: nat :: p < |y.s2c| ==> SMsgOk(y, p)
    requires z == y.(s := y.s.(phase := false, scheduled := 0, acked := y.s.scheduled),
                     s2c := y.s2c + [RoundtripDone(y.s.scheduled)])
    ensures RequestsOk(z) && AcksOk(z)
  {
    assert forall p :: 0 <= p < |y.s2c| ==> z.s2c[p] == y.s2c[p];
    assert z.s2c[|y.s2c|] == RoundtripDone(z.s.acked);
    forall p | 0 <= p < |y.s2c| && y.s2c[p].RoundtripDone? ensures y.s2c[p].done < y.s.scheduled {
      assert SMsgOk(y, p);
    }
  }

  /** An application step on an existing object: it may destroy it, report an error, or
      send one event. */
  ghost predicate Speaks(y: Sys, z: Sys, o: nat, out: seq<SMsg>) {
    && o < |y.s.objs| && Emits(y, z, out)
    && z.s == y.s.(objs := z.s.objs, error := z.s.error)
    && forall m :: m in out ==>
         (m.Event? && m.source == o + 1 && Sayable(y.s.objs[o], m.event)) || (m.FatalProtocolError? && z.s.error)
  }

  /** A message the parser refuses changes nothing but the server's flags. */
  lemma AbortKeepsInv(cat: Catalog, y: Sys)
    requires Inv(cat, y) && Enabled(cat, y, ServerHandleNext) && Unparsable(y.c2s[y.cRead])
    ensures Inv(cat, Apply(cat, y, ServerHandleNext)) && Extends(y, Apply(cat, y, ServerHandleNext))
  {
    hide ClientHello, RequestsOk, AcksOk, Unparsable, History;
    var z := Apply(cat, y, ServerHandleNext);
    assert z == y.(s := Aborted(y.s));
    assert y.s2c + [] == y.s2c;
    EmitHistory(cat, y, z, []);
    FirstIsHello(cat, y);
    ServerHelloFrame(cat, y, z);
    ServerAcksFrame(y, z);
  }

  /** The first message is the hello, which is never refused. */
  lemma FirstIsHello(cat: Catalog, y: Sys)
    requires ClientHello(y) && y.cRead < |y.c2s| && Unparsable(y.c2s[y.cRead])
    ensures y.cRead != 0
  {
  }

  lemma SpeakKeepsInv(cat: Catalog, y: Sys, z: Sys, o: nat, out: seq<SMsg>)
    requires Inv(cat, y) && Speaks(y, z, o, out)
    ensures Inv(cat, z) && Extends(y, z)
  {
    forall p: nat | |y.s2c| <= p < |z.s2c| ensures SMsgOk(z, p) {
      assert z.s2c[p] in out;
      assert SObjOk(y, o) && SameSObj(y.s.objs[o], z.s.objs[o]);
    }
    EmitHistory(cat, y, z, out);
    SpeakHello(cat, y, z, o, out);
  }

  lemma SpeakHello(cat: Catalog, y: Sys, z: Sys, o: nat, out: seq<SMsg>)
    requires ClientHello(y) && ServerHello(cat, y) && RequestsOk(y) && AcksOk(y) && Bounds(y) && ServerTable(y.s)
    requires MarksBounded(y) && Speaks(y, z, o, out)
    ensures ClientHello(z) && ServerHello(cat, z) && RequestsOk(z) && AcksOk(z) && ServerTable(z.s)
  {
    assert forall p :: |y.s2c| <= p < |z.s2c| ==> z.s2c[p] in out;
    assert forall i :: 0 <= i < |y.s.objs| ==> SameSObj(y.s.objs[i], z.s.objs[i]);
    ServerHelloFrame(cat, y, z);
    ServerAcksFrame(y, z);
  }

  lemma EventKeepsInv(cat: Catalog, y: Sys, o: nat, m: nat, args: seq<CallArg>)
    requires Inv(cat, y) && Enabled(cat, y, ServerEvent(o, m, args))
    ensures Inv(cat, Apply(cat, y, ServerEvent(o, m, args)))
    ensures Extends(y, Apply(cat, y, ServerEvent(o, m, args)))
  {
    EventSpeaks(y, Emit(y, SendEvent(y.s, o, m, args)), o, m, args);
    SpeakKeepsInv(cat, y, Apply(cat, y, ServerEvent(o, m, args)), o, SendEvent(y.s, o, m, args).out);
  }

  lemma EventSpeaks(y: Sys, z: Sys, o: nat, m: nat, args: seq<CallArg>)
    requires ServerTable(y.s) && o < |y.s.objs| && z == Emit(y, SendEvent(y.s, o, m, args))
    ensures Speaks(y, z, o, SendEvent(y.s, o, m, args).out)
  {
    hide SendEvent, CanSend, ServerTable;
    SpokenId(y.s, o);
    SendShape(y.s, o, m, args);
  }

  /** Sending an event changes at most the object's destroyed flag, or raises an error. */
  lemma SendShape(s: Server, o: nat, m: nat, args: seq<CallArg>)
    requires o < |s.objs|
    ensures var r := SendEvent(s, o, m, args); var t := r.s;
      && t == s.(objs := t.objs, error := t.error) && (s.error ==> t.error)
      && |t.objs| == |s.objs| && (forall i :: 0 <= i < |s.objs| && i != o ==> t.objs[i] == s.objs[i])
      && (t.objs[o] == s.objs[o]
          || (CanSend(s.objs[o], m) && !s.objs[o].destroyed
              && t.objs[o] == s.objs[o].(destroyed := s.objs[o].iface.value.s2c[m].destructor)))
      && (r.out == [] || (r.out == [Event(s.objs[o].id, m, args)] && Sayable(s.objs[o], m))
          || (r.out == [FatalProtocolError(s.objs[o].id)] && t.error))
  {
  }

  lemma SpokenId(s: Server, o: nat)
    requires ServerTable(s) && o < |s.objs|
    ensures s.objs[o].id == o + 1
  {
  }

  lemma RaiseKeepsInv(cat: Catalog, y: Sys, o: nat)
    requires Inv(cat, y) && Enabled(cat, y, ServerRaise(o))
    ensures Inv(cat, Apply(cat, y, ServerRaise(o))) && Extends(y, Apply(cat, y, ServerRaise(o)))
  {
    hide History, ClientTable, Delivered, QueueIs, Kept, ServerTable, ClientHello, ServerHello, RequestsOk, AcksOk, Extends;
    var z := Apply(cat, y, ServerRaise(o));
    assert Speaks(y, z, o, RaiseError(y.s, o).out);
    SpeakKeepsInv(cat, y, z, o, RaiseError(y.s, o).out);
  }

  lemma RegisterKeepsInv(cat: Catalog, y: Sys, a: Advert)
    requires Inv(cat, y) && Enabled(cat, y, ServerRegister(a))
    ensures Inv(cat, Apply(cat, y, ServerRegister(a))) && Extends(y, Apply(cat, y, ServerRegister(a)))
  {
    hide History, ClientTable, Delivered, QueueIs, Kept, ClientHello, ServerHello, RequestsOk, AcksOk, Extends, ServerTable;
    hide Emits, MarksBounded;
    var z := Apply(cat, y, ServerRegister(a));
    RegisterEmits(y, a);
    EmitHistory(cat, y, z, []);
    RegisterHello(cat, y, a);
  }

  lemma RegisterEmits(y: Sys, a: Advert)
    ensures Emits(y, y.(s := Register(y.s, a)), [])
  {
    assert y.s2c + [] == y.s2c;
  }

  lemma RegisterHello(cat: Catalog, y: Sys, a: Advert)
    requires ClientHello(y) && ServerHello(cat, y) && RequestsOk(y) && AcksOk(y) && Bounds(y) && ServerTable(y.s)
    requires MarksBounded(y) && a.name in cat && a.version < U32_LIMIT
    ensures var z := y.(s := Register(y.s, a));
      ClientHello(z) && ServerHello(cat, z) && RequestsOk(z) && AcksOk(z) && ServerTable(z.s)
  {
    var z := y.(s := Register(y.s, a));
    ServerHelloFrame(cat, y, z);
    ServerAcksFrame(y, z);
  }
}
