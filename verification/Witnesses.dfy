// Concrete runs of a small protocol that show which limits of the general theorems are
// real.
module Witnesses {
  import opened Types
  import opened ClientModel
  import opened ServerModel
  import opened System
  import opened CallOrder
  import opened Progress
  import Adverts
  import Protocol

  const P: Name := [80]
  const CHILD_NAME: Name := [67]
  const CREATE: Method := Method([], CHILD_NAME, 0, false)
  const PING: Method := Method([], [], 0, false)
  const FILL: Method := Method([TArrayUint], [], 0, false)
  const CLOSE: Method := Method([], [], 0, true)
  const NOTE: Method := Method([], [], 0, false)
  const BYE: Method := Method([], [], 0, true)
  const ROOT: Iface := Iface([82], [CREATE, FILL], [NOTE, BYE])
  const CHILD: Iface := Iface(CHILD_NAME, [PING, CLOSE], [NOTE, BYE])
  const CAT: Catalog := map[P := [ROOT, CHILD]]
  const SPECS: seq<Advert> := [Advert(P, 1)]

  /** A step of a run under way. */
  lemma Go(y: Sys, step: Step) returns (z: Sys)
    requires Reachable(CAT, {P}, y) && Enabled(CAT, y, step)
    ensures z == Apply(CAT, y, step) && Reachable(CAT, {P}, z)
  {
    ReachableStep(CAT, {P}, y, step);
    z := Apply(CAT, y, step);
  }

  /** A server that answers everything. */
  ghost predicate Serving(s: Server, objs: nat) {
    && |s.objs| == objs && s.maxId == objs + 1 && s.impls == SPECS
    && !s.gone && !s.aborted && s.finishing == 0 && !s.error && s.scheduled == 0 && s.dlog == []
  }

  // ---- connecting --------------------------------------------------------------------------

  /** Hello, HandshakeBegin and HandshakeAck have gone through. */
  ghost predicate Greeted(y: Sys) {
    && Reachable(CAT, {P}, y)
    && y.c == Client([], [], 0, [], [], Handling, {P}, [], false, false, 0, 0)
    && y.calls == [] && y.sRead == |y.s2c| && |y.c2s| == y.cRead + 1 && y.c2s[y.cRead] == HandshakeAck(1)
    && y.s.table == [] && Serving(y.s, 0)
  }

  /** Connected and idle, nothing bound yet, everything read. */
  ghost predicate Connected(y: Sys) {
    && Reachable(CAT, {P}, y)
    && y.c == Client([], [], 0, [], [], Idle, {P}, SPECS, true, false, 0, 0)
    && y.calls == [] && y.cRead == |y.c2s| && y.sRead == |y.s2c|
    && y.s.table == [] && Serving(y.s, 0)
  }

  lemma Greeting() returns (y: Sys)
    ensures Greeted(y)
  {
    var y0 := Init({P});
    assert Run(CAT, y0, [], y0);
    var y1 := Go(y0, ServerRegister(Advert(P, 1)));
    assert y1.c2s[y1.cRead] == Sup;
    var y2 := Go(y1, ServerHandleNext);
    assert y2.s2c == [HandshakeBegin([1])];
    y := Go(y2, ClientHandle);
    assert 1 in [1];
  }

  /** The advertised specs have been read. */
  ghost predicate Advertised(y: Sys) {
    && Reachable(CAT, {P}, y)
    && y.c == Client([], [], 0, [], [], Handling, {P}, SPECS, true, false, 0, 0)
    && y.calls == [] && y.cRead == |y.c2s| && y.sRead == |y.s2c|
    && y.s.table == [] && Serving(y.s, 0)
  }

  lemma Advertising() returns (y: Sys)
    ensures Advertised(y)
  {
    hide Reachable, Adverts.ParseAll, Adverts.FormatAll;
    var y0 := Greeting();
    var y1 := Go(y0, ServerHandleNext);
    assert y1.s2c == y0.s2c + [HandshakeProtocols(Adverts.FormatAll(SPECS))];
    Adverts.AdvertisedRoundTrip(SPECS);
    y := Go(y1, ClientHandle);
    assert [] + SPECS == SPECS;
  }

  lemma Connecting() returns (y: Sys)
    ensures Connected(y)
  {
    hide Reachable;
    var y0 := Advertising();
    var y1 := Go(y0, ClientStartFlush);
    y := Go(y1, ClientFinishFlush);
  }

  // ---- binding the root --------------------------------------------------------------------

  const WAITING_ROOT: CObj := CObj(1, 0, 1, P, ROOT, true, false, true)
  const BOUND_ROOT: CObj := CObj(1, 1, 1, P, ROOT, true, false, true)

  /** The server has answered the bind; the client has not read that yet. */
  ghost predicate Answering(y: Sys) {
    && Reachable(CAT, {P}, y)
    && y.c == Client([WAITING_ROOT], [0], 1, [], [], Idle, {P}, SPECS, true, false, 0, 0)
    && y.calls == [] && y.cRead == |y.c2s| && |y.s2c| == y.sRead + 1 && y.s2c[y.sRead] == NewObject(1, 1)
    && y.s.table == [0] && Serving(y.s, 1) && IsServerRoot(y.s.objs[0])
  }

  ghost predicate IsServerRoot(o: SObj) {
    o.id == 1 && o.version == 1 && o.proto == P && o.iface == Some(ROOT) && !o.destroyed
  }

  /** The root is bound and handed out; everything is read. */
  ghost predicate RootBound(y: Sys) {
    && Reachable(CAT, {P}, y)
    && y.c == Client([BOUND_ROOT], [0], 1, [], [], Idle, {P}, SPECS, true, false, 0, 0)
    && y.calls == [] && y.cRead == |y.c2s| && y.sRead == |y.s2c|
    && y.s.table == [0] && Serving(y.s, 1) && IsServerRoot(y.s.objs[0])
  }

  lemma Answered() returns (y: Sys)
    ensures Answering(y)
  {
    var y0 := Connecting();
    var y1 := Go(y0, AppBind(P, 1));
    assert y1.c.objs == [WAITING_ROOT] && y1.c.table == [0];
    assert y1.c2s == y0.c2s + [BindProtocol(P, 1, 1)];
    y := Go(y1, ServerHandleNext);
    assert y.s.table == [0];
  }

  lemma BindingRoot() returns (y: Sys)
    ensures RootBound(y)
  {
    var y0 := Answered();
    var y1 := Go(y0, ClientHandle);
    assert First([0], SeqIs(y0.c.objs, 1)) == Some(0);
    assert y1.c.objs == [BOUND_ROOT];
    var y2 := Go(y1, ClientStartFlush);
    y := Go(y2, ClientFinishFlush);
  }

  // ---- a handler overtakes a parked call ------------------------------------------------------

  /** The root was asked for a child, and a call on the child is parked. */
  ghost predicate ChildPending(y: Sys) {
    && Reachable(CAT, {P}, y) && y.c.phase.Idle? && !y.c.error
    && y.c.objs == [BOUND_ROOT, CObj(2, 0, 0, P, CHILD, true, false, false)] && y.c.table == [0, 1]
    && |y.calls| == 2 && y.calls[1].on == 1 && y.calls[1].fate.Waiting?
    && y.sRead == |y.s2c| && |y.c2s| == y.cRead + 1
    && y.c2s[y.cRead].Request? && y.c2s[y.cRead].target == 1 && y.c2s[y.cRead].op == 0 && y.c2s[y.cRead].ret == 2
    && y.c2s[y.cRead].args == []
    && y.s.table == [0] && Serving(y.s, 1) && IsServerRoot(y.s.objs[0])
  }

  lemma Creating() returns (y: Sys)
    ensures ChildPending(y)
  {
    hide Reachable;
    var y0 := BindingRoot();
    var y1 := Go(y0, AppCall(0, 0, []));
    assert FindIface([ROOT, CHILD], CHILD_NAME) == Some(CHILD) by { assert [ROOT, CHILD][1..] == [CHILD]; }
    assert y1.c.objs == [BOUND_ROOT, CObj(2, 0, 0, P, CHILD, true, false, false)];
    assert y1.c.table == [0, 1] && |y1.c2s| == |y0.c2s| + 1;
    y := Go(y1, AppCall(1, 0, []));
    assert y.c.objs == y1.c.objs && y.c.table == y1.c.table && y.c2s == y1.c2s;
  }

  /** NewObject and an event of the child are on their way. */
  ghost predicate ChildSpeaks(y: Sys) {
    && Reachable(CAT, {P}, y) && y.c.phase.Idle? && !y.c.error
    && y.c.objs == [BOUND_ROOT, CObj(2, 0, 0, P, CHILD, true, false, false)] && y.c.table == [0, 1]
    && |y.calls| == 2 && y.calls[1].on == 1 && y.calls[1].fate.Waiting?
    && |y.s2c| == y.sRead + 2 && y.s2c[y.sRead] == NewObject(2, 2) && y.s2c[y.sRead + 1] == Event(2, 0, [])
  }

  lemma Speaking() returns (y: Sys)
    ensures ChildSpeaks(y)
  {
    hide Reachable;
    var y0 := Creating();
    assert First([0], ServerIdIs(y0.s.objs, 1)) == Some(0);
    var y1 := Go(y0, ServerHandleNext);
    assert FindIface([ROOT, CHILD], CHILD_NAME) == Some(CHILD) by { assert [ROOT, CHILD][1..] == [CHILD]; }
    assert |y1.s.objs| == 2 && y1.s.objs[1].id == 2 && y1.s.objs[1].iface == Some(CHILD);
    assert y1.s2c == y0.s2c + [NewObject(2, 2)];
    y := Go(y1, ServerEvent(1, 0, []));
  }

  /** The child's event has been delivered and its handler runs; a call on it is parked. */
  ghost predicate ChildHandling(y: Sys) {
    && Reachable(CAT, {P}, y) && y.c.phase.Handling? && y.handler && !y.c.error
    && y.c.objs == [BOUND_ROOT, CObj(2, 2, 0, P, CHILD, true, false, false)]
    && |y.calls| == 2 && y.calls[1].on == 1 && y.calls[1].fate.Waiting?
  }

  lemma Delivering() returns (y: Sys)
    ensures ChildHandling(y)
  {
    hide Reachable;
    var y0 := Speaking();
    assert First([0, 1], SeqIs(y0.c.objs, 2)) == Some(1) by { assert [0, 1][1..] == [1]; }
    var y1 := Go(y0, ClientHandle);
    assert y1.c.objs == [BOUND_ROOT, CObj(2, 2, 0, P, CHILD, true, false, false)];
    assert First([0, 1], IdIs(y1.c.objs, 2)) == Some(1) by { assert [0, 1][1..] == [1]; }
    y := Go(y1, ClientHandle);
    assert y.c.objs == y1.c.objs;
  }

  /** The wire need not keep call order: the handler of the child's first event runs after
      the child has its id and before the flush, so its call is sent ahead of the one that
      was parked. */
  lemma OvertakingRun() returns (y: Sys)
    ensures Reachable(CAT, {P}, y) && !WireOrder(y, 1) && !y.c.error
  {
    hide Reachable, WireOrder;
    var y2 := Delivering();
    y := Go(y2, AppCall(1, 0, []));
    assert Behind(y2.calls, 1);
    assert y.calls[2].jumped;
    CallOrderIff(CAT, {P}, y, 1);
  }

  // ---- a version 0 bind ---------------------------------------------------------------------------

  /** A bind the client lets through and the server ends the connection over. */
  lemma VersionZeroRun() returns (y: Sys)
    ensures Reachable(CAT, {P}, y) && y.s.aborted && y.s.error && BindProtocol(P, 1, 0) in y.c2s
  {
    var y0 := Connecting();
    var y1 := Go(y0, AppBind(P, 0));
    assert y1.c2s == y0.c2s + [BindProtocol(P, 1, 0)];
    y := Go(y1, ServerHandleNext);
  }

  // ---- messages too long ----------------------------------------------------------------------------

  /** One array argument of 10000 numbers. */
  function Long(): (args: seq<CallArg>)
    ensures |args| == 1 && Elements(args[0]) == MAX_ARRAY
  {
    [UintArray(seq(MAX_ARRAY, _ => 0))]
  }

  /** A call with 10000 numbers is on its way, on a connection that is alive. */
  ghost predicate LongSent(y: Sys) {
    && Reachable(CAT, {P}, y) && Alive(y) && !y.s.aborted && y.s.finishing == 0
    && y.cRead < |y.c2s| && y.c2s[y.cRead] == Request(1, 1, 0, Long(), 0)
  }

  lemma SendingLong() returns (y: Sys)
    ensures LongSent(y)
  {
    hide Reachable, Long;
    var y0 := BindingRoot();
    y := Go(y0, AppCall(0, 1, Long()));
    assert y.c2s == y0.c2s + [Request(1, 1, 0, Long(), 0)];
  }

  /** The client sends an array of 10000 elements, and the server ends the connection. */
  lemma LongArrayRun() returns (y: Sys, z: Sys)
    ensures Reachable(CAT, {P}, y) && Alive(y) && Request(1, 1, 0, Long(), 0) in y.c2s
    ensures Enabled(CAT, y, ServerHandleNext) && z == Apply(CAT, y, ServerHandleNext) && z.s.aborted && z.s.error
  {
    hide Reachable;
    y := SendingLong();
    assert !Sendable(Long());
    z := Apply(CAT, y, ServerHandleNext);
  }

  /** `n` implementations are registered, and nothing else has happened. */
  ghost predicate Registered(y: Sys, n: nat) {
    && Reachable(CAT, {P}, y)
    && y == Init({P}).(s := Start.(impls := y.s.impls)) && |y.s.impls| == n
  }

  lemma {:induction false} Registering(n: nat) returns (y: Sys)
    ensures Registered(y, n)
    decreases n
  {
    hide Reachable;
    if n == 0 {
      y := Init({P});
      NothingDone();
    } else {
      var y0 := Registering(n - 1);
      y := Go(y0, ServerRegister(Advert(P, 1)));
    }
  }

  lemma NothingDone()
    ensures Reachable(CAT, {P}, Init({P}))
  {
    assert Run(CAT, Init({P}), [], Init({P}));
  }

  ghost predicate ListSent(y: Sys) {
    && Reachable(CAT, {P}, y) && Alive(y) && y.c.phase.Handling? && !y.c.handshakeDone
    && y.sRead < |y.s2c| && y.s2c[y.sRead].HandshakeProtocols? && |y.s2c[y.sRead].protocols| == MAX_PROTOCOLS
  }

  lemma SendingList() returns (y: Sys)
    ensures ListSent(y)
  {
    hide Reachable, Adverts.FormatAll;
    var y0 := Registering(MAX_PROTOCOLS);
    assert y0.c2s[y0.cRead] == Sup;
    var y1 := Go(y0, ServerHandleNext);
    assert y1.s2c == [HandshakeBegin([1])];
    assert 1 in [1];
    var y2 := Go(y1, ClientHandle);
    assert y2.c2s == [Sup, HandshakeAck(1)] && y2.cRead == 1;
    y := Go(y2, ServerHandleNext);
    assert y.s2c == [HandshakeBegin([1]), HandshakeProtocols(Adverts.FormatAll(y0.s.impls))];
  }

  /** The server registers 2048 implementations; the client gives up over the list. */
  lemma LongListRun() returns (y: Sys, z: Sys)
    ensures Reachable(CAT, {P}, y) && Alive(y) && Enabled(CAT, y, ClientHandle) && z == Apply(CAT, y, ClientHandle)
    ensures z.c.phase.Failed? && z.c.error && !z.c.handshakeDone
  {
    hide Reachable;
    y := SendingList();
    z := Apply(CAT, y, ClientHandle);
  }

  // ---- an event for a released object ----------------------------------------------------------------

  /** The application drops an object while an event for it is on its way; the client
      collects the object, does not know the event's source and disconnects. */
  lemma ReleasedObjectRun() returns (y: Sys)
    ensures Reachable(CAT, {P}, y) && y.c.error && Event(1, 0, []) in y.s2c && !exists j: nat :: Protocol.Retains(y, 1, j)
  {
    var y0 := ReleasedInFlight();
    y := Go(y0, ClientHandle);
    assert y0.s2c[y0.sRead] in y.s2c;
  }

  /** The root is out of the table, an event for it the next message. */
  ghost predicate InFlight(y: Sys) {
    && Reachable(CAT, {P}, y) && y.c.phase.Idle? && !y.c.error && y.c.table == []
    && y.sRead < |y.s2c| && y.s2c[y.sRead] == Event(1, 0, [])
  }

  lemma ReleasedInFlight() returns (y: Sys)
    ensures InFlight(y)
  {
    hide Reachable;
    var y0 := BindingRoot();
    var y1 := Go(y0, ServerEvent(0, 0, []));
    assert y1.s2c == y0.s2c + [Event(1, 0, [])] && y1.c == y0.c && y1.sRead == y0.sRead;
    var y2 := Go(y1, AppRelease(0));
    assert y2.c == y1.c.(objs := [BOUND_ROOT.(held := false)]) && y2.s2c == y1.s2c;
    NoDestructor();
    y := Go(y2, ClientCollect(0));
    assert Retain([0], {0}) == [];
  }

  lemma NoDestructor()
    ensures AutoDestructor(BOUND_ROOT.(held := false)) == None
  {
    var ms := [CREATE, FILL];
    assert FirstDestructor(ms, 1, 0) == FirstDestructor(ms, 1, 1) == FirstDestructor(ms, 1, 2) == 2;
  }

  // ---- a call that waits for ever ----------------------------------------------------------------------

  const PENDING_CHILD: CObj := CObj(2, 0, 0, P, CHILD, true, false, false)

  /** The root is gone at the server, the client does not know yet and has asked it for a
      child; a call on the child is parked. */
  ghost predicate AskedTooLate(y: Sys) {
    && Reachable(CAT, {P}, y)
    && y.c.objs == [BOUND_ROOT, PENDING_CHILD] && y.c.table == [0, 1] && y.c.phase.Idle? && !y.c.error && y.c.pending == []
    && |y.c.queue| == 1 && y.c.queue[0].dep == 2 && y.c.queue[0].call == 1
    && |y.calls| == 2 && AskedRoot(y.calls[0]) && y.calls[1].on == 1 && y.calls[1].fate.Waiting?
    && |y.s2c| == y.sRead + 1 && y.s2c[y.sRead] == Event(1, 1, []) && |y.c2s| == y.cRead + 1
    && y.c2s[y.cRead].Request? && y.c2s[y.cRead].target == 1 && y.c2s[y.cRead].op == 0 && y.c2s[y.cRead].args == []
    && y.s.table == [0] && Serving(y.s, 1) && y.s.objs[0].id == 1 && y.s.objs[0].iface == Some(ROOT) && y.s.objs[0].destroyed
  }

  /** A destructor event of the root is on its way. */
  ghost predicate Leaving(y: Sys) {
    && Reachable(CAT, {P}, y)
    && y.c == Client([BOUND_ROOT], [0], 1, [], [], Idle, {P}, SPECS, true, false, 0, 0)
    && y.calls == [] && y.cRead == |y.c2s| && |y.s2c| == y.sRead + 1 && y.s2c[y.sRead] == Event(1, 1, [])
    && y.s.table == [0] && Serving(y.s, 1) && y.s.objs[0].id == 1 && y.s.objs[0].iface == Some(ROOT) && y.s.objs[0].destroyed
  }

  lemma SayingGoodbye() returns (y: Sys)
    ensures Leaving(y)
  {
    hide Reachable;
    var y0 := BindingRoot();
    y := Go(y0, ServerEvent(0, 1, []));
    assert y.s2c == y0.s2c + [Event(1, 1, [])];
  }

  /** The call that asks the root for a child. */
  ghost predicate AskedRoot(r: CallRec) {
    r.on == 0 && r.op == 0 && r.ret == 2 && r.fate.Sent?
  }

  /** The root's child is asked for, the destructor event still unread. */
  ghost predicate AskedForChild(y: Sys) {
    && Reachable(CAT, {P}, y)
    && y.c == Client([BOUND_ROOT, PENDING_CHILD], [0, 1], 2, [], [], Idle, {P}, SPECS, true, false, 0, 0)
    && |y.calls| == 1 && AskedRoot(y.calls[0])
    && |y.s2c| == y.sRead + 1 && y.s2c[y.sRead] == Event(1, 1, []) && |y.c2s| == y.cRead + 1
    && y.c2s[y.cRead].Request? && y.c2s[y.cRead].target == 1 && y.c2s[y.cRead].op == 0 && y.c2s[y.cRead].args == []
    && y.s.table == [0] && Serving(y.s, 1) && y.s.objs[0].id == 1 && y.s.objs[0].iface == Some(ROOT) && y.s.objs[0].destroyed
  }

  lemma AskingForChild() returns (y: Sys)
    ensures AskedForChild(y)
  {
    hide Reachable;
    var y0 := SayingGoodbye();
    y := Go(y0, AppCall(0, 0, []));
    assert FindIface([ROOT, CHILD], CHILD_NAME) == Some(CHILD) by { assert [ROOT, CHILD][1..] == [CHILD]; }
    assert y.c.objs == [BOUND_ROOT, PENDING_CHILD] && y.c.table == [0, 1] && |y.c2s| == |y0.c2s| + 1;
  }

  lemma AskingTooLate() returns (y: Sys)
    ensures AskedTooLate(y)
  {
    hide Reachable;
    var y1 := AskingForChild();
    y := Go(y1, AppCall(1, 0, []));
    assert y.c.objs == y1.c.objs && y.c.table == y1.c.table && y.c2s == y1.c2s;
  }

  /** The server has processed the request and created nothing. */
  ghost predicate TurnedDown(y: Sys) {
    && Reachable(CAT, {P}, y)
    && y.c.objs == [BOUND_ROOT, PENDING_CHILD] && y.c.table == [0, 1] && y.c.phase.Idle? && !y.c.error && y.c.pending == []
    && |y.c.queue| == 1 && y.c.queue[0].dep == 2 && y.c.queue[0].call == 1
    && |y.calls| == 2 && AskedRoot(y.calls[0]) && y.calls[1].on == 1 && y.calls[1].fate.Waiting?
    && |y.s2c| == y.sRead + 1 && y.s2c[y.sRead] == Event(1, 1, []) && |y.c2s| == y.cRead
    && !y.s.gone && !y.s.error && !y.s.phase && y.s.finishing == 0 && |y.s.objs| == 1 && y.s.objs[0].destroyed
  }

  lemma TurningDown() returns (y: Sys)
    ensures TurnedDown(y)
  {
    hide Reachable;
    var y0 := AskingTooLate();
    assert First([0], ServerIdIs(y0.s.objs, 1)) == Some(0);
    var y1 := Go(y0, ServerHandleNext);
    assert y1.s2c == y0.s2c && y1.c == y0.c;
    y := Go(y1, ServerEnd);
    assert y.s2c == y1.s2c;
  }

  /** The destructor event is read, everything else, too. */
  ghost predicate LetGo(y: Sys) {
    && Reachable(CAT, {P}, y)
    && y.c.objs == [BOUND_ROOT.(destroyed := true), PENDING_CHILD] && y.c.table == [1] && y.c.phase.Handling?
    && !y.c.error && y.c.pending == []
    && |y.c.queue| == 1 && y.c.queue[0].dep == 2 && y.c.queue[0].call == 1
    && |y.calls| == 2 && AskedRoot(y.calls[0]) && y.calls[1].on == 1 && y.calls[1].fate.Waiting?
    && |y.s2c| == y.sRead && |y.c2s| == y.cRead
    && !y.s.gone && !y.s.error && !y.s.phase && y.s.finishing == 0 && |y.s.objs| == 1 && y.s.objs[0].destroyed
  }

  lemma LettingGo() returns (y: Sys)
    ensures LetGo(y)
  {
    hide Reachable, PickIface, ServerOnGeneric, Finish, AutoDestructor;
    var y0 := TurningDown();
    assert First([0, 1], IdIs(y0.c.objs, 1)) == Some(0);
    y := Go(y0, ClientHandle);
    assert IdIs(y.c.objs, 1) == {0};
    assert y.c.table == [1] by { assert [0, 1][1..] == [1] && [1][1..] == [] && Retain([1], {0}) == [1]; }
  }

  /** Not every parked call of a live connection is sent or dropped in the end: this one
      waits although nothing can move any more, for an object its creator, the root, was
      asked for after the server had destroyed the root. */
  lemma WaitingForEverRun() returns (y: Sys)
    ensures Reachable(CAT, {P}, y) && Alive(y) && Stuck(CAT, y) && |y.calls| == 2
    ensures y.calls[1].fate.Waiting? && y.calls[1].on == 1 && |y.c.objs| == 2 && y.c.objs[1].id == 0
    ensures y.calls[0].on == 0 && y.calls[0].ret == y.c.objs[1].seqNo
    ensures y.c.objs[0].id == 1 && |y.s.objs| == 1 && y.s.objs[0].destroyed
  {
    hide Reachable, PickIface, ServerOnGeneric, Finish, AutoDestructor, Handle;
    var y1 := LettingGo();
    var y2 := Go(y1, ClientStartFlush);
    assert First([1], SeqIs(y2.c.objs, 2)) == Some(1);
    var y3 := Go(y2, ClientFlushOne);
    assert y3.c.pending == [] && y3.calls[1].fate.Waiting?;
    y := Go(y3, ClientFinishFlush);
  }

  // ---- a destructor's handler destroys another object --------------------------------------------------

  /** The root has two children at the server, between dispatches. */
  ghost predicate TwoChildren(y: Sys) {
    && Reachable(CAT, {P}, y) && !y.s.phase && !y.s.gone && y.s.table == [0, 1, 2] && y.s.dlog == []
    && |y.s.objs| == 3 && y.s.objs[0].iface == Some(ROOT)
    && IsChild(y.s.objs[1], 2) && IsChild(y.s.objs[2], 3)
  }

  ghost predicate IsChild(o: SObj, id: nat) {
    o.id == id && o.iface == Some(CHILD) && !o.destroyed
  }

  /** The root was asked twice. */
  ghost predicate TwoAsked(y: Sys) {
    && Reachable(CAT, {P}, y) && |y.c2s| == y.cRead + 2
    && AsksRoot(y.c2s[y.cRead]) && AsksRoot(y.c2s[y.cRead + 1])
    && y.s.table == [0] && Serving(y.s, 1) && IsServerRoot(y.s.objs[0])
  }

  ghost predicate AsksRoot(m: CMsg) {
    m.Request? && m.target == 1 && m.op == 0 && m.args == []
  }

  lemma AskingTwice() returns (y: Sys)
    ensures TwoAsked(y)
  {
    hide Reachable;
    var y0 := BindingRoot();
    var y1 := Go(y0, AppCall(0, 0, []));
    assert FindIface([ROOT, CHILD], CHILD_NAME) == Some(CHILD) by { assert [ROOT, CHILD][1..] == [CHILD]; }
    assert y1.c.objs[0] == BOUND_ROOT && |y1.c2s| == |y0.c2s| + 1;
    y := Go(y1, AppCall(0, 0, []));
    assert y.c2s[..|y1.c2s|] == y1.c2s && |y.c2s| == |y1.c2s| + 1;
  }

  /** The first request is processed. */
  ghost predicate OneMade(y: Sys) {
    && Reachable(CAT, {P}, y) && |y.c2s| == y.cRead + 1 && AsksRoot(y.c2s[y.cRead])
    && y.s.table == [0, 1] && Serving(y.s, 2) && IsServerRoot(y.s.objs[0]) && IsChild(y.s.objs[1], 2) && y.s.phase
  }

  lemma MakingOne() returns (y: Sys)
    ensures OneMade(y)
  {
    hide Reachable;
    var y0 := AskingTwice();
    assert First([0], ServerIdIs(y0.s.objs, 1)) == Some(0);
    assert FindIface([ROOT, CHILD], CHILD_NAME) == Some(CHILD) by { assert [ROOT, CHILD][1..] == [CHILD]; }
    y := Go(y0, ServerHandleNext);
    assert |y.s.objs| == 2 && y.s.objs[0] == y0.s.objs[0];
  }

  lemma MakingTwo() returns (y: Sys)
    ensures TwoChildren(y)
  {
    hide Reachable;
    var y1 := MakingOne();
    assert First([0, 1], ServerIdIs(y1.s.objs, 1)) == Some(0);
    assert FindIface([ROOT, CHILD], CHILD_NAME) == Some(CHILD) by { assert [ROOT, CHILD][1..] == [CHILD]; }
    var y2 := Go(y1, ServerHandleNext);
    assert |y2.s.objs| == 3 && y2.s.objs[..2] == y1.s.objs;
    y := Go(y2, ServerEnd);
  }

  /** Both children want a destructor at the disconnect; the handler of the newer one sends
      the destructor event of the older one, which therefore receives none. */
  lemma StolenDestructorRun() returns (y: Sys, z: Sys)
    ensures Reachable(CAT, {P}, y) && |y.s.objs| == 3
    ensures WantsDestructor(y.s.objs[1]) && WantsDestructor(y.s.objs[2])
    ensures var step := ServerDisconnect([[], [], [Say(1, 1, [])]]); Enabled(CAT, y, step) && z == Apply(CAT, y, step)
    ensures z.s.dlog == [3]
  {
    hide Reachable;
    y := MakingTwo();
    var scripts: seq<seq<Speech>> := [[], [], [Say(1, 1, [])]];
    z := Apply(CAT, y, ServerDisconnect(scripts));
    assert ParameterlessDestructor(CHILD.c2s[1]);
    Turns(y.s, scripts);
  }

  lemma Turns(s: Server, scripts: seq<seq<Speech>>)
    requires s.table == [0, 1, 2] && s.dlog == [] && |s.objs| == 3 && s.objs[0].iface == Some(ROOT)
    requires IsChild(s.objs[1], 2) && IsChild(s.objs[2], 3) && scripts == [[], [], [Say(1, 1, [])]]
    ensures Disconnect(s, scripts).s.dlog == [3]
  {
    assert ParameterlessDestructor(CHILD.c2s[1]);
    var t := DestroyTurn(s, 2, scripts[2]);
    SpeakingOnce(s.(dlog := [3]), Say(1, 1, []));
    assert t.s.dlog == [3] && t.s.objs[1].destroyed && t.s.objs[0] == s.objs[0];
    assert DestroyTurn(t.s, 1, []) == SReply(t.s, []);
    assert !HasPlainDestructor(ROOT.c2s);
    assert DestroyTurn(t.s, 0, []) == SReply(t.s, []);
    assert DestroyFrom(t.s, s.table, scripts, 1).s == t.s;
    assert DestroyFrom(t.s, s.table, scripts, 2).s == t.s;
  }

  lemma SpeakingOnce(s: Server, w: Speech)
    ensures SpeechPass(s, [w]).s == SpeakOne(s, w).s
  {
    assert [w][1..] == [];
  }
}
