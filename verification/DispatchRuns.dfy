// Whole dispatches as runs: `dispatch_events_inner` on the client
// (hyprwire/src/client/event_queue.rs:62-176) and `dispatch_client` on the server
// (hyprwire/src/server/server_socket.rs:103-150), with the calls their handlers make.
module DispatchRuns {
  import opened Types
  import opened ClientModel
  import opened ServerModel
  import opened System
  import opened Passes
  import opened Failures

  // ---- the client's dispatch -----------------------------------------------------------------

  /** A call an event handler wants to make.  It is possible on a held object with an id. */
  datatype Intent = Intent(o: nat, op: nat, args: seq<CallArg>)

  predicate Possible(c: Client, w: Intent) {
    w.o < |c.objs| && c.objs[w.o].held && c.objs[w.o].id != 0
  }

  /** The calls of one handler. */
  function HandlerPass(cat: Catalog, c: Client, script: seq<Intent>, calls: nat): Pass
    decreases |script|
  {
    if script == [] then Pass(c, [], calls)
    else if !Possible(c, script[0]) then HandlerPass(cat, c, script[1..], calls)
    else
      var w := script[0];
      var r := Call(cat, c, w.o, w.op, w.args, calls);
      var rest := HandlerPass(cat, r.c, script[1..], calls + if Accepts(c.objs[w.o], w.op) then 1 else 0);
      Pass(rest.c, r.out + rest.out, rest.calls)
  }

  /** One message and the handler it runs, if any. */
  function TurnPass(cat: Catalog, c: Client, msg: SMsg, script: seq<Intent>, calls: nat): Pass {
    var r := Handle(c, msg);
    var h := if Delivers(c, msg) && !Unspeakable(msg) then HandlerPass(cat, r.c, script, calls) else Pass(r.c, [], calls);
    Pass(h.c, r.out + h.out, h.calls)
  }

  /** The `handle_message` loop over a batch; it stops at a message it fails on. */
  function BatchPass(cat: Catalog, c: Client, batch: seq<SMsg>, scripts: seq<seq<Intent>>, calls: nat): Pass
    requires |scripts| == |batch|
    decreases |batch|
  {
    if batch == [] then Pass(c, [], calls)
    else
      var t := TurnPass(cat, c, batch[0], scripts[0], calls);
      if Unspeakable(batch[0]) then t
      else
        var rest := BatchPass(cat, t.c, batch[1..], scripts[1..], t.calls);
        Pass(rest.c, t.out + rest.out, rest.calls)
  }

  predicate Fails(batch: seq<SMsg>) {
    exists k :: 0 <= k < |batch| && Unspeakable(batch[k])
  }

  /** Flush and collection at the end of a dispatch. */
  function EndPass(cat: Catalog, c: Client, calls: nat): Pass {
    var f := FlushPass(c);
    var g := CollectPass(cat, f.c, calls);
    Pass(g.c, f.out + g.out, g.calls)
  }

  /** `dispatch_events_inner` on a batch that has been read. */
  function DispatchPass(cat: Catalog, c: Client, batch: seq<SMsg>, scripts: seq<seq<Intent>>, calls: nat): Pass
    requires |scripts| == |batch|
  {
    if c.error then Pass(c, [], calls)
    else
      var a := CollectPass(cat, c, calls);
      if batch == [] then a
      else
        var b := BatchPass(cat, a.c, batch, scripts, a.calls);
        if Fails(batch) then Pass(b.c, a.out + b.out, b.calls)
        else
          var e := EndPass(cat, b.c, b.calls);
          Pass(e.c, a.out + (b.out + e.out), e.calls)
  }

  /** The client got from `y` to `z` on its own: it wrote `out` and read `n` messages. */
  ghost predicate ClientWent(cat: Catalog, y: Sys, steps: seq<Step>, z: Sys, p: Pass, n: nat) {
    && Run(cat, y, steps, z)
    && z.c == p.c && z.c2s == y.c2s + p.out && |z.calls| == p.calls
    && z.sRead == y.sRead + n && z.s == y.s && z.s2c == y.s2c && z.cRead == y.cRead
  }

  lemma WentOn(cat: Catalog, y: Sys, a: seq<Step>, m: Sys, p: Pass, i: nat, b: seq<Step>, z: Sys, q: Pass, j: nat)
    requires ClientWent(cat, y, a, m, p, i) && ClientWent(cat, m, b, z, q, j)
    ensures ClientWent(cat, y, a + b, z, Pass(q.c, p.out + q.out, q.calls), i + j)
  {
    hide Apply, Enabled;
    RunJoin(cat, y, a, m, b, z);
    assert y.c2s + (p.out + q.out) == y.c2s + p.out + q.out;
  }

  lemma Stayed(cat: Catalog, y: Sys)
    ensures ClientWent(cat, y, [], y, Pass(y.c, [], |y.calls|), 0)
  {
    assert y.c2s + [] == y.c2s;
  }

  lemma WentOne(cat: Catalog, y: Sys, step: Step, p: Pass, n: nat)
    requires Enabled(cat, y, step)
    requires var z := Apply(cat, y, step);
      && z.c == p.c && z.c2s == y.c2s + p.out && |z.calls| == p.calls
      && z.sRead == y.sRead + n && z.s == y.s && z.s2c == y.s2c && z.cRead == y.cRead
    ensures ClientWent(cat, y, [step], Apply(cat, y, step), p, n)
  {
    assert [step][1..] == [];
  }

  /** The client is in a handler, so its code may call. */
  ghost predicate InHandler(y: Sys) {
    y.c.phase.Handling? && y.handler
  }

  lemma HandlerCallRuns(cat: Catalog, y: Sys, w: Intent)
    requires InHandler(y) && Possible(y.c, w)
    ensures var r := Call(cat, y.c, w.o, w.op, w.args, |y.calls|);
      var z := Apply(cat, y, AppCall(w.o, w.op, w.args));
      && ClientWent(cat, y, [AppCall(w.o, w.op, w.args)], z,
                    Pass(r.c, r.out, |y.calls| + if Accepts(y.c.objs[w.o], w.op) then 1 else 0), 0)
      && InHandler(z)
  {
    assert y.c2s + [] == y.c2s;
    WentOne(cat, y, AppCall(w.o, w.op, w.args),
            Pass(Call(cat, y.c, w.o, w.op, w.args, |y.calls|).c, Call(cat, y.c, w.o, w.op, w.args, |y.calls|).out,
                 |y.calls| + if Accepts(y.c.objs[w.o], w.op) then 1 else 0), 0);
  }

  lemma {:induction false} HandlerRuns(cat: Catalog, y: Sys, script: seq<Intent>) returns (steps: seq<Step>, z: Sys)
    requires InHandler(y)
    ensures ClientWent(cat, y, steps, z, HandlerPass(cat, y.c, script, |y.calls|), 0) && z.c.phase.Handling?
    decreases |script|
  {
    if script == [] {
      steps, z := [], y;
      Stayed(cat, y);
    } else if !Possible(y.c, script[0]) {
      steps, z := HandlerRuns(cat, y, script[1..]);
    } else {
      var w := script[0];
      var step := AppCall(w.o, w.op, w.args);
      HandlerCallRuns(cat, y, w);
      var m := Apply(cat, y, step);
      var r := Call(cat, y.c, w.o, w.op, w.args, |y.calls|);
      var n := |y.calls| + if Accepts(y.c.objs[w.o], w.op) then 1 else 0;
      var rest;
      rest, z := HandlerRuns(cat, m, script[1..]);
      WentOn(cat, y, [step], m, Pass(r.c, r.out, n), 0, rest, z, HandlerPass(cat, m.c, script[1..], n), 0);
      steps := [step] + rest;
    }
  }

  /** The client may read: at the start of a dispatch or inside one. */
  ghost predicate Reading(y: Sys) {
    (y.c.phase.Idle? && !y.c.error) || y.c.phase.Handling?
  }

  lemma ReadRuns(cat: Catalog, y: Sys)
    requires Reading(y) && y.sRead < |y.s2c|
    ensures var msg := y.s2c[y.sRead]; var r := Handle(y.c, msg); var z := Apply(cat, y, ClientHandle);
      && ClientWent(cat, y, [ClientHandle], z, Pass(r.c, r.out, |y.calls|), Counted(msg))
      && (!Unspeakable(msg) ==> z.c.phase.Handling? && (Delivers(y.c, msg) ==> InHandler(z)))
  {
    var r := Handle(y.c, y.s2c[y.sRead]);
    assert y.c2s + [] == y.c2s;
    WentOne(cat, y, ClientHandle, Pass(r.c, r.out, |y.calls|), Counted(y.s2c[y.sRead]));
  }

  /** A message the loop fails on is not counted as read. */
  function Counted(msg: SMsg): nat {
    if Unspeakable(msg) then 0 else 1
  }

  lemma TurnRuns(cat: Catalog, y: Sys, script: seq<Intent>) returns (steps: seq<Step>, z: Sys)
    requires Reading(y) && y.sRead < |y.s2c|
    ensures ClientWent(cat, y, steps, z, TurnPass(cat, y.c, y.s2c[y.sRead], script, |y.calls|), Counted(y.s2c[y.sRead]))
    ensures !Unspeakable(y.s2c[y.sRead]) ==> z.c.phase.Handling?
  {
    var msg := y.s2c[y.sRead];
    var r := Handle(y.c, msg);
    ReadRuns(cat, y);
    var m := Apply(cat, y, ClientHandle);
    var rest;
    if Delivers(y.c, msg) && !Unspeakable(msg) {
      rest, z := HandlerRuns(cat, m, script);
      WentOn(cat, y, [ClientHandle], m, Pass(r.c, r.out, |y.calls|), 1, rest, z,
             HandlerPass(cat, r.c, script, |y.calls|), 0);
    } else {
      rest, z := [], m;
      Stayed(cat, m);
      WentOn(cat, y, [ClientHandle], m, Pass(r.c, r.out, |y.calls|), Counted(msg), rest, z, Pass(r.c, [], |y.calls|), 0);
    }
    steps := [ClientHandle] + rest;
  }

  /** Messages of `batch` handled: all of them, or those before the one that failed. */
  function Taken(batch: seq<SMsg>): (n: nat)
    ensures n <= |batch| && (!Fails(batch) ==> n == |batch|)
    ensures Fails(batch) ==> n < |batch| && Unspeakable(batch[n]) && forall j :: 0 <= j < n ==> !Unspeakable(batch[j])
  {
    if batch == [] then 0
    else if Unspeakable(batch[0]) then 0
    else
      assert Fails(batch[1..]) ==> Fails(batch);
      1 + Taken(batch[1..])
  }

  /** The batch is what the channel holds next. */
  ghost predicate NextRead(y: Sys, batch: seq<SMsg>) {
    y.sRead + |batch| <= |y.s2c| && y.s2c[y.sRead..y.sRead + |batch|] == batch
  }

  lemma {:induction false} BatchRuns(cat: Catalog, y: Sys, batch: seq<SMsg>, scripts: seq<seq<Intent>>)
    returns (steps: seq<Step>, z: Sys)
    requires Reading(y) && NextRead(y, batch) && |scripts| == |batch|
    ensures ClientWent(cat, y, steps, z, BatchPass(cat, y.c, batch, scripts, |y.calls|), Taken(batch))
    ensures !Fails(batch) && batch != [] ==> z.c.phase.Handling?
    decreases |batch|
  {
    if batch == [] {
      steps, z := [], y;
      Stayed(cat, y);
    } else {
      assert y.s2c[y.sRead] == batch[0];
      var m;
      steps, m := TurnRuns(cat, y, scripts[0]);
      if Unspeakable(batch[0]) {
        z := m;
      } else {
        var t := TurnPass(cat, y.c, batch[0], scripts[0], |y.calls|);
        assert NextRead(m, batch[1..]);
        var rest;
        rest, z := BatchRuns(cat, m, batch[1..], scripts[1..]);
        WentOn(cat, y, steps, m, t, 1, rest, z, BatchPass(cat, m.c, batch[1..], scripts[1..], t.calls), Taken(batch[1..]));
        steps := steps + rest;
        FailsTail(batch);
      }
    }
  }

  lemma FailsTail(batch: seq<SMsg>)
    requires batch != [] && !Unspeakable(batch[0])
    ensures Fails(batch) <==> Fails(batch[1..])
  {
    if Fails(batch) {
      var k :| 0 <= k < |batch| && Unspeakable(batch[k]);
      assert batch[1..][k - 1] == batch[k];
    }
  }

  lemma EndRuns(cat: Catalog, y: Sys) returns (steps: seq<Step>, z: Sys)
    requires y.c.phase.Handling?
    ensures ClientWent(cat, y, steps, z, EndPass(cat, y.c, |y.calls|), 0)
  {
    var a, m := FlushPassRuns(cat, y);
    var f := FlushPass(y.c);
    var b;
    b, z := CollectPassRuns(cat, m);
    WentOn(cat, y, a, m, Pass(f.c, f.out, |y.calls|), 0, b, z, CollectPass(cat, f.c, |y.calls|), 0);
    steps := a + b;
  }

  /** A dispatch of the client is a run of the composed system, whatever the batch holds and
      whatever its handlers call. */
  lemma DispatchPassRuns(cat: Catalog, y: Sys, batch: seq<SMsg>, scripts: seq<seq<Intent>>)
    returns (steps: seq<Step>, z: Sys)
    requires y.c.phase.Idle? && !y.c.error && NextRead(y, batch) && |scripts| == |batch|
    ensures ClientWent(cat, y, steps, z, DispatchPass(cat, y.c, batch, scripts, |y.calls|), Taken(batch))
  {
    var a := CollectPass(cat, y.c, |y.calls|);
    var m;
    steps, m := CollectPassRuns(cat, y);
    CollectExact(cat, y.c, |y.calls|);
    if batch == [] {
      z := m;
    } else {
      var s1, u := BatchRuns(cat, m, batch, scripts);
      var b := BatchPass(cat, a.c, batch, scripts, a.calls);
      if Fails(batch) {
        z := u;
        WentOn(cat, y, steps, m, a, 0, s1, u, b, Taken(batch));
        steps := steps + s1;
      } else {
        var s2;
        s2, z := EndRuns(cat, u);
        WentOn(cat, m, s1, u, b, Taken(batch), s2, z, EndPass(cat, b.c, b.calls), 0);
        WentOn(cat, y, steps, m, a, 0, s1 + s2, z,
               Pass(EndPass(cat, b.c, b.calls).c, b.out + EndPass(cat, b.c, b.calls).out, EndPass(cat, b.c, b.calls).calls),
               Taken(batch));
        steps := steps + (s1 + s2);
      }
    }
  }

  lemma {:induction false} FirstRetained(t: seq<nat>, gone: set<nat>, want: set<nat>)
    requires First(t, want).Some? && First(t, want).value !in gone
    ensures First(Retain(t, gone), want) == First(t, want)
  {
    if t[0] !in want {
      FirstRetained(t[1..], gone, want);
      if t[0] !in gone { assert Retain(t, gone)[1..] == Retain(t[1..], gone); }
    }
  }

  /** Collecting resolved objects releases nothing that waits. */
  lemma {:induction false} CollectedStillWait(c: Client, d: Client, ds: seq<Deferred>)
    requires SameButDestroyed(c.objs, d.objs) && d.table == Retain(c.table, Orphans(c))
    requires Remaining(c.objs, c.table, ds) == ds
    ensures Released(d.objs, d.table, ds) == []
  {
    if ds != [] {
      AllRemain(c.objs, c.table, ds);
      assert SeqIs(c.objs, ds[0].dep) == SeqIs(d.objs, ds[0].dep);
      FirstRetained(c.table, Orphans(c), SeqIs(c.objs, ds[0].dep));
      CollectedStillWait(c, d, ds[1..]);
    }
  }

  lemma {:induction false} RemainingShorter(objs: seq<CObj>, table: seq<nat>, ds: seq<Deferred>)
    ensures |Remaining(objs, table, ds)| <= |ds|
  {
    if ds != [] { RemainingShorter(objs, table, ds[1..]); }
  }

  lemma AllRemain(objs: seq<CObj>, table: seq<nat>, ds: seq<Deferred>)
    requires ds != [] && Remaining(objs, table, ds) == ds
    ensures Looked(objs, table, ds[0]) == Some(0) && Remaining(objs, table, ds[1..]) == ds[1..]
  {
    RemainingShorter(objs, table, ds[1..]);
    if Looked(objs, table, ds[0]) == Some(0) {
      assert Remaining(objs, table, ds)[1..] == Remaining(objs, table, ds[1..]);
    }
  }

  /** Some run of the client takes it from `y` to this value, with all of `stream` written
      and `n` messages more read. */
  ghost predicate ClientReaches(cat: Catalog, y: Sys, c: Client, stream: seq<CMsg>, n: nat) {
    exists steps, z :: Run(cat, y, steps, z) && z.c == c && z.c2s == stream && z.sRead == y.sRead + n && z.s == y.s
  }

  /** A state of the system whose client side is this value and this stream. */
  ghost predicate HasClient(y: Sys, c: Client, stream: seq<CMsg>, calls: nat) {
    y.c == c && y.c2s == stream && |y.calls| == calls
  }

  lemma DispatchReaches(cat: Catalog, y: Sys, batch: seq<SMsg>, scripts: seq<seq<Intent>>)
    requires y.c.phase.Idle? && !y.c.error && NextRead(y, batch) && |scripts| == |batch|
    ensures var p := DispatchPass(cat, y.c, batch, scripts, |y.calls|);
      ClientReaches(cat, y, p.c, y.c2s + p.out, Taken(batch))
  {
    var steps, z := DispatchPassRuns(cat, y, batch, scripts);
  }

  /** After a dispatch that did not fail, nothing that could be sent is parked and no orphan
      is left. */
  lemma DispatchSettles(cat: Catalog, c: Client, batch: seq<SMsg>, scripts: seq<seq<Intent>>, calls: nat)
    requires |scripts| == |batch| && batch != [] && !c.error && !Fails(batch)
    ensures var d := DispatchPass(cat, c, batch, scripts, calls).c;
      d.phase.Idle? && d.pending == [] && Released(d.objs, d.table, d.queue) == [] && Orphans(d) == {}
  {
    var a := CollectPass(cat, c, calls);
    var b := BatchPass(cat, a.c, batch, scripts, a.calls);
    var f := FlushPass(b.c).c;
    FlushPartition(b.c);
    RemainingUnresolved(b.c.objs, b.c.table, b.c.queue);
    CollectExact(cat, f, b.calls);
    CollectedStillWait(f, CollectPass(cat, f, b.calls).c, f.queue);
  }

  // ---- the server's dispatch -----------------------------------------------------------------

  /** The end of `on_generic`, if a destructor was dispatched. */
  function FinishPass(s: Server): Server {
    if s.finishing != 0 then Finish(s) else s
  }

  /** One message: its handling, what the application says meanwhile, and the end of a
      destructor. */
  function ServeTurn(cat: Catalog, s: Server, msg: CMsg, script: seq<Speech>, cause: nat, at: nat): SReply {
    var r := ServerHandle(cat, s, msg, cause, at);
    if Unparsable(msg) then r
    else
      var sp := SpeechPass(r.s, script);
      SReply(FinishPass(sp.s), r.out + sp.out)
  }

  datatype Served = Served(s: Server, out: seq<SMsg>, taken: nat)

  /** The `handle_message` loop; it stops when parsing fails. */
  function ServeBatch(cat: Catalog, s: Server, batch: seq<CMsg>, scripts: seq<seq<Speech>>, cause: nat, at: nat): Served
    requires |scripts| == |batch|
    decreases |batch|
  {
    if batch == [] then Served(s, [], 0)
    else
      var t := ServeTurn(cat, s, batch[0], scripts[0], cause, at);
      if Unparsable(batch[0]) then Served(t.s, t.out, 0)
      else
        var rest := ServeBatch(cat, t.s, batch[1..], scripts[1..], cause + 1, at + |t.out|);
        Served(rest.s, t.out + rest.out, 1 + rest.taken)
  }

  /** `dispatch_client` on a batch that has been read. */
  function ServePass(cat: Catalog, s: Server, batch: seq<CMsg>, scripts: seq<seq<Speech>>, cause: nat, at: nat): Served
    requires |scripts| == |batch|
  {
    var b := ServeBatch(cat, s, batch, scripts, cause, at);
    var e := EndDispatch(b.s);
    Served(e.s, b.out + e.out, b.taken)
  }

  /** The server got from `y` to `z` on its own: it wrote `out` and processed `n` messages. */
  ghost predicate ServerWent(cat: Catalog, y: Sys, steps: seq<Step>, z: Sys, p: Served) {
    && Run(cat, y, steps, z)
    && z.s == p.s && z.s2c == y.s2c + p.out && z.cRead == y.cRead + p.taken
    && z.c == y.c && z.c2s == y.c2s && z.sRead == y.sRead
  }

  lemma ServedOn(cat: Catalog, y: Sys, a: seq<Step>, m: Sys, p: Served, b: seq<Step>, z: Sys, q: Served)
    requires ServerWent(cat, y, a, m, p) && ServerWent(cat, m, b, z, q)
    ensures ServerWent(cat, y, a + b, z, Served(q.s, p.out + q.out, p.taken + q.taken))
  {
    hide Apply, Enabled;
    RunJoin(cat, y, a, m, b, z);
    assert y.s2c + (p.out + q.out) == y.s2c + p.out + q.out;
  }

  lemma ServedOne(cat: Catalog, y: Sys, step: Step, p: Served)
    requires Enabled(cat, y, step)
    requires var z := Apply(cat, y, step);
      && z.s == p.s && z.s2c == y.s2c + p.out && z.cRead == y.cRead + p.taken
      && z.c == y.c && z.c2s == y.c2s && z.sRead == y.sRead
    ensures ServerWent(cat, y, [step], Apply(cat, y, step), p)
  {
    assert [step][1..] == [];
  }

  lemma ServedNone(cat: Catalog, y: Sys)
    ensures ServerWent(cat, y, [], y, Served(y.s, [], 0))
  {
    assert y.s2c + [] == y.s2c;
  }

  /** What stays as it is while the application speaks. */
  ghost predicate SameDispatch(s: Server, t: Server) {
    t.gone == s.gone && t.aborted == s.aborted && t.phase == s.phase && t.finishing == s.finishing
  }

  function SpeechStep(w: Speech): Step {
    match w
    case Say(o, m, args) => ServerEvent(o, m, args)
    case Complain(o) => ServerRaise(o)
  }

  lemma SpeakRuns(cat: Catalog, y: Sys, w: Speech)
    requires w.so < |y.s.objs|
    ensures Enabled(cat, y, SpeechStep(w))
    ensures var r := SpeakOne(y.s, w);
      ServerWent(cat, y, [SpeechStep(w)], Apply(cat, y, SpeechStep(w)), Served(r.s, r.out, 0)) && SameDispatch(y.s, r.s)
  {
    var r := SpeakOne(y.s, w);
    ServedOne(cat, y, SpeechStep(w), Served(r.s, r.out, 0));
  }

  lemma {:induction false} SpeechRuns(cat: Catalog, y: Sys, script: seq<Speech>) returns (steps: seq<Step>, z: Sys)
    ensures var r := SpeechPass(y.s, script); ServerWent(cat, y, steps, z, Served(r.s, r.out, 0)) && SameDispatch(y.s, r.s)
    decreases |script|
  {
    hide SpeakOne, SpeechStep, Apply, Enabled;
    if script == [] {
      steps, z := [], y;
      ServedNone(cat, y);
    } else if script[0].so >= |y.s.objs| {
      steps, z := SpeechRuns(cat, y, script[1..]);
      Unheard(y.s, script);
    } else {
      var w := script[0];
      var r := SpeakOne(y.s, w);
      SpeakRuns(cat, y, w);
      var m := Apply(cat, y, SpeechStep(w));
      var rest;
      rest, z := SpeechRuns(cat, m, script[1..]);
      var q := SpeechPass(m.s, script[1..]);
      ServedOn(cat, y, [SpeechStep(w)], m, Served(r.s, r.out, 0), rest, z, Served(q.s, q.out, 0));
      steps := [SpeechStep(w)] + rest;
    }
  }

  lemma Unheard(s: Server, script: seq<Speech>)
    requires script != [] && script[0].so >= |s.objs|
    ensures SpeechPass(s, script) == SpeechPass(s, script[1..])
  {
    assert [] + SpeechPass(s, script[1..]).out == SpeechPass(s, script[1..]).out;
  }

  lemma {:induction false} SpeechKeeps(s: Server, script: seq<Speech>)
    ensures SameDispatch(s, SpeechPass(s, script).s)
    decreases |script|
  {
    if script != [] { SpeechKeeps(SpeakOne(s, script[0]).s, script[1..]); }
  }

  lemma FinishParses(s: Server)
    ensures Finish(s).aborted == s.aborted
  {
  }

  /** A turn fails exactly on a message the parser refuses. */
  lemma TurnFailsIff(cat: Catalog, s: Server, msg: CMsg, script: seq<Speech>, cause: nat, at: nat)
    requires !s.aborted
    ensures ServeTurn(cat, s, msg, script, cause, at).s.aborted <==> Unparsable(msg)
  {
    hide SpeechPass, ServerTake, Finish;
    if !Unparsable(msg) {
      TakeParses(cat, s.(phase := true), msg, cause, at);
      FinishParses(SpeechPass(ServerHandle(cat, s, msg, cause, at).s, script).s);
      SpeechKeeps(ServerHandle(cat, s, msg, cause, at).s, script);
    }
  }

  /** The server can take the next message. */
  ghost predicate Serving(s: Server) {
    !s.gone && !s.aborted && s.finishing == 0
  }

  lemma ServeKeeps(cat: Catalog, s: Server, msg: CMsg, cause: nat, at: nat)
    requires Serving(s)
    ensures var t := ServerHandle(cat, s, msg, cause, at).s; t.phase && !t.gone && (Unparsable(msg) ==> t.finishing == 0)
  {
    hide First, PickIface;
  }

  lemma HandleNextRuns(cat: Catalog, y: Sys)
    requires Serving(y.s) && y.cRead < |y.c2s|
    ensures var r := ServerHandle(cat, y.s, y.c2s[y.cRead], y.cRead, |y.s2c|);
      ServerWent(cat, y, [ServerHandleNext], Apply(cat, y, ServerHandleNext), Served(r.s, r.out, Processed(y.c2s[y.cRead])))
  {
    hide ServerTake;
    var r := ServerHandle(cat, y.s, y.c2s[y.cRead], y.cRead, |y.s2c|);
    assert y.s2c + [] == y.s2c;
    ServedOne(cat, y, ServerHandleNext, Served(r.s, r.out, Processed(y.c2s[y.cRead])));
  }

  /** A message the parser refuses is not counted as processed. */
  function Processed(msg: CMsg): nat {
    if Unparsable(msg) then 0 else 1
  }

  lemma FinishRuns(cat: Catalog, y: Sys) returns (steps: seq<Step>, z: Sys)
    ensures ServerWent(cat, y, steps, z, Served(FinishPass(y.s), [], 0))
    ensures var t := FinishPass(y.s); t.finishing == 0 && t.gone == y.s.gone && t.phase == y.s.phase && t.aborted == y.s.aborted
  {
    assert y.s2c + [] == y.s2c;
    if y.s.finishing != 0 {
      steps, z := [ServerFinish], Apply(cat, y, ServerFinish);
      ServedOne(cat, y, ServerFinish, Served(Finish(y.s), [], 0));
    } else {
      steps, z := [], y;
      ServedNone(cat, y);
    }
  }

  lemma ServeTurnRuns(cat: Catalog, y: Sys, script: seq<Speech>) returns (steps: seq<Step>, z: Sys)
    requires Serving(y.s) && y.cRead < |y.c2s|
    ensures var t := ServeTurn(cat, y.s, y.c2s[y.cRead], script, y.cRead, |y.s2c|);
      ServerWent(cat, y, steps, z, Served(t.s, t.out, Processed(y.c2s[y.cRead])))
      && t.s.phase && !t.s.gone && t.s.finishing == 0
  {
    hide ServerHandle, Finish, SendEvent;
    var r := ServerHandle(cat, y.s, y.c2s[y.cRead], y.cRead, |y.s2c|);
    HandleNextRuns(cat, y);
    ServeKeeps(cat, y.s, y.c2s[y.cRead], y.cRead, |y.s2c|);
    var m := Apply(cat, y, ServerHandleNext);
    if Unparsable(y.c2s[y.cRead]) { return [ServerHandleNext], m; }
    var a, u := SpeechRuns(cat, m, script);
    var sp := SpeechPass(r.s, script);
    var b;
    b, z := FinishRuns(cat, u);
    ServedOn(cat, m, a, u, Served(sp.s, sp.out, 0), b, z, Served(FinishPass(sp.s), [], 0));
    assert sp.out + [] == sp.out;
    ServedOn(cat, y, [ServerHandleNext], m, Served(r.s, r.out, 1), a + b, z, Served(FinishPass(sp.s), sp.out, 0));
    steps := [ServerHandleNext] + (a + b);
  }

  /** The batch is what the channel holds next. */
  ghost predicate NextServed(y: Sys, batch: seq<CMsg>) {
    y.cRead + |batch| <= |y.c2s| && y.c2s[y.cRead..y.cRead + |batch|] == batch
  }

  lemma {:induction false} ServeBatchRuns(cat: Catalog, y: Sys, batch: seq<CMsg>, scripts: seq<seq<Speech>>)
    returns (steps: seq<Step>, z: Sys)
    requires Serving(y.s) && NextServed(y, batch) && |scripts| == |batch|
    ensures var b := ServeBatch(cat, y.s, batch, scripts, y.cRead, |y.s2c|);
      ServerWent(cat, y, steps, z, b) && (batch != [] ==> b.s.phase) && b.s.finishing == 0
    decreases |batch|
  {
    hide ServeTurn, Run, EndDispatch, Apply;
    if batch == [] {
      steps, z := [], y;
      ServedNone(cat, y);
    } else {
      assert y.c2s[y.cRead] == batch[0];
      var t := ServeTurn(cat, y.s, batch[0], scripts[0], y.cRead, |y.s2c|);
      var m;
      steps, m := ServeTurnRuns(cat, y, scripts[0]);
      if Unparsable(batch[0]) {
        z := m;
      } else {
        TurnFailsIff(cat, y.s, batch[0], scripts[0], y.cRead, |y.s2c|);
        assert NextServed(m, batch[1..]);
        var rest;
        rest, z := ServeBatchRuns(cat, m, batch[1..], scripts[1..]);
        ServedOn(cat, y, steps, m, Served(t.s, t.out, 1), rest, z,
                 ServeBatch(cat, m.s, batch[1..], scripts[1..], m.cRead, |m.s2c|));
        steps := steps + rest;
      }
    }
  }

  /** A dispatch of the server for one client is a run of the composed system. */
  lemma ServePassRuns(cat: Catalog, y: Sys, batch: seq<CMsg>, scripts: seq<seq<Speech>>)
    returns (steps: seq<Step>, z: Sys)
    requires Serving(y.s) && NextServed(y, batch) && |scripts| == |batch| && batch != []
    ensures ServerWent(cat, y, steps, z, ServePass(cat, y.s, batch, scripts, y.cRead, |y.s2c|))
  {
    var b := ServeBatch(cat, y.s, batch, scripts, y.cRead, |y.s2c|);
    var m;
    steps, m := ServeBatchRuns(cat, y, batch, scripts);
    var e := EndDispatch(b.s);
    z := Apply(cat, m, ServerEnd);
    ServedOne(cat, m, ServerEnd, Served(e.s, e.out, 0));
    ServedOn(cat, y, steps, m, b, [ServerEnd], z, Served(e.s, e.out, 0));
    steps := steps + [ServerEnd];
  }

  ghost predicate ServerReaches(cat: Catalog, y: Sys, s: Server, stream: seq<SMsg>, n: nat) {
    exists steps, z :: Run(cat, y, steps, z) && z.s == s && z.s2c == stream && z.cRead == y.cRead + n && z.c == y.c
  }

  ghost predicate HasServer(y: Sys, s: Server, stream: seq<SMsg>) {
    y.s == s && y.s2c == stream
  }

  lemma ServeReaches(cat: Catalog, y: Sys, batch: seq<CMsg>, scripts: seq<seq<Speech>>)
    requires Serving(y.s) && NextServed(y, batch) && |scripts| == |batch| && batch != []
    ensures var p := ServePass(cat, y.s, batch, scripts, y.cRead, |y.s2c|);
      ServerReaches(cat, y, p.s, y.s2c + p.out, p.taken)
  {
    var steps, z := ServePassRuns(cat, y, batch, scripts);
  }
}
