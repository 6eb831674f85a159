// What a disconnect delivers, whatever the destructors' handlers say meanwhile:
// hyprwire/src/server/server_client.rs:246-263, server_object.rs:48-68.
module Disconnection {
  import opened Types
  import opened ClientModel
  import opened ServerModel
  import opened System
  import opened Invariant
  import opened ServerSteps
  import opened ServerRequests

  ghost predicate Decreasing(xs: seq<nat>) {
    forall i, j :: 0 <= i < j < |xs| ==> xs[i] > xs[j]
  }

  // ---- destructor events -----------------------------------------------------------------

  /** `m` is a destructor event of the object with id `x`. */
  ghost predicate Kills(objs: seq<SObj>, m: SMsg, x: nat) {
    && m.Event? && m.source == x && 1 <= x <= |objs| && objs[x - 1].iface.Some?
    && m.event < |objs[x - 1].iface.value.s2c| && objs[x - 1].iface.value.s2c[m.event].destructor
  }

  ghost predicate Killed(objs: seq<SObj>, out: seq<SMsg>, x: nat) {
    exists k :: 0 <= k < |out| && Kills(objs, out[k], x)
  }

  /** Only destroyed flags were set. */
  ghost predicate SameObjs(a: seq<SObj>, b: seq<SObj>) {
    |a| == |b| && forall i :: 0 <= i < |a| ==> SameSObj(a[i], b[i])
  }

  ghost predicate SaneIds(objs: seq<SObj>) {
    forall i: nat :: i < |objs| ==> objs[i].id == i + 1
  }

  lemma KillsSame(a: seq<SObj>, b: seq<SObj>, out: seq<SMsg>, x: nat)
    requires SameObjs(a, b)
    ensures Killed(a, out, x) <==> Killed(b, out, x)
  {
    assert 1 <= x <= |a| ==> SameSObj(a[x - 1], b[x - 1]);
    assert forall m :: Kills(a, m, x) <==> Kills(b, m, x);
  }

  lemma KilledJoin(objs: seq<SObj>, a: seq<SMsg>, b: seq<SMsg>, x: nat)
    ensures Killed(objs, a + b, x) <==> Killed(objs, a, x) || Killed(objs, b, x)
  {
    if Killed(objs, a, x) {
      var k :| 0 <= k < |a| && Kills(objs, a[k], x);
      assert (a + b)[k] == a[k];
    }
    if Killed(objs, b, x) {
      var k :| 0 <= k < |b| && Kills(objs, b[k], x);
      assert (a + b)[|a| + k] == b[k];
    }
  }

  lemma KilledOne(objs: seq<SObj>, m: SMsg, x: nat)
    ensures Killed(objs, [m], x) <==> Kills(objs, m, x)
    ensures !Killed(objs, [], x)
  {
    assert [m][0] == m;
  }

  // ---- what a handler says ---------------------------------------------------------------

  /** A message of an application step: an event an existing object may send, or a fatal error
      of a connection in error. */
  ghost predicate IsSpoken(s: Server, m: SMsg) {
    (m.Event? && 1 <= m.source <= |s.objs| && Sayable(s.objs[m.source - 1], m.event))
    || (m.FatalProtocolError? && s.error)
  }

  ghost predicate AllSpoken(s: Server, out: seq<SMsg>) {
    forall k :: 0 <= k < |out| ==> IsSpoken(s, out[k])
  }

  /** From `s` to `r.s` the application said `r.out`: exactly the objects whose destructor
      event was sent became destroyed. */
  ghost predicate Spoke(s: Server, r: SReply) {
    && r.s == s.(objs := r.s.objs, error := r.s.error) && (s.error ==> r.s.error)
    && SameObjs(s.objs, r.s.objs) && AllSpoken(r.s, r.out)
    && forall i: nat :: i < |s.objs| ==>
         (r.s.objs[i].destroyed <==> s.objs[i].destroyed || Killed(s.objs, r.out, i + 1))
  }

  lemma SpokeOne(s: Server, w: Speech)
    requires SaneIds(s.objs)
    ensures Spoke(s, SpeakOne(s, w))
  {
    hide SendEvent, RaiseError, Spoke;
    SpokeNothing(s);
    if w.so < |s.objs| {
      match w
      case Say(o, m, args) => SaidEvent(s, o, m, args);
      case Complain(o) => SaidError(s, o);
    }
  }

  lemma SaidEvent(s: Server, o: nat, m: nat, args: seq<CallArg>)
    requires SaneIds(s.objs) && o < |s.objs|
    ensures Spoke(s, SendEvent(s, o, m, args))
  {
    hide Killed, SendEvent;
    var r := SendEvent(s, o, m, args);
    SendShape(s, o, m, args);
    SentFlag(s, o, m, args);
    forall i: nat | i < |s.objs|
      ensures r.s.objs[i].destroyed <==> s.objs[i].destroyed || Killed(s.objs, r.out, i + 1)
    {
      if r.out != [] { KilledOne(s.objs, r.out[0], i + 1); } else { KilledOne(s.objs, RoundtripDone(0), i + 1); }
    }
  }

  /** The flag of the object an event was sent for. */
  lemma SentFlag(s: Server, o: nat, m: nat, args: seq<CallArg>)
    requires SaneIds(s.objs) && o < |s.objs|
    ensures var r := SendEvent(s, o, m, args);
      r.s.objs[o].destroyed <==> s.objs[o].destroyed || (r.out != [] && Kills(s.objs, r.out[0], o + 1))
  {
  }

  lemma SaidError(s: Server, o: nat)
    requires o < |s.objs|
    ensures Spoke(s, RaiseError(s, o))
  {
    hide Killed;
    var out := RaiseError(s, o).out;
    forall x: nat ensures !Killed(s.objs, out, x) {
      KilledOne(s.objs, FatalProtocolError(s.objs[o].id), x);
    }
  }

  lemma SpokeOn(s: Server, r: SReply, q: SReply)
    requires Spoke(s, r) && Spoke(r.s, q)
    ensures Spoke(s, SReply(q.s, r.out + q.out))
  {
    hide Killed;
    forall i: nat | i < |s.objs|
      ensures q.s.objs[i].destroyed <==> s.objs[i].destroyed || Killed(s.objs, r.out + q.out, i + 1)
    {
      KilledJoin(s.objs, r.out, q.out, i + 1);
      KillsSame(s.objs, r.s.objs, q.out, i + 1);
    }
  }

  lemma {:induction false} SpokeAll(s: Server, script: seq<Speech>)
    requires SaneIds(s.objs)
    ensures Spoke(s, SpeechPass(s, script))
    decreases |script|
  {
    hide SpeakOne, Spoke, Killed;
    if script == [] {
      SpokeNothing(s);
    } else {
      SpokeOne(s, script[0]);
      var r := SpeakOne(s, script[0]);
      StaySane(s, r);
      SpokeAll(r.s, script[1..]);
      SpokeOn(s, r, SpeechPass(r.s, script[1..]));
    }
  }

  lemma SpokeNothing(s: Server)
    ensures Spoke(s, SReply(s, []))
  {
  }

  lemma StaySane(s: Server, r: SReply)
    requires SaneIds(s.objs) && Spoke(s, r)
    ensures SaneIds(r.s.objs)
  {
  }

  // ---- the loop --------------------------------------------------------------------------

  /** The object with id `x` is among the first `n` of `todo` and wants a destructor. */
  ghost predicate Due(objs: seq<SObj>, todo: seq<nat>, n: nat, x: nat)
    requires n <= |todo|
  {
    1 <= x <= |objs| && x - 1 in todo[..n] && WantsDestructor(objs[x - 1])
  }

  /** A handler of an object newer than `x` sent the destructor event of `x`; `said[k]` is
      what the handler of `d[k]` said. */
  ghost predicate KilledBefore(objs: seq<SObj>, d: seq<nat>, said: seq<seq<SMsg>>, x: nat) {
    exists k :: 0 <= k < |d| && k < |said| && d[k] > x && Killed(objs, said[k], x)
  }

  /** `d` is delivered, in reverse creation order: everything due that no handler before its
      turn destroyed. */
  ghost predicate Owed(objs: seq<SObj>, todo: seq<nat>, n: nat, d: seq<nat>, said: seq<seq<SMsg>>)
    requires n <= |todo|
  {
    && |said| == |d| && Decreasing(d)
    && forall x: nat :: x in d <==> Due(objs, todo, n, x) && !KilledBefore(objs, d, said, x)
  }

  /** Everything said, in order. */
  ghost function Flat(said: seq<seq<SMsg>>): seq<SMsg> {
    if said == [] then [] else said[0] + Flat(said[1..])
  }

  /** What the loop did: it delivered `d`, its handlers sent `out`, and the objects of `d` and
      those whose destructor event was sent are destroyed. */
  ghost predicate Destroys(s: Server, r: SReply, d: seq<nat>) {
    && r.s == s.(objs := r.s.objs, error := r.s.error, dlog := s.dlog + d) && (s.error ==> r.s.error)
    && SameObjs(s.objs, r.s.objs) && AllSpoken(r.s, r.out)
    && forall i: nat :: i < |s.objs| ==>
         (r.s.objs[i].destroyed <==> s.objs[i].destroyed || i + 1 in d || Killed(s.objs, r.out, i + 1))
  }

  lemma NothingDelivered(s: Server)
    ensures Destroys(s, SReply(s, []), [])
  {
    assert s.dlog + [] == s.dlog;
  }

  lemma TurnDelivers(s: Server, i: nat, script: seq<Speech>)
    requires SaneIds(s.objs) && i < |s.objs| && WantsDestructor(s.objs[i])
    ensures Destroys(s, DestroyTurn(s, i, script), [i + 1])
    ensures DestroyTurn(s, i, script).s.objs[i].destroyed
  {
    hide SpeechPass, Killed;
    SpokeAll(s.(dlog := s.dlog + [i + 1]), script);
  }

  lemma DeliversOn(s: Server, r: SReply, d: seq<nat>, q: SReply, e: seq<nat>)
    requires Destroys(s, r, d) && Destroys(r.s, q, e)
    ensures Destroys(s, SReply(q.s, r.out + q.out), d + e)
  {
    hide Killed;
    assert s.dlog + d + e == s.dlog + (d + e);
    forall i: nat | i < |s.objs|
      ensures q.s.objs[i].destroyed <==> s.objs[i].destroyed || i + 1 in d + e || Killed(s.objs, r.out + q.out, i + 1)
    {
      KilledJoin(s.objs, r.out, q.out, i + 1);
      KillsSame(s.objs, r.s.objs, q.out, i + 1);
    }
  }

  lemma DeliversSane(s: Server, r: SReply, d: seq<nat>)
    requires SaneIds(s.objs) && Destroys(s, r, d)
    ensures SaneIds(r.s.objs) && SameObjs(s.objs, r.s.objs)
  {
  }

  ghost predicate SaneTodo(s: Server, todo: seq<nat>) {
    SaneIds(s.objs) && Increasing(todo) && forall i :: i in todo ==> i < |s.objs|
  }

  /** The loop over the first `n` entries delivers exactly what is owed, marks exactly the
      objects it should, and sends exactly what the handlers said. */
  lemma {:induction false} DestroyFromDelivers(s: Server, todo: seq<nat>, scripts: seq<seq<Speech>>, n: nat)
    returns (d: seq<nat>, said: seq<seq<SMsg>>)
    requires SaneTodo(s, todo) && n <= |todo| == |scripts|
    ensures var r := DestroyFrom(s, todo, scripts, n);
      Destroys(s, r, d) && Owed(s.objs, todo, n, d, said) && r.out == Flat(said)
    decreases n
  {
    hide DestroyTurn, Destroys, Owed, Killed, WantsDestructor;
    if n == 0 {
      d, said := [], [];
      NothingDelivered(s);
      NothingOwed(s.objs, todo);
    } else {
      var i := todo[n - 1];
      assert i in todo;
      if WantsDestructor(s.objs[i]) {
        var t := DestroyTurn(s, i, scripts[n - 1]);
        TurnDelivers(s, i, scripts[n - 1]);
        DeliversSane(s, t, [i + 1]);
        var d1, said1 := DestroyFromDelivers(t.s, todo, scripts, n - 1);
        d, said := [i + 1] + d1, [t.out] + said1;
        DeliversOn(s, t, [i + 1], DestroyFrom(t.s, todo, scripts, n - 1), d1);
        OwedStep(s, todo, n, i, t, d1, said1);
        assert said[1..] == said1;
      } else {
        Unwanted(s, i, scripts[n - 1]);
        d, said := DestroyFromDelivers(s, todo, scripts, n - 1);
        assert [] + DestroyFrom(s, todo, scripts, n - 1).out == DestroyFrom(s, todo, scripts, n - 1).out;
        SkipStep(s.objs, todo, n, i, d, said);
      }
    }
  }

  lemma Unwanted(s: Server, i: nat, script: seq<Speech>)
    requires i < |s.objs| && !WantsDestructor(s.objs[i])
    ensures DestroyTurn(s, i, script) == SReply(s, [])
  {
  }

  lemma NothingOwed(objs: seq<SObj>, todo: seq<nat>)
    ensures Owed(objs, todo, 0, [], [])
  {
  }

  lemma SkipStep(objs: seq<SObj>, todo: seq<nat>, n: nat, i: nat, d: seq<nat>, said: seq<seq<SMsg>>)
    requires 0 < n <= |todo| && i == todo[n - 1] && i < |objs| && !WantsDestructor(objs[i])
    requires Owed(objs, todo, n - 1, d, said)
    ensures Owed(objs, todo, n, d, said)
  {
    hide KilledBefore, WantsDestructor;
    assert todo[..n] == todo[..n - 1] + [i];
    assert forall x: nat :: Due(objs, todo, n, x) <==> Due(objs, todo, n - 1, x);
  }

  lemma OwedStep(s: Server, todo: seq<nat>, n: nat, i: nat, t: SReply, d1: seq<nat>, said1: seq<seq<SMsg>>)
    requires SaneTodo(s, todo) && 0 < n <= |todo| && i == todo[n - 1] && i < |s.objs| && WantsDestructor(s.objs[i])
    requires Destroys(s, t, [i + 1]) && Owed(t.s.objs, todo, n - 1, d1, said1)
    ensures Owed(s.objs, todo, n, [i + 1] + d1, [t.out] + said1)
  {
    hide Killed, WantsDestructor, KilledBefore, Due;
    var d, said := [i + 1] + d1, [t.out] + said1;
    Older(s.objs, t.s.objs, todo, n, i, d1, said1);
    forall x: nat ensures x in d <==> Due(s.objs, todo, n, x) && !KilledBefore(s.objs, d, said, x) {
      if x == i + 1 {
        assert d[0] == x;
        NewestFirst(s.objs, todo, n, i, d1, [t.out] + said1);
      } else {
        DueStep(s, todo, n, i, t, x);
        KilledStep(s.objs, t, i, d1, said1, x);
      }
    }
  }

  /** What is delivered later is older. */
  lemma Older(objs: seq<SObj>, objs1: seq<SObj>, todo: seq<nat>, n: nat, i: nat, d1: seq<nat>, said1: seq<seq<SMsg>>)
    requires Increasing(todo) && 0 < n <= |todo| && i == todo[n - 1] && Owed(objs1, todo, n - 1, d1, said1)
    ensures forall j :: 0 <= j < |d1| ==> d1[j] < i + 1
    ensures Decreasing([i + 1] + d1)
  {
    hide KilledBefore;
    forall j | 0 <= j < |d1| ensures d1[j] < i + 1 {
      assert d1[j] in d1;
      assert Due(objs1, todo, n - 1, d1[j]);
    }
  }

  lemma NewestFirst(objs: seq<SObj>, todo: seq<nat>, n: nat, i: nat, d1: seq<nat>, said: seq<seq<SMsg>>)
    requires 0 < n <= |todo| && i == todo[n - 1] && i < |objs| && WantsDestructor(objs[i])
    requires Decreasing([i + 1] + d1)
    ensures Due(objs, todo, n, i + 1) && !KilledBefore(objs, [i + 1] + d1, said, i + 1)
  {
    assert todo[..n] == todo[..n - 1] + [i];
    var d := [i + 1] + d1;
    assert forall k :: 0 <= k < |d| ==> d[k] <= d[0];
  }

  /** The first turn leaves an older object due unless its handler destroyed it. */
  lemma DueStep(s: Server, todo: seq<nat>, n: nat, i: nat, t: SReply, x: nat)
    requires Increasing(todo) && 0 < n <= |todo| && i == todo[n - 1] && x != i + 1 && Destroys(s, t, [i + 1])
    ensures Due(s.objs, todo, n, x) ==> x < i + 1
    ensures Due(t.s.objs, todo, n - 1, x) <==> Due(s.objs, todo, n, x) && !Killed(s.objs, t.out, x)
  {
    hide Killed, HasPlainDestructor;
    assert todo[..n] == todo[..n - 1] + [i];
    if 1 <= x <= |s.objs| { assert SameSObj(s.objs[x - 1], t.s.objs[x - 1]); }
  }

  lemma KilledStep(objs: seq<SObj>, t: SReply, i: nat, d1: seq<nat>, said1: seq<seq<SMsg>>, x: nat)
    requires SameObjs(objs, t.s.objs) && |said1| == |d1|
    ensures KilledBefore(objs, [i + 1] + d1, [t.out] + said1, x) <==>
            (x < i + 1 && Killed(objs, t.out, x)) || KilledBefore(t.s.objs, d1, said1, x)
  {
    hide Killed, SameObjs;
    var d, said := [i + 1] + d1, [t.out] + said1;
    forall k | 0 <= k < |said1| ensures Killed(objs, said1[k], x) <==> Killed(t.s.objs, said1[k], x) {
      KillsSame(objs, t.s.objs, said1[k], x);
    }
    if KilledBefore(t.s.objs, d1, said1, x) {
      var k :| 0 <= k < |d1| && k < |said1| && d1[k] > x && Killed(t.s.objs, said1[k], x);
      assert d[k + 1] == d1[k] && said[k + 1] == said1[k];
    }
    if x < i + 1 && Killed(objs, t.out, x) { assert d[0] > x && said[0] == t.out; }
    if KilledBefore(objs, d, said, x) {
      var k :| 0 <= k < |d| && k < |said| && d[k] > x && Killed(objs, said[k], x);
      if k > 0 { assert d1[k - 1] > x && Killed(t.s.objs, said1[k - 1], x); }
    }
  }

  // ---- the whole disconnect --------------------------------------------------------------

  /** What a disconnect did: `d` was delivered and `said[k]` is what the handler of `d[k]`
      sent.  Exactly the objects that wanted a destructor received one, newest first, but for
      those whose destructor event a newer object's handler had sent. */
  ghost predicate Departs(s: Server, r: SReply, d: seq<nat>, said: seq<seq<SMsg>>) {
    && |said| == |d| && Decreasing(d) && r.out == Flat(said)
    && (forall x: nat :: x in d <==> 1 <= x <= |s.objs| && WantsDestructor(s.objs[x - 1]) && !KilledBefore(s.objs, d, said, x))
    && r.s == s.(objs := r.s.objs, table := [], dlog := s.dlog + d, error := true, gone := true)
    && SameObjs(s.objs, r.s.objs)
    && forall i: nat :: i < |s.objs| ==>
         (r.s.objs[i].destroyed <==> s.objs[i].destroyed || i + 1 in d || Killed(s.objs, r.out, i + 1))
  }

  lemma DisconnectDelivers(s: Server, scripts: seq<seq<Speech>>) returns (d: seq<nat>, said: seq<seq<SMsg>>)
    requires ServerTable(s) && !s.gone && |scripts| == |s.table|
    ensures Departs(s, Disconnect(s, scripts), d, said)
    ensures AllSpoken(Disconnect(s, scripts).s, Disconnect(s, scripts).out)
    ensures forall x :: x in d ==> x - 1 in s.table
  {
    hide Killed, KilledBefore, WantsDestructor, DestroyFrom, IsSpoken;
    d, said := DestroyFromDelivers(s, s.table, scripts, |s.table|);
    assert s.table[..|s.table|] == s.table;
    SpokenStays(DestroyFrom(s, s.table, scripts, |s.table|).s, Disconnect(s, scripts).s, Disconnect(s, scripts).out);
    forall x: nat ensures Due(s.objs, s.table, |s.table|, x) <==> 1 <= x <= |s.objs| && WantsDestructor(s.objs[x - 1]) {
      TabledWant(s, x);
    }
  }

  lemma SpokenStays(s: Server, t: Server, out: seq<SMsg>)
    requires AllSpoken(s, out) && t.objs == s.objs && t.error
    ensures AllSpoken(t, out)
  {
  }

  lemma TabledWant(s: Server, x: nat)
    requires ServerTable(s) && !s.gone
    ensures 1 <= x <= |s.objs| && WantsDestructor(s.objs[x - 1]) ==> x - 1 in s.table
  {
    assert 1 <= x <= |s.objs| && x - 1 !in s.table ==> s.objs[x - 1].destroyed;
  }

  lemma JoinNoDuplicates(xs: seq<nat>, d: seq<nat>)
    requires NoDuplicates(xs) && Decreasing(d) && forall x :: x in d ==> x !in xs
    ensures NoDuplicates(xs + d)
  {
    var z := xs + d;
    forall i, j | 0 <= i < j < |z| ensures z[i] != z[j] {
      if i < |xs| <= j { assert xs[i] in xs && d[j - |xs|] in d; }
    }
  }

  lemma DisconnectTable(s: Server, scripts: seq<seq<Speech>>)
    requires ServerTable(s) && !s.phase && !s.gone && |scripts| == |s.table|
    ensures var t := Disconnect(s, scripts).s; ServerTable(t) && NoDuplicates(t.dlog) && SameObjs(s.objs, t.objs)
  {
    hide Disconnect, Killed, KilledBefore, WantsDestructor;
    var d, said := DisconnectDelivers(s, scripts);
    forall x | x in d ensures x !in s.dlog {
      assert x - 1 in s.table;
    }
    JoinNoDuplicates(s.dlog, d);
  }

  lemma DisconnectEmits(y: Sys, scripts: seq<seq<Speech>>)
    requires ServerTable(y.s) && !y.s.phase && !y.s.gone && |scripts| == |y.s.table|
    ensures var r := Disconnect(y.s, scripts); Emits(y, Emit(y, r), r.out)
  {
    hide Disconnect, Killed, KilledBefore, WantsDestructor;
    var d, said := DisconnectDelivers(y.s, scripts);
  }

  /** What the application of a connection says is consistent with its history. */
  lemma SpokenOk(cat: Catalog, y: Sys, z: Sys, out: seq<SMsg>)
    requires History(cat, y) && Emits(y, z, out) && AllSpoken(z.s, out)
    ensures forall p: nat :: |y.s2c| <= p < |z.s2c| ==> SMsgOk(z, p)
  {
    forall p: nat | |y.s2c| <= p < |z.s2c| ensures SMsgOk(z, p) {
      assert IsSpoken(z.s, out[p - |y.s2c|]);
      if z.s2c[p].Event? {
        var o := z.s2c[p].source - 1;
        assert SObjOk(y, o) && SameSObj(y.s.objs[o], z.s.objs[o]);
      }
    }
  }

  lemma DisconnectKeepsInv(cat: Catalog, y: Sys, scripts: seq<seq<Speech>>)
    requires Inv(cat, y) && Enabled(cat, y, ServerDisconnect(scripts))
    ensures var z := Apply(cat, y, ServerDisconnect(scripts)); Inv(cat, z) && Extends(y, z)
  {
    hide ClientTable, Delivered, QueueIs, Kept, ClientHello, ServerHello, RequestsOk, AcksOk, Extends;
    hide Disconnect, Emits, AllSpoken, Departs, Killed;
    var r := Disconnect(y.s, scripts);
    var z := Apply(cat, y, ServerDisconnect(scripts));
    var d, said := DisconnectDelivers(y.s, scripts);
    DisconnectTable(y.s, scripts);
    DisconnectEmits(y, scripts);
    SpokenOk(cat, y, z, r.out);
    EmitHistory(cat, y, z, r.out);
    DisconnectHello(cat, y, z, r, d, said);
  }

  lemma DeliveredExist(s: Server, r: SReply, d: seq<nat>, said: seq<seq<SMsg>>)
    requires Departs(s, r, d, said)
    ensures |s.objs| == 0 ==> d == []
    ensures (d == [] ==> r.out == []) && |r.s.objs| == |s.objs|
  {
    if d != [] { assert d[0] in d; }
  }

  lemma DisconnectHello(cat: Catalog, y: Sys, z: Sys, r: SReply, d: seq<nat>, said: seq<seq<SMsg>>)
    requires ClientHello(y) && ServerHello(cat, y) && RequestsOk(y) && AcksOk(y) && Bounds(y) && MarksBounded(y)
    requires z == Emit(y, r) && !y.s.phase && Departs(y.s, r, d, said) && AllSpoken(r.s, r.out)
    ensures ClientHello(z) && ServerHello(cat, z) && RequestsOk(z) && AcksOk(z)
  {
    hide Killed, KilledBefore, WantsDestructor, SameObjs, Flat;
    assert forall p :: |y.s2c| <= p < |z.s2c| ==> IsSpoken(r.s, z.s2c[p]);
    DeliveredExist(y.s, r, d, said);
    assert y.s2c + [] == y.s2c;
    if y.cRead == 0 { assert |d| == 0 && z.s2c == y.s2c && z.s.objs == y.s.objs; }
    ServerHelloFrame(cat, y, z);
    ServerAcksFrame(y, z);
  }
}
