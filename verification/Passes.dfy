// The loops of a dispatch as single passes over the client, and the runs of the composed
// system they are: the deferred flush (hyprwire/src/client/event_queue.rs:144-167) and the
// orphan collection (hyprwire/src/client/client_socket.rs:247-263).
module Passes {
  import opened Types
  import opened ClientModel
  import opened System

  // ---- the flush -----------------------------------------------------------------------------

  /** The flush loop over what is left in `pending`. */
  function FlushAll(c: Client): Reply
    decreases |c.pending|
  {
    if c.pending == [] then Reply(c, [])
    else
      var r := FlushOne(c);
      var rest := FlushAll(r.c);
      Reply(rest.c, r.out + rest.out)
  }

  /** `mem::take` of the queue, the loop, and the end of the dispatch. */
  function FlushPass(c: Client): Reply {
    var r := FlushAll(StartFlush(c));
    Reply(r.c.(phase := Idle), r.out)
  }

  /** What the table knows about the object a parked request depends on: nothing, or its id
      (0 while the server has not answered). */
  function Looked(objs: seq<CObj>, table: seq<nat>, d: Deferred): Option<nat> {
    match First(table, SeqIs(objs, d.dep))
    case None => None
    case Some(i) => Some(if i < |objs| then objs[i].id else 0)
  }

  /** The parked requests that stay, in order. */
  function Remaining(objs: seq<CObj>, table: seq<nat>, ds: seq<Deferred>): seq<Deferred> {
    if ds == [] then []
    else (if Looked(objs, table, ds[0]) == Some(0) then [ds[0]] else []) + Remaining(objs, table, ds[1..])
  }

  /** The requests sent for those whose object has an id, in order, each to that id. */
  function Released(objs: seq<CObj>, table: seq<nat>, ds: seq<Deferred>): seq<CMsg> {
    if ds == [] then []
    else
      var l := Looked(objs, table, ds[0]);
      (if l.Some? && l.value != 0 then [Request(l.value, ds[0].op, ds[0].ret, ds[0].args, ds[0].call)] else [])
      + Released(objs, table, ds[1..])
  }

  lemma FlushOneShape(c: Client)
    requires c.pending != []
    ensures FlushOne(c) == Reply(c.(pending := c.pending[1..], queue := c.queue + Remaining(c.objs, c.table, [c.pending[0]])),
                                 Released(c.objs, c.table, [c.pending[0]]))
  {
    var d := c.pending[0];
    assert [d][1..] == [] && Remaining(c.objs, c.table, []) == [] && Released(c.objs, c.table, []) == [];
    assert c.queue + [] == c.queue;
  }

  lemma SplitFirst(objs: seq<CObj>, table: seq<nat>, ds: seq<Deferred>)
    requires ds != []
    ensures Remaining(objs, table, ds) == Remaining(objs, table, [ds[0]]) + Remaining(objs, table, ds[1..])
    ensures Released(objs, table, ds) == Released(objs, table, [ds[0]]) + Released(objs, table, ds[1..])
  {
    hide Looked;
    assert [ds[0]][1..] == [] && Remaining(objs, table, []) == [] && Released(objs, table, []) == [];
  }

  lemma {:induction false} FlushAllPartition(c: Client)
    ensures FlushAll(c) == Reply(c.(pending := [], queue := c.queue + Remaining(c.objs, c.table, c.pending)),
                                 Released(c.objs, c.table, c.pending))
    decreases |c.pending|
  {
    if c.pending == [] {
      assert c.queue + [] == c.queue;
    } else {
      FlushOneShape(c);
      SplitFirst(c.objs, c.table, c.pending);
      var r := FlushOne(c);
      FlushAllPartition(r.c);
      assert r.c.queue + Remaining(c.objs, c.table, c.pending[1..]) == c.queue + Remaining(c.objs, c.table, c.pending);
    }
  }

  /** The flush is a stable partition of the queue: every parked request is kept, released
      to the id of its object, or dropped for want of one, and both lists keep call order. */
  lemma FlushPartition(c: Client)
    ensures FlushPass(c) == Reply(c.(pending := [], queue := Remaining(c.objs, c.table, c.queue), phase := Idle),
                                  Released(c.objs, c.table, c.queue))
  {
    FlushAllPartition(StartFlush(c));
    assert [] + Remaining(c.objs, c.table, c.queue) == Remaining(c.objs, c.table, c.queue);
  }

  /** Nothing releasable is left behind. */
  lemma {:induction false} RemainingUnresolved(objs: seq<CObj>, table: seq<nat>, ds: seq<Deferred>)
    ensures Released(objs, table, Remaining(objs, table, ds)) == []
    ensures Remaining(objs, table, Remaining(objs, table, ds)) == Remaining(objs, table, ds)
  {
    if ds != [] {
      RemainingUnresolved(objs, table, ds[1..]);
      if Looked(objs, table, ds[0]) == Some(0) {
        assert Remaining(objs, table, ds)[1..] == Remaining(objs, table, ds[1..]);
      } else {
        assert Remaining(objs, table, ds) == Remaining(objs, table, ds[1..]);
      }
    }
  }

  /** Flushing twice is flushing once. */
  lemma FlushIdempotent(c: Client)
    ensures FlushPass(FlushPass(c).c) == Reply(FlushPass(c).c, [])
  {
    FlushPartition(c);
    FlushPartition(FlushPass(c).c);
    RemainingUnresolved(c.objs, c.table, c.queue);
  }

  // ---- the collection --------------------------------------------------------------------------

  /** `calls` is the number of calls made so far, history only. */
  datatype Pass = Pass(c: Client, out: seq<CMsg>, calls: nat)

  /** The drop of a handle-less object: its destructor is called if it can be. */
  function DropHandle(cat: Catalog, c: Client, o: nat, calls: nat): Pass
    requires o < |c.objs|
  {
    match AutoDestructor(c.objs[o])
    case None => Pass(c, [], calls)
    case Some(m) =>
      var r := Call(cat, c, o, m, [], calls);
      Pass(r.c, r.out, calls + 1)
  }

  /** The `retain` loop over the table entries `todo`; what it removes is dropped at once. */
  function CollectOver(cat: Catalog, c: Client, todo: seq<nat>, calls: nat): Pass
    decreases |todo|
  {
    if todo == [] then Pass(c, [], calls)
    else if !Orphan(c, todo[0]) then CollectOver(cat, c, todo[1..], calls)
    else
      var p := DropHandle(cat, Discard(c, todo[0]), todo[0], calls);
      var rest := CollectOver(cat, p.c, todo[1..], p.calls);
      Pass(rest.c, p.out + rest.out, rest.calls)
  }

  function CollectPass(cat: Catalog, c: Client, calls: nat): Pass {
    CollectOver(cat, c, c.table, calls)
  }

  /** The same objects, except that some may have become destroyed. */
  ghost predicate SameButDestroyed(a: seq<CObj>, b: seq<CObj>) {
    |a| == |b| && forall i :: 0 <= i < |a| ==> b[i] == a[i].(destroyed := b[i].destroyed)
  }

  lemma DropFrame(cat: Catalog, c: Client, o: nat, calls: nat)
    requires o < |c.objs|
    ensures var p := DropHandle(cat, c, o, calls); p.c == c.(objs := p.c.objs) && SameButDestroyed(c.objs, p.c.objs)
  {
    if AutoDestructor(c.objs[o]).Some? {
      assert c.table + [] == c.table && c.queue + [] == c.queue;
      var r := Call(cat, c, o, AutoDestructor(c.objs[o]).value, [], calls);
      assert r.c.objs == c.objs[o := c.objs[o].(destroyed := r.c.objs[o].destroyed)];
    }
  }

  /** Objects nobody holds and whose id is known. */
  function Orphans(c: Client): set<nat> {
    set o | o in c.table && Orphan(c, o)
  }

  lemma OrphansStay(c: Client, d: Client, o: nat)
    requires SameButDestroyed(c.objs, d.objs) && d.table == Retain(c.table, {o})
    ensures Orphans(d) == Orphans(c) - {o}
  {
  }

  lemma {:induction false} CollectOverExact(cat: Catalog, c: Client, todo: seq<nat>, calls: nat)
    ensures var p := CollectOver(cat, c, todo, calls);
      && p.c == c.(objs := p.c.objs, table := Retain(c.table, Orphans(c) * SetOf(todo)))
      && SameButDestroyed(c.objs, p.c.objs)
    decreases |todo|
  {
    var gone := Orphans(c) * SetOf(todo);
    if todo == [] {
      RetainNone(c.table);
      assert gone == {};
    } else {
      var o, rest := todo[0], todo[1..];
      assert todo == [o] + rest;
      if !Orphan(c, o) {
        CollectOverExact(cat, c, rest, calls);
        assert gone == Orphans(c) * SetOf(rest);
      } else {
        var d := Discard(c, o);
        var p := DropHandle(cat, d, o, calls);
        DropFrame(cat, d, o, calls);
        CollectOverExact(cat, p.c, rest, p.calls);
        OrphansStay(c, p.c, o);
        assert {o} + Orphans(p.c) * SetOf(rest) == gone;
        RetainTwice(c.table, {o}, Orphans(p.c) * SetOf(rest));
      }
    }
  }

  /** Collection removes exactly the orphans, keeps the order of the others, parks nothing
      and touches no id; objects without an id always stay. */
  lemma CollectExact(cat: Catalog, c: Client, calls: nat)
    ensures var p := CollectPass(cat, c, calls);
      && p.c == c.(objs := p.c.objs, table := Retain(c.table, Orphans(c)))
      && SameButDestroyed(c.objs, p.c.objs) && Orphans(p.c) == {}
  {
    CollectOverExact(cat, c, c.table, calls);
    assert Orphans(c) * SetOf(c.table) == Orphans(c);
  }

  // ---- what a drop sends -----------------------------------------------------------------------

  /** `m` is the first destructor of the methods that `version` has. */
  ghost predicate FirstFor(ms: seq<Method>, version: nat, m: nat) {
    && m < |ms| && ms[m].destructor && ms[m].since <= version
    && forall j :: 0 <= j < m ==> !(ms[j].destructor && ms[j].since <= version)
  }

  /** The object says goodbye with method `m` when it is dropped: it is undestroyed and has an
      id, and the first destructor of its version takes and returns nothing. */
  ghost predicate Farewell(o: CObj, m: nat) {
    && !o.destroyed && o.id != 0 && FirstFor(o.iface.c2s, o.version, m)
    && o.iface.c2s[m].params == [] && o.iface.c2s[m].creates == []
  }

  lemma {:induction false} FirstDestructorIs(ms: seq<Method>, version: nat, from: nat)
    requires forall j :: 0 <= j < from && j < |ms| ==> !(ms[j].destructor && ms[j].since <= version)
    ensures forall m: nat :: FirstFor(ms, version, m) <==> m < |ms| && FirstDestructor(ms, version, from) == m
    decreases |ms| - from
  {
    if from < |ms| && !(ms[from].destructor && ms[from].since <= version) {
      FirstDestructorIs(ms, version, from + 1);
    }
  }

  lemma AutoDestructorIs(o: CObj)
    ensures forall m: nat :: Farewell(o, m) <==> AutoDestructor(o) == Some(m)
  {
    FirstDestructorIs(o.iface.c2s, o.version, 0);
  }

  /** A dropped handle sends one request, without arguments, if its object says goodbye, and
      the object is destroyed then; otherwise the drop does nothing. */
  lemma DropSays(cat: Catalog, c: Client, o: nat, calls: nat)
    requires o < |c.objs|
    ensures var p := DropHandle(cat, c, o, calls); var obj := c.objs[o];
      && (forall m: nat :: Farewell(obj, m) ==>
            p == Pass(c.(objs := c.objs[o := obj.(destroyed := true)]), [Request(obj.id, m, 0, [], calls)], calls + 1))
      && ((forall m: nat :: !Farewell(obj, m)) ==> p == Pass(c, [], calls))
  {
    AutoDestructorIs(c.objs[o]);
    assert c.table + [] == c.table && c.queue + [] == c.queue;
    forall m: nat | Farewell(c.objs[o], m)
      ensures DropHandle(cat, c, o, calls).c.objs == c.objs[o := c.objs[o].(destroyed := true)]
    {
      assert c.objs[o := c.objs[o].(destroyed := true)] + [] == c.objs[o := c.objs[o].(destroyed := true)];
    }
  }

  /** `said[k]` is the goodbye of the orphan at position `at[k]` of `todo`; no orphan of `todo`
      that says goodbye is missing, and none does so twice. */
  ghost predicate GoodbyesAt(c: Client, todo: seq<nat>, said: seq<CMsg>, calls: nat, at: seq<nat>) {
    && |at| == |said| && Increasing(at)
    && (forall k :: 0 <= k < |at| ==> at[k] < |todo| && IsGoodbye(c, todo[at[k]], said[k], calls + k))
    && (forall i, j :: 0 <= i < j < |at| ==> todo[at[i]] != todo[at[j]])
    && (forall o, m :: o in todo && o in Orphans(c) && Farewell(c.objs[o], m) ==> exists k :: 0 <= k < |at| && todo[at[k]] == o)
  }

  ghost predicate IsGoodbye(c: Client, o: nat, msg: CMsg, call: nat) {
    && o in Orphans(c) && msg.Request? && Farewell(c.objs[o], msg.op)
    && msg == Request(c.objs[o].id, msg.op, 0, [], call)
  }

  /** `said` are the goodbyes of the client's orphans, each once, in table order. */
  ghost predicate Goodbyes(c: Client, said: seq<CMsg>, calls: nat) {
    exists at :: GoodbyesAt(c, c.table, said, calls, at)
  }

  function Later(at: seq<nat>): (r: seq<nat>)
    ensures |r| == |at| && forall k :: 0 <= k < |at| ==> r[k] == at[k] + 1
  {
    seq(|at|, k requires 0 <= k < |at| => at[k] + 1)
  }

  lemma SkipGoodbye(c: Client, todo: seq<nat>, said: seq<CMsg>, calls: nat, at: seq<nat>)
    requires todo != [] && GoodbyesAt(c, todo[1..], said, calls, at)
    requires todo[0] in Orphans(c) ==> forall m: nat :: !Farewell(c.objs[todo[0]], m)
    ensures GoodbyesAt(c, todo, said, calls, Later(at))
  {
    hide Farewell;
    var l := Later(at);
    forall o, m | o in todo && o in Orphans(c) && Farewell(c.objs[o], m)
      ensures exists k :: 0 <= k < |l| && todo[l[k]] == o
    {
      assert o in todo[1..];
      var k :| 0 <= k < |at| && todo[1..][at[k]] == o;
      assert todo[l[k]] == o;
    }
  }

  /** The goodbyes of `d`, which is `c` after orphan `o` has gone, are those of `c` but for `o`. */
  lemma GoodbyesWithout(c: Client, d: Client, o: nat, todo: seq<nat>, said: seq<CMsg>, calls: nat, at: seq<nat>)
    requires GoodbyesAt(d, todo, said, calls, at)
    requires Orphans(d) == Orphans(c) - {o} && |d.objs| == |c.objs|
    requires forall i :: 0 <= i < |c.objs| && i != o ==> d.objs[i] == c.objs[i]
    ensures |at| == |said| && Increasing(at)
    ensures forall k :: 0 <= k < |at| ==> at[k] < |todo| && todo[at[k]] != o && IsGoodbye(c, todo[at[k]], said[k], calls + k)
    ensures forall i, j :: 0 <= i < j < |at| ==> todo[at[i]] != todo[at[j]]
    ensures forall x, m :: x in todo && x != o && x in Orphans(c) && Farewell(c.objs[x], m) ==> exists k :: 0 <= k < |at| && todo[at[k]] == x
  {
    hide Farewell;
    forall k | 0 <= k < |at| ensures at[k] < |todo| && todo[at[k]] != o && IsGoodbye(c, todo[at[k]], said[k], calls + k) {
      assert IsGoodbye(d, todo[at[k]], said[k], calls + k);
      assert todo[at[k]] in Orphans(d);
    }
    forall x, m | x in todo && x != o && x in Orphans(c) && Farewell(c.objs[x], m)
      ensures exists k :: 0 <= k < |at| && todo[at[k]] == x
    {
      assert x in Orphans(d) && Farewell(d.objs[x], m);
    }
  }

  lemma FirstGoodbye(c: Client, d: Client, todo: seq<nat>, first: CMsg, said: seq<CMsg>, calls: nat, at: seq<nat>)
    requires todo != [] && GoodbyesAt(d, todo[1..], said, calls + 1, at)
    requires Orphans(d) == Orphans(c) - {todo[0]} && |d.objs| == |c.objs|
    requires forall i :: 0 <= i < |c.objs| && i != todo[0] ==> d.objs[i] == c.objs[i]
    requires IsGoodbye(c, todo[0], first, calls)
    ensures GoodbyesAt(c, todo, [first] + said, calls, [0] + Later(at))
  {
    hide GoodbyesAt, IsGoodbye, Increasing, Later;
    GoodbyesWithout(c, d, todo[0], todo[1..], said, calls + 1, at);
    PositionsJoin(todo, at);
    MessagesJoin(c, todo, first, said, calls, at);
    AllJoin(c, todo, at);
    JoinedGoodbyes(c, todo, [first] + said, calls, [0] + Later(at));
  }

  lemma JoinedGoodbyes(c: Client, todo: seq<nat>, said: seq<CMsg>, calls: nat, at: seq<nat>)
    requires |at| == |said| && Increasing(at)
    requires forall k :: 0 <= k < |at| ==> at[k] < |todo| && IsGoodbye(c, todo[at[k]], said[k], calls + k)
    requires forall i, j :: 0 <= i < j < |at| ==> todo[at[i]] != todo[at[j]]
    requires forall o, m :: o in todo && o in Orphans(c) && Farewell(c.objs[o], m) ==> exists k :: 0 <= k < |at| && todo[at[k]] == o
    ensures GoodbyesAt(c, todo, said, calls, at)
  {
    hide IsGoodbye, Farewell, Increasing;
  }

  lemma PositionsJoin(todo: seq<nat>, at: seq<nat>)
    requires todo != [] && Increasing(at)
    requires forall k :: 0 <= k < |at| ==> at[k] < |todo[1..]| && todo[1..][at[k]] != todo[0]
    requires forall i, j :: 0 <= i < j < |at| ==> todo[1..][at[i]] != todo[1..][at[j]]
    ensures var l := [0] + Later(at);
      && |l| == |at| + 1 && Increasing(l) && (forall k :: 0 <= k < |l| ==> l[k] < |todo|)
      && forall i, j :: 0 <= i < j < |l| ==> todo[l[i]] != todo[l[j]]
  {
    var l := [0] + Later(at);
    assert forall k :: 0 < k < |l| ==> l[k] == at[k - 1] + 1 && todo[l[k]] == todo[1..][at[k - 1]];
  }

  lemma MessagesJoin(c: Client, todo: seq<nat>, first: CMsg, said: seq<CMsg>, calls: nat, at: seq<nat>)
    requires todo != [] && |at| == |said| && IsGoodbye(c, todo[0], first, calls)
    requires forall k :: 0 <= k < |at| ==> at[k] < |todo[1..]| && IsGoodbye(c, todo[1..][at[k]], said[k], calls + 1 + k)
    ensures var l, s := [0] + Later(at), [first] + said;
      forall k :: 0 <= k < |l| ==> l[k] < |todo| && IsGoodbye(c, todo[l[k]], s[k], calls + k)
  {
    hide IsGoodbye;
    var l, s := [0] + Later(at), [first] + said;
    forall k | 0 <= k < |l| ensures l[k] < |todo| && IsGoodbye(c, todo[l[k]], s[k], calls + k) {
      if k > 0 {
        assert l[k] == at[k - 1] + 1 && s[k] == said[k - 1];
        assert IsGoodbye(c, todo[1..][at[k - 1]], said[k - 1], calls + 1 + (k - 1));
      }
    }
  }

  lemma AllJoin(c: Client, todo: seq<nat>, at: seq<nat>)
    requires todo != [] && forall k :: 0 <= k < |at| ==> at[k] < |todo[1..]|
    requires forall x, m :: x in todo[1..] && x != todo[0] && x in Orphans(c) && Farewell(c.objs[x], m) ==>
               exists k :: 0 <= k < |at| && todo[1..][at[k]] == x
    ensures var l := [0] + Later(at);
      && (forall k :: 0 <= k < |l| ==> l[k] < |todo|)
      && forall o, m :: o in todo && o in Orphans(c) && Farewell(c.objs[o], m) ==> exists k :: 0 <= k < |l| && todo[l[k]] == o
  {
    hide Farewell;
    var l := [0] + Later(at);
    assert forall k :: 0 < k < |l| ==> l[k] == at[k - 1] + 1;
    forall o, m | o in todo && o in Orphans(c) && Farewell(c.objs[o], m)
      ensures exists k :: 0 <= k < |l| && todo[l[k]] == o
    {
      if o == todo[0] {
        assert todo[l[0]] == o;
      } else {
        assert o in todo[1..];
        var k :| 0 <= k < |at| && todo[1..][at[k]] == o;
        assert todo[l[k + 1]] == o;
      }
    }
  }

  lemma {:induction false} CollectOverSays(cat: Catalog, c: Client, todo: seq<nat>, calls: nat) returns (at: seq<nat>)
    ensures GoodbyesAt(c, todo, CollectOver(cat, c, todo, calls).out, calls, at)
    decreases |todo|
  {
    hide GoodbyesAt, Farewell;
    if todo == [] {
      at := [];
      NoGoodbyes(c, calls);
    } else if !Orphan(c, todo[0]) {
      var rest := CollectOverSays(cat, c, todo[1..], calls);
      SkipGoodbye(c, todo, CollectOver(cat, c, todo[1..], calls).out, calls, rest);
      at := Later(rest);
    } else {
      var o := todo[0];
      var d := Discard(c, o);
      var p := DropHandle(cat, d, o, calls);
      DropSays(cat, d, o, calls);
      DropFrame(cat, d, o, calls);
      OrphansStay(c, p.c, o);
      var rest := CollectOverSays(cat, p.c, todo[1..], p.calls);
      var said := CollectOver(cat, p.c, todo[1..], p.calls).out;
      if m: nat :| Farewell(c.objs[o], m) {
        FirstGoodbye(c, p.c, todo, p.out[0], said, calls, rest);
        at := [0] + Later(rest);
      } else {
        QuietDrop(c, p.c, todo, said, calls, rest);
        assert [] + said == said;
        at := Later(rest);
      }
    }
  }

  lemma NoGoodbyes(c: Client, calls: nat)
    ensures GoodbyesAt(c, [], [], calls, [])
  {
  }

  lemma QuietDrop(c: Client, d: Client, todo: seq<nat>, said: seq<CMsg>, calls: nat, at: seq<nat>)
    requires todo != [] && GoodbyesAt(d, todo[1..], said, calls, at) && d.objs == c.objs
    requires Orphans(d) == Orphans(c) - {todo[0]} && todo[0] in Orphans(c)
    requires forall m: nat :: !Farewell(c.objs[todo[0]], m)
    ensures GoodbyesAt(c, todo, said, calls, Later(at))
  {
    hide Farewell;
    GoodbyesWithout(c, d, todo[0], todo[1..], said, calls, at);
    assert GoodbyesAt(c, todo[1..], said, calls, at);
    SkipGoodbye(c, todo, said, calls, at);
  }

  /** Collection sends exactly the goodbyes of the orphans it finds: for each orphan whose
      first destructor takes and returns nothing one request of it, in table order. */
  lemma CollectSays(cat: Catalog, c: Client, calls: nat) returns (at: seq<nat>)
    ensures GoodbyesAt(c, c.table, CollectPass(cat, c, calls).out, calls, at)
    ensures Goodbyes(c, CollectPass(cat, c, calls).out, calls)
  {
    at := CollectOverSays(cat, c, c.table, calls);
  }

  /** Releasing the last handle of an object sends its goodbye at once if the object is off the
      table; an object in the table is left to the next collection. */
  lemma ReleaseSays(cat: Catalog, y: Sys, o: nat)
    requires Enabled(cat, y, AppRelease(o))
    ensures var z := Apply(cat, y, AppRelease(o)); var obj := y.c.objs[o].(held := false);
      && (o in y.c.table || (forall m: nat :: !Farewell(obj, m)) ==>
            z == y.(c := y.c.(objs := y.c.objs[o := obj])))
      && forall m: nat :: o !in y.c.table && Farewell(obj, m) ==>
           z.c2s == y.c2s + [Request(obj.id, m, 0, [], |y.calls|)]
           && z.c == y.c.(objs := y.c.objs[o := obj.(destroyed := true)])
  {
    var y1 := y.(c := y.c.(objs := y.c.objs[o := y.c.objs[o].(held := false)]));
    AutoDestructorIs(y1.c.objs[o]);
    DropSays(cat, y1.c, o, |y.calls|);
  }

  // ---- both are runs ---------------------------------------------------------------------------

  /** The client did this much and nothing else happened. */
  ghost predicate ClientDid(y: Sys, z: Sys, c: Client, out: seq<CMsg>) {
    && z.c == c && z.c2s == y.c2s + out
    && z.s == y.s && z.s2c == y.s2c && z.cRead == y.cRead && z.sRead == y.sRead
  }

  lemma FlushOneStep(cat: Catalog, y: Sys)
    requires Enabled(cat, y, ClientFlushOne)
    ensures ClientDid(y, Apply(cat, y, ClientFlushOne), FlushOne(y.c).c, FlushOne(y.c).out)
    ensures FlushOne(y.c).c.phase == y.c.phase && |Apply(cat, y, ClientFlushOne).calls| == |y.calls|
  {
  }

  lemma DidTwice(y: Sys, m: Sys, z: Sys, c: Client, d: Client, out: seq<CMsg>, more: seq<CMsg>)
    requires ClientDid(y, m, c, out) && ClientDid(m, z, d, more)
    ensures ClientDid(y, z, d, out + more)
  {
    assert y.c2s + (out + more) == y.c2s + out + more;
  }

  lemma {:induction false} FlushAllRuns(cat: Catalog, y: Sys) returns (steps: seq<Step>, z: Sys)
    requires y.c.phase.Flushing?
    ensures Run(cat, y, steps, z)
    ensures ClientDid(y, z, FlushAll(y.c).c, FlushAll(y.c).out) && z.c.phase.Flushing? && z.c.pending == [] && |z.calls| == |y.calls|
    decreases |y.c.pending|
  {
    if y.c.pending == [] {
      steps, z := [], y;
      assert y.c2s + [] == y.c2s;
    } else {
      var m := Apply(cat, y, ClientFlushOne);
      FlushOneStep(cat, y);
      var rest;
      rest, z := FlushAllRuns(cat, m);
      RunCons(cat, y, ClientFlushOne, rest, z);
      DidTwice(y, m, z, m.c, z.c, FlushOne(y.c).out, FlushAll(m.c).out);
      steps := [ClientFlushOne] + rest;
    }
  }

  /** The flush of a dispatch is a run of the composed system. */
  lemma FlushPassRuns(cat: Catalog, y: Sys) returns (steps: seq<Step>, z: Sys)
    requires y.c.phase.Handling?
    ensures Run(cat, y, steps, z) && ClientDid(y, z, FlushPass(y.c).c, FlushPass(y.c).out) && |z.calls| == |y.calls|
  {
    var a := Apply(cat, y, ClientStartFlush);
    var mid, b := FlushAllRuns(cat, a);
    z := Apply(cat, b, ClientFinishFlush);
    assert Run(cat, z, [], z);
    RunCons(cat, b, ClientFinishFlush, [], z);
    RunJoin(cat, a, mid, b, [ClientFinishFlush] + [], z);
    steps := mid + ([ClientFinishFlush] + []);
    RunCons(cat, y, ClientStartFlush, steps, z);
    steps := [ClientStartFlush] + steps;
  }

  lemma CollectStep(cat: Catalog, y: Sys, o: nat)
    requires Enabled(cat, y, ClientCollect(o))
    ensures var p := DropHandle(cat, Discard(y.c, o), o, |y.calls|); var z := Apply(cat, y, ClientCollect(o));
      ClientDid(y, z, p.c, p.out) && |z.calls| == p.calls && z.c.phase == y.c.phase
  {
    assert y.c2s + [] == y.c2s;
  }

  lemma {:induction false} CollectOverRuns(cat: Catalog, y: Sys, todo: seq<nat>) returns (steps: seq<Step>, z: Sys)
    requires y.c.phase.Idle?
    ensures var p := CollectOver(cat, y.c, todo, |y.calls|);
      Run(cat, y, steps, z) && ClientDid(y, z, p.c, p.out) && |z.calls| == p.calls
    decreases |todo|
  {
    if todo == [] {
      steps, z := [], y;
      assert y.c2s + [] == y.c2s;
    } else if !Orphan(y.c, todo[0]) {
      steps, z := CollectOverRuns(cat, y, todo[1..]);
    } else {
      var step := ClientCollect(todo[0]);
      var m := Apply(cat, y, step);
      CollectStep(cat, y, todo[0]);
      var p := DropHandle(cat, Discard(y.c, todo[0]), todo[0], |y.calls|);
      var rest;
      rest, z := CollectOverRuns(cat, m, todo[1..]);
      RunCons(cat, y, step, rest, z);
      DidTwice(y, m, z, m.c, z.c, p.out, CollectOver(cat, p.c, todo[1..], p.calls).out);
      steps := [step] + rest;
    }
  }

  /** So is each orphan collection. */
  lemma CollectPassRuns(cat: Catalog, y: Sys) returns (steps: seq<Step>, z: Sys)
    requires y.c.phase.Idle?
    ensures var p := CollectPass(cat, y.c, |y.calls|); Run(cat, y, steps, z) && ClientDid(y, z, p.c, p.out) && |z.calls| == p.calls
  {
    steps, z := CollectOverRuns(cat, y, y.c.table);
  }
}
