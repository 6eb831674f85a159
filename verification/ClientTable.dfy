// The server's client table and its poller registrations: bind, detached, accept_one,
// dispatch_pending, add_client and remove_client of hyprwire/src/server/server_socket.rs.
module ClientTable {
  import opened Types

  const LISTENER_KEY: nat := 0

  /** `poller` maps each registered key to whether it is armed: interest is one-shot, so a
      key that was reported stays silent until it is modified. */
  datatype Table = Table(listening: bool, clients: seq<nat>, next: nat, poller: map<nat, bool>)

  ghost predicate Valid(t: Table) {
    && t.next >= 1 && Increasing(t.clients)
    && (forall id :: id in t.clients ==> 1 <= id < t.next)
    && t.poller.Keys == (if t.listening then {LISTENER_KEY} else {}) + (set id | id in t.clients)
  }

  ghost predicate AllArmed(t: Table) {
    forall key :: key in t.poller ==> t.poller[key]
  }

  function Start(listening: bool): Table {
    Table(listening, [], 1, if listening then map[LISTENER_KEY := true] else map[])
  }

  function Add(t: Table): Table {
    t.(clients := t.clients + [t.next], next := t.next + 1, poller := t.poller[t.next := true])
  }

  function Remove(t: Table, id: nat): Table {
    if id in t.clients then t.(clients := Retain(t.clients, {id}), poller := t.poller - {id}) else t
  }

  /** One round of `dispatch_pending`: `events` are the keys reported, `failed` the clients
      whose dispatch leaves their error flag set, `accepted` whether accept succeeds.
      Failed clients are gone, everything else that was reported is armed again, and a new
      client enters with the next id. */
  function Round(t: Table, events: set<nat>, failed: set<nat>, accepted: bool): Table {
    var dead := (events - {LISTENER_KEY}) * failed;
    var after := if t.listening && LISTENER_KEY in events && accepted then Add(t) else t;
    after.(clients := Retain(after.clients, dead),
           poller := map key | key in after.poller && key !in dead :: key in events || after.poller[key])
  }

  /** What `wait` may report: registered, armed keys. */
  predicate Reported(t: Table, events: set<nat>) {
    forall key :: key in events ==> key in t.poller && t.poller[key]
  }

  class ServerSocket {
    const listening: bool
    var clients: seq<nat>
    var nextClientId: nat
    var poller: map<nat, bool>

    function View(): Table
      reads this
    {
      Table(listening, clients, nextClientId, poller)
    }

    /** `bind` (with a listener) and `detached` (without). */
    constructor (listening: bool)
      ensures View() == Start(listening)
    {
      this.listening := listening;
      clients, nextClientId := [], 1;
      poller := if listening then map[LISTENER_KEY := true] else map[];
    }

    method AddClient() returns (id: nat)
      modifies this
      ensures View() == Add(old(View())) && id == old(nextClientId)
      ensures clients == old(clients) + [id] && nextClientId == id + 1 && poller == old(poller)[id := true]
    {
      id := nextClientId;
      poller := poller[id := true];
      nextClientId := nextClientId + 1;
      clients := clients + [id];
    }

    method AcceptOne(accepted: bool) returns (any: bool)
      modifies this
      ensures any == (listening && accepted)
      ensures View() == if any then Add(old(View())) else old(View())
      ensures any ==> clients == old(clients) + [old(nextClientId)] && old(nextClientId) in poller && poller[old(nextClientId)]
    {
      if !listening || !accepted { return false; }
      var _ := AddClient();
      return true;
    }

    method RemoveClient(id: nat) returns (found: bool)
      requires Valid(View())
      modifies this
      ensures found == (id in old(clients)) && View() == Remove(old(View()), id)
      ensures Increasing(clients) && forall c :: c in clients <==> c in old(clients) && c != id
      ensures nextClientId == old(nextClientId) && poller == if found then old(poller) - {id} else old(poller)
    {
      RetainIncreasing(clients, {id});
      if id in clients { poller := poller - {id}; }
      var before := |clients|;
      ghost var was := clients;
      clients := Retain(clients, {id});
      RetainShorter(was, id);
      found := |clients| < before;
    }

    /** The events loop's turn for one reported key; `fails` is the client's error flag
        after its dispatch. */
    method OnEvent(key: nat, fails: bool, accepted: bool) returns (dead: bool)
      requires key in poller && (key == LISTENER_KEY <==> key !in clients) && (key == LISTENER_KEY ==> listening)
      requires nextClientId !in poller
      modifies this
      ensures dead == (key != LISTENER_KEY && fails)
      ensures var t := if key == LISTENER_KEY && accepted then Add(old(View())) else old(View());
        View() == if dead then t else t.(poller := t.poller[key := true])
    {
      dead := false;
      if key == LISTENER_KEY {
        var any := AcceptOne(accepted);
        if listening { poller := poller[LISTENER_KEY := true]; }
        return;
      }
      if key !in clients { return; }
      if fails { dead := true; } else { poller := poller[key := true]; }
    }

    /** The loop over the clients found dead. */
    method Bury(dead: seq<nat>)
      modifies this
      ensures View() == old(View()).(clients := Retain(old(clients), Keys(dead)), poller := old(poller) - Keys(dead))
    {
      ghost var gone: set<nat> := {};
      RetainNone(clients);
      for n := 0 to |dead|
        invariant gone == Keys(dead[..n])
        invariant View() == old(View()).(clients := Retain(old(clients), gone), poller := old(poller) - gone)
      {
        RetainTwice(old(clients), gone, {dead[n]});
        clients := Retain(clients, {dead[n]});
        poller := poller - {dead[n]};
        gone := gone + {dead[n]};
        assert dead[..n + 1] == dead[..n] + [dead[n]];
      }
      assert dead[..|dead|] == dead;
    }

    /** The loop over the reported keys, all disarmed by `wait`. */
    method HandleEvents(events: seq<nat>, failed: set<nat>, accepted: bool, ghost t0: Table) returns (dead: seq<nat>)
      requires Valid(t0) && Reported(t0, Keys(events)) && View() == Midway(t0, Keys(events), {}, failed, accepted)
      requires forall i, j :: 0 <= i < j < |events| ==> events[i] != events[j]
      modifies this
      ensures View() == Midway(t0, Keys(events), Keys(events), failed, accepted)
      ensures Keys(dead) == (Keys(events) - {LISTENER_KEY}) * failed
    {
      dead := [];
      for n := 0 to |events|
        invariant View() == Midway(t0, Keys(events), Keys(events[..n]), failed, accepted)
        invariant Keys(dead) == (Keys(events[..n]) - {LISTENER_KEY}) * failed
      {
        var key := events[n];
        Next(events, n);
        MidwayStep(t0, Keys(events), Keys(events[..n]), key, failed, accepted);
        var fails := OnEvent(key, key in failed, accepted);
        DeadStep(dead, Keys(events[..n]), key, failed);
        if fails { dead := dead + [key]; }
      }
      assert events[..|events|] == events;
    }

    /** `dispatch_pending`. */
    method DispatchPending(events: seq<nat>, failed: set<nat>, accepted: bool)
      requires Valid(View()) && Reported(View(), Keys(events))
      requires forall i, j :: 0 <= i < j < |events| ==> events[i] != events[j]
      modifies this
      ensures View() == Round(old(View()), Keys(events), failed, accepted)
      ensures AfterRound(old(View()), View(), events, failed, accepted)
    {
      hide AfterRound, Round, Midway, Reported;
      ghost var t0 := View();
      poller := map key | key in poller :: key !in events && poller[key];
      NothingRearmed(t0, events, failed, accepted);
      var dead := HandleEvents(events, failed, accepted, t0);
      MidwayDone(t0, Keys(events), failed, accepted);
      Bury(dead);
      RoundSays(t0, events, failed, accepted);
    }
  }

  /** A round, client by client and key by key: the reported clients that failed are gone from
      table and poller, everyone else is still there in order, at most one new client has
      entered under the next id, and everything reported or new is armed. */
  ghost predicate AfterRound(t: Table, z: Table, events: seq<nat>, failed: set<nat>, accepted: bool) {
    var any := t.listening && LISTENER_KEY in events && accepted;
    && z.listening == t.listening && z.next == t.next + (if any then 1 else 0) && Increasing(z.clients)
    && (forall id :: id in z.clients <==>
          (id in t.clients && !(id in events && id in failed)) || (any && id == t.next))
    && (forall key :: key in z.poller <==>
          (key in t.poller && !(key in t.clients && key in events && key in failed)) || (any && key == t.next))
    && forall key :: key in z.poller ==> z.poller[key] == (key in events || key !in t.poller || t.poller[key])
  }

  lemma RoundSays(t: Table, events: seq<nat>, failed: set<nat>, accepted: bool)
    requires Valid(t) && Reported(t, Keys(events))
    ensures AfterRound(t, Round(t, Keys(events), failed, accepted), events, failed, accepted)
  {
    var dead := (Keys(events) - {LISTENER_KEY}) * failed;
    var after := if t.listening && LISTENER_KEY in events && accepted then Add(t) else t;
    PushIncreasing(t.clients, t.next);
    RetainIncreasing(after.clients, dead);
  }

  /** What `wait` reports it disarms. */
  lemma NothingRearmed(t: Table, events: seq<nat>, failed: set<nat>, accepted: bool)
    ensures Midway(t, Keys(events), {}, failed, accepted) ==
            t.(poller := map key | key in t.poller :: key !in events && t.poller[key])
  {
    assert Midway(t, Keys(events), {}, failed, accepted).poller ==
           map key | key in t.poller :: key !in events && t.poller[key];
  }

  lemma DeadStep(dead: seq<nat>, done: set<nat>, key: nat, failed: set<nat>)
    requires Keys(dead) == (done - {LISTENER_KEY}) * failed
    ensures var d := if key != LISTENER_KEY && key in failed then dead + [key] else dead;
      Keys(d) == (done + {key} - {LISTENER_KEY}) * failed
  {
    assert Keys(dead + [key]) == Keys(dead) + {key} by {
      forall x | x in Keys(dead) ensures x in Keys(dead + [key]) { assert x in dead + [key]; }
    }
  }

  lemma Next(events: seq<nat>, n: nat)
    requires n < |events| && forall i, j :: 0 <= i < j < |events| ==> events[i] != events[j]
    ensures events[n] in Keys(events) && events[n] !in Keys(events[..n]) && Keys(events[..n]) <= Keys(events)
    ensures Keys(events[..n + 1]) == Keys(events[..n]) + {events[n]}
  {
    assert events[..n + 1] == events[..n] + [events[n]];
  }

  function Keys(events: seq<nat>): set<nat> {
    set k | k in events
  }

  /** Registrations `p` once the events in `done` of those reported have been handled. */
  function Rearmed(p: map<nat, bool>, keys: set<nat>, done: set<nat>, failed: set<nat>): map<nat, bool> {
    map key | key in p :: if key in keys then key in done && (key == LISTENER_KEY || key !in failed) else p[key]
  }

  lemma RearmedStep(p: map<nat, bool>, keys: set<nat>, done: set<nat>, key: nat, failed: set<nat>)
    requires key in p && key in keys - done
    ensures Rearmed(p, keys, done + {key}, failed) ==
            if key != LISTENER_KEY && key in failed then Rearmed(p, keys, done, failed)
            else Rearmed(p, keys, done, failed)[key := true]
  {
  }

  /** The table once the events in `done` of those reported have been handled. */
  function Midway(t: Table, keys: set<nat>, done: set<nat>, failed: set<nat>, accepted: bool): Table {
    var after := if LISTENER_KEY in done && accepted then Add(t) else t;
    after.(poller := Rearmed(after.poller, keys, done, failed))
  }

  lemma MidwayListener(t: Table, keys: set<nat>, done: set<nat>, failed: set<nat>, accepted: bool)
    requires Valid(t) && Reported(t, keys) && done <= keys && LISTENER_KEY in keys - done
    ensures var m := Midway(t, keys, done, failed, accepted);
      && LISTENER_KEY in m.poller && LISTENER_KEY !in m.clients && t.listening && m.next !in m.poller
      && (var m1 := if accepted then Add(m) else m;
          Midway(t, keys, done + {LISTENER_KEY}, failed, accepted) == m1.(poller := m1.poller[LISTENER_KEY := true]))
  {
    var m := Midway(t, keys, done, failed, accepted);
    var m1 := if accepted then Add(m) else m;
    assert t.next !in keys;
    assert Midway(t, keys, done + {LISTENER_KEY}, failed, accepted).poller == m1.poller[LISTENER_KEY := true];
  }

  lemma MidwayClient(t: Table, keys: set<nat>, done: set<nat>, key: nat, failed: set<nat>, accepted: bool)
    requires Valid(t) && Reported(t, keys) && done <= keys && key in keys - done && key != LISTENER_KEY
    ensures var m := Midway(t, keys, done, failed, accepted);
      && key in m.poller && key in m.clients && m.next !in m.poller
      && Midway(t, keys, done + {key}, failed, accepted) ==
         if key in failed then m else m.(poller := m.poller[key := true])
  {
    var m := Midway(t, keys, done, failed, accepted);
    assert key in t.clients && t.next !in keys;
    RearmedStep(if LISTENER_KEY in done && accepted then Add(t).poller else t.poller, keys, done, key, failed);
  }

  lemma MidwayStep(t: Table, keys: set<nat>, done: set<nat>, key: nat, failed: set<nat>, accepted: bool)
    requires Valid(t) && Reported(t, keys) && done <= keys && key in keys - done
    ensures var m := Midway(t, keys, done, failed, accepted);
      && key in m.poller && (key == LISTENER_KEY <==> key !in m.clients) && (key == LISTENER_KEY ==> t.listening)
      && m.next !in m.poller
      && (var m1 := if key == LISTENER_KEY && accepted then Add(m) else m;
          Midway(t, keys, done + {key}, failed, accepted) ==
          if key != LISTENER_KEY && key in failed then m1 else m1.(poller := m1.poller[key := true]))
  {
    if key == LISTENER_KEY {
      MidwayListener(t, keys, done, failed, accepted);
    } else {
      MidwayClient(t, keys, done, key, failed, accepted);
    }
  }

  lemma MidwayDone(t: Table, keys: set<nat>, failed: set<nat>, accepted: bool)
    requires Valid(t) && Reported(t, keys)
    ensures var m := Midway(t, keys, keys, failed, accepted); var dead := (keys - {LISTENER_KEY}) * failed;
      Round(t, keys, failed, accepted) == m.(clients := Retain(m.clients, dead), poller := m.poller - dead)
  {
    var m := Midway(t, keys, keys, failed, accepted);
    var dead := (keys - {LISTENER_KEY}) * failed;
    assert Round(t, keys, failed, accepted).poller == m.poller - dead;
  }

  lemma {:induction false} RetainShorter(t: seq<nat>, id: nat)
    ensures |Retain(t, {id})| < |t| <==> id in t
    ensures id !in t ==> Retain(t, {id}) == t
  {
    if t != [] { RetainShorter(t[1..], id); }
  }

  // ---- whole runs ----------------------------------------------------------------------------

  datatype Op = AddOp | RemoveOp(id: nat) | RoundOp(events: set<nat>, failed: set<nat>, accepted: bool)

  predicate Possible(t: Table, op: Op) {
    op.RoundOp? ==> Reported(t, op.events)
  }

  function Do(t: Table, op: Op): Table {
    match op
    case AddOp => Add(t)
    case RemoveOp(id) => Remove(t, id)
    case RoundOp(events, failed, accepted) => Round(t, events, failed, accepted)
  }

  ghost predicate Runs(t: Table, ops: seq<Op>, z: Table)
    decreases |ops|
  {
    if ops == [] then z == t else Possible(t, ops[0]) && Runs(Do(t, ops[0]), ops[1..], z)
  }

  /** Ids handed out along a run, in order. */
  function Issued(t: Table, ops: seq<Op>): seq<nat>
    decreases |ops|
  {
    if ops == [] then []
    else (if Do(t, ops[0]).next > t.next then [t.next] else []) + Issued(Do(t, ops[0]), ops[1..])
  }

  lemma AddKeeps(t: Table)
    requires Valid(t) && AllArmed(t)
    ensures Valid(Add(t)) && AllArmed(Add(t))
  {
    PushIncreasing(t.clients, t.next);
  }

  lemma RemoveKeeps(t: Table, id: nat)
    requires Valid(t) && AllArmed(t)
    ensures Valid(Remove(t, id)) && AllArmed(Remove(t, id))
  {
    RetainIncreasing(t.clients, {id});
  }

  lemma RoundKeeps(t: Table, events: set<nat>, failed: set<nat>, accepted: bool)
    requires Valid(t) && AllArmed(t) && Reported(t, events)
    ensures Valid(Round(t, events, failed, accepted)) && AllArmed(Round(t, events, failed, accepted))
  {
    var dead := (events - {LISTENER_KEY}) * failed;
    var after := if t.listening && LISTENER_KEY in events && accepted then Add(t) else t;
    AddKeeps(t);
    RetainIncreasing(after.clients, dead);
    var r := Round(t, events, failed, accepted);
    assert r.poller.Keys == after.poller.Keys - dead;
    assert LISTENER_KEY !in dead;
  }

  lemma OpKeeps(t: Table, op: Op)
    requires Valid(t) && AllArmed(t) && Possible(t, op)
    ensures Valid(Do(t, op)) && AllArmed(Do(t, op)) && t.next <= Do(t, op).next <= t.next + 1
    ensures forall id :: id in Do(t, op).clients ==> id in t.clients || id == t.next < Do(t, op).next
  {
    match op
    case AddOp => AddKeeps(t);
    case RemoveOp(id) => RemoveKeeps(t, id);
    case RoundOp(events, failed, accepted) => RoundKeeps(t, events, failed, accepted);
  }

  /** Over any sequence of accepting, adding, dispatching and removing: the registrations
      are the listener (if any) and the table's clients, all armed between rounds; ids are
      issued in strictly increasing order from `t.next` on, so none is ever reused or the
      listener's key; and only issued ids enter the table. */
  lemma {:induction false} RunKeepsTable(t: Table, ops: seq<Op>, z: Table)
    requires Valid(t) && AllArmed(t) && Runs(t, ops, z)
    ensures Valid(z) && AllArmed(z)
    ensures Increasing(Issued(t, ops)) && forall id :: id in Issued(t, ops) ==> t.next <= id < z.next
    ensures t.next <= z.next && forall id :: id in z.clients ==> id in t.clients || id in Issued(t, ops)
    decreases |ops|
  {
    if ops != [] {
      var u := Do(t, ops[0]);
      OpKeeps(t, ops[0]);
      RunKeepsTable(u, ops[1..], z);
      var rest := Issued(u, ops[1..]);
      if u.next > t.next {
        forall j | 0 <= j < |rest| ensures t.next < rest[j] { assert rest[j] in rest; }
      }
    }
  }

  /** From a new server on. */
  lemma ServerTable(listening: bool, ops: seq<Op>, z: Table)
    requires Runs(Start(listening), ops, z)
    ensures Valid(z) && AllArmed(z) && Increasing(Issued(Start(listening), ops))
    ensures LISTENER_KEY !in Issued(Start(listening), ops) && LISTENER_KEY !in z.clients
  {
    RunKeepsTable(Start(listening), ops, z);
  }
}
