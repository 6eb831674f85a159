// The codec under the protocol: whatever either endpoint of a reachable connection has
// sent, written as bytes with the sender's method descriptions, is split and decoded into
// the same messages by the receiver, who only has its own.
module Delivery {
  import opened Types
  import opened ClientModel
  import opened ServerModel
  import opened System
  import opened Invariant
  import opened Protocol
  import opened Framing
  import opened Wire

  function ParamsAt(ms: seq<Method>, m: nat): seq<ArgType> {
    if m < |ms| then ms[m].params else []
  }

  /** The parameter types the client encoded a message with: those of the method of the
      object the call was made on. */
  function ClientTypes(y: Sys, m: CMsg): seq<ArgType> {
    if m.Request? && m.call < |y.calls| && y.calls[m.call].on < |y.c.objs| then
      ParamsAt(y.c.objs[y.calls[m.call].on].iface.c2s, m.op)
    else []
  }

  /** The types the server decodes it with: those of the object the request names. */
  function ServerTypes(y: Sys, m: CMsg): seq<ArgType> {
    if m.Request? && 1 <= m.target <= |y.s.objs| && y.s.objs[m.target - 1].iface.Some? then
      ParamsAt(y.s.objs[m.target - 1].iface.value.c2s, m.op)
    else []
  }

  function EventSentTypes(y: Sys, m: SMsg): seq<ArgType> {
    if m.Event? && 1 <= m.source <= |y.s.objs| && y.s.objs[m.source - 1].iface.Some? then
      ParamsAt(y.s.objs[m.source - 1].iface.value.s2c, m.event)
    else []
  }

  function EventReadTypes(y: Sys, m: SMsg, i: nat): seq<ArgType> {
    if m.Event? && i < |y.c.objs| then ParamsAt(y.c.objs[i].iface.s2c, m.event) else []
  }

  /** Both ends read a request with the same parameter types, and agree on whether it
      carries the sequence number of a returned object. */
  lemma RequestTypesAgree(cat: Catalog, impls: set<Name>, y: Sys, p: nat)
    requires Reachable(cat, impls, y) && p < |y.c2s|
    ensures ClientTypes(y, y.c2s[p]) == ServerTypes(y, y.c2s[p])
    ensures y.c2s[p].Request? ==>
      var m := y.c2s[p];
      && 1 <= m.target <= |y.s.objs|
      && var so := y.s.objs[m.target - 1];
      && so.iface.Some? && m.op < |so.iface.value.c2s| && (m.ret != 0 <==> so.iface.value.c2s[m.op].creates != [])
  {
    hide Delivered, QueueIs, Kept, ServerHello, ClientHello, RequestsOk, AcksOk;
    if y.c2s[p].Request? {
      var m := y.c2s[p];
      Addressing(cat, impls, y, p);
      Agreement(cat, impls, y, y.calls[m.call].on);
      ReachableInv(cat, impls, y);
      assert CallOk(y, m.call);
    }
  }

  lemma EventTypesAgree(cat: Catalog, impls: set<Name>, y: Sys, p: nat, i: nat)
    requires Reachable(cat, impls, y) && p < |y.s2c| && y.s2c[p].Event?
    requires i < |y.c.objs| && y.c.objs[i].id == y.s2c[p].source
    ensures EventSentTypes(y, y.s2c[p]) == EventReadTypes(y, y.s2c[p], i)
  {
    ReachableInv(cat, impls, y);
    assert SMsgOk(y, p);
    Agreement(cat, impls, y, i);
  }

  function ClientBatch(y: Sys, lo: nat, hi: nat): (ms: seq<Outgoing<CMsg>>)
    requires lo <= hi <= |y.c2s|
    ensures |ms| == hi - lo
  {
    seq(hi - lo, k requires 0 <= k < hi - lo => Outgoing(y.c2s[lo + k], ClientTypes(y, y.c2s[lo + k]), 0, []))
  }

  /** The server handled the messages of the stretch in order, decoding with its own types, up
      to the first one the model's server gives up over; it failed exactly if there is one. */
  ghost predicate ServerReads(y: Sys, lo: nat, hi: nat, h: Outcome)
    requires lo <= hi <= |y.c2s|
  {
    && |h.handled| <= hi - lo && (h.error == None <==> |h.handled| == hi - lo)
    && (|h.handled| < hi - lo ==> Unparsable(y.c2s[lo + |h.handled|]))
    && forall k: nat :: k < |h.handled| ==> ServerReadsOne(y, y.c2s[lo + k], h.handled[k])
  }

  ghost predicate ServerReadsOne(y: Sys, m: CMsg, msg: Msg) {
    !Unparsable(m) && ClientMeant(msg, m, ServerTypes(y, m))
  }

  /** In every reachable state, any stretch of what the client sent, if its values have their
      Rust types, is handled by the server as those messages in order, up to the first one it
      refuses: bytes are encoded with the client's descriptions, fds taken in order, and
      requests decoded with the server's. */
  lemma ClientStretchDelivered(cat: Catalog, impls: set<Name>, y: Sys, lo: nat, hi: nat)
    requires Reachable(cat, impls, y) && lo <= hi <= |y.c2s|
    requires forall p: nat :: lo <= p < hi ==> ClientTyped(y.c2s[p], ClientTypes(y, y.c2s[p]))
    ensures ClientStream(ClientBatch(y, lo, hi)).Done?
    ensures var e := ClientStream(ClientBatch(y, lo, hi));
      ServerReads(y, lo, hi, HandleFrom(ServerSide, e.data, e.fds, 0))
  {
    var ms := ClientBatch(y, lo, hi);
    ClientStreams(ms);
    var e := ClientStream(ms);
    ClientBatchArrives(ms, e.data, 0);
    RequestsRead(cat, impls, y, lo, hi, HandleFrom(ServerSide, e.data, e.fds, 0));
  }

  lemma RequestsRead(cat: Catalog, impls: set<Name>, y: Sys, lo: nat, hi: nat, h: Outcome)
    requires Reachable(cat, impls, y) && lo <= hi <= |y.c2s| && ClientHandled(ClientBatch(y, lo, hi), h)
    ensures ServerReads(y, lo, hi, h)
  {
    var ms := ClientBatch(y, lo, hi);
    forall k: nat | k < |h.handled| ensures ServerReadsOne(y, y.c2s[lo + k], h.handled[k]) {
      assert ms[k].msg == y.c2s[lo + k];
      RequestTypesAgree(cat, impls, y, lo + k);
    }
  }

  /** A stretch of server messages, with code and text for each of its fatal errors. */
  function ServerBatch(y: Sys, lo: nat, hi: nat, notes: seq<(nat, Bytes)>): (ms: seq<Outgoing<SMsg>>)
    requires lo <= hi <= |y.s2c| && |notes| == hi - lo
    ensures |ms| == hi - lo
  {
    seq(hi - lo, k requires 0 <= k < hi - lo =>
      Outgoing(y.s2c[lo + k], EventSentTypes(y, y.s2c[lo + k]), notes[k].0, notes[k].1))
  }

  /** The client handled the messages of the stretch in order, up to the first one the model's
      client fails on; an event for an object it has resolved is decoded with that object's
      types. */
  ghost predicate ClientReads(y: Sys, lo: nat, hi: nat, notes: seq<(nat, Bytes)>, h: Outcome)
    requires lo <= hi <= |y.s2c| && |notes| == hi - lo
  {
    && |h.handled| <= hi - lo && (h.error == None <==> |h.handled| == hi - lo)
    && (|h.handled| < hi - lo ==> Unspeakable(y.s2c[lo + |h.handled|]))
    && forall k: nat :: k < |h.handled| ==>
         ClientReadsOne(y, y.s2c[lo + k], notes[k], h.handled[k])
  }

  ghost predicate ClientReadsOne(y: Sys, m: SMsg, note: (nat, Bytes), msg: Msg) {
    && !Unspeakable(m)
    && (!m.Event? ==> ServerMeant(msg, m, [], note.0, note.1))
    && (m.Event? ==>
          forall i: nat :: i < |y.c.objs| && y.c.objs[i].id == m.source ==>
                             ServerMeant(msg, m, EventReadTypes(y, m, i), note.0, note.1))
  }

  lemma OneRead(cat: Catalog, impls: set<Name>, y: Sys, p: nat, note: (nat, Bytes), msg: Msg)
    requires Reachable(cat, impls, y) && p < |y.s2c|
    requires !Unspeakable(y.s2c[p]) && ServerMeant(msg, y.s2c[p], EventSentTypes(y, y.s2c[p]), note.0, note.1)
    ensures ClientReadsOne(y, y.s2c[p], note, msg)
  {
    var m := y.s2c[p];
    if m.Event? {
      forall i: nat | i < |y.c.objs| && y.c.objs[i].id == m.source
        ensures ServerMeant(msg, m, EventReadTypes(y, m, i), note.0, note.1)
      {
        EventTypesAgree(cat, impls, y, p, i);
      }
    }
  }

  /** The other direction. */
  lemma ServerStretchDelivered(cat: Catalog, impls: set<Name>, y: Sys, lo: nat, hi: nat, notes: seq<(nat, Bytes)>)
    requires Reachable(cat, impls, y) && lo <= hi <= |y.s2c| && |notes| == hi - lo
    requires forall p: nat :: lo <= p < hi ==> ServerTyped(y.s2c[p], EventSentTypes(y, y.s2c[p]), notes[p - lo].0, notes[p - lo].1)
    ensures ServerStream(ServerBatch(y, lo, hi, notes)).Done?
    ensures var e := ServerStream(ServerBatch(y, lo, hi, notes));
      ClientReads(y, lo, hi, notes, HandleFrom(ClientSide, e.data, e.fds, 0))
  {
    var ms := ServerBatch(y, lo, hi, notes);
    ServerStreams(ms);
    var e := ServerStream(ms);
    ServerBatchArrives(ms, e.data, 0);
    HandledIsRead(cat, impls, y, lo, hi, notes, HandleFrom(ClientSide, e.data, e.fds, 0));
  }

  lemma HandledIsRead(cat: Catalog, impls: set<Name>, y: Sys, lo: nat, hi: nat, notes: seq<(nat, Bytes)>, h: Outcome)
    requires Reachable(cat, impls, y) && lo <= hi <= |y.s2c| && |notes| == hi - lo
    requires ServerHandled(ServerBatch(y, lo, hi, notes), h)
    ensures ClientReads(y, lo, hi, notes, h)
  {
    var ms := ServerBatch(y, lo, hi, notes);
    forall k: nat | k < |h.handled| ensures ClientReadsOne(y, y.s2c[lo + k], notes[k], h.handled[k]) {
      assert ms[k].msg == y.s2c[lo + k];
      OneRead(cat, impls, y, lo + k, notes[k], h.handled[k]);
    }
  }
}
