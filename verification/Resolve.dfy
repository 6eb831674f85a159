// Parked requests: encoded with object id 0 and patched when the id is known
// (hyprwire-core/src/message/wire/generic_protocol_message.rs:177-186,
// hyprwire/src/client/event_queue.rs:158-166).
module Resolve {
  import opened Types
  import opened VarInt
  import opened Payload
  import opened Encoder
  import opened EndToEnd
  import opened Decoder
  import opened ClientModel
  import opened Passes

  /** The frame with its object id replaced. */
  function Patched(data: Bytes, id: nat): Bytes {
    if |data| >= 6 then data[..2] + U32Bytes(id) + data[6..] else data
  }

  /** `GenericProtocolMessage` as it waits in the queue. */
  class Message {
    var dependsOnSeq: nat
    var target: nat
    const fds: seq<int>
    const data: array<byte>

    /** `new`: no object and no dependency yet. */
    constructor (bytes: Bytes, fds: seq<int>)
      ensures dependsOnSeq == 0 && target == 0 && this.fds == fds
      ensures fresh(data) && data[..] == bytes
    {
      dependsOnSeq, target := 0, 0;
      this.fds := fds;
      data := new byte[|bytes|](i requires 0 <= i < |bytes| => bytes[i]);
    }

    method SetDependsOnSeq(n: nat)
      modifies this`dependsOnSeq
      ensures dependsOnSeq == n
    {
      dependsOnSeq := n;
    }

    /** `resolve_seq`: four bytes are overwritten in place, nothing else moves. */
    method ResolveSeq(id: nat)
      modifies this`target, data
      ensures target == id && data[..] == Patched(old(data[..]), id)
    {
      target := id;
      if data.Length >= 6 {
        var word := U32Bytes(id);
        for k := 0 to 4
          invariant target == id
          invariant forall j :: 0 <= j < data.Length ==>
                                  data[j] == if 2 <= j < 2 + k then word[j - 2] else old(data[j])
        {
          data[2 + k] := word[k];
        }
        ghost var was := old(data[..]);
        ghost var now := was[..2] + word + was[6..];
        assert |now| == data.Length;
        forall j | 0 <= j < data.Length ensures data[j] == now[j] {
          assert was[j] == old(data[j]);
        }
        assert data[..] == now;
      }
    }
  }

  /** The message is this call, encoded for object `id`. */
  ghost predicate Holds(m: Message, id: nat, op: nat, ret: Option<nat>, params: Bytes, args: seq<CallArg>)
    reads m.data
  {
    Done(m.data[..], m.fds) == EncodeCall(id, op, ret, params, args)
  }

  /** `call` on an object without id: encode with id 0 and note what the message waits for. */
  method ParkCall(dep: nat, op: nat, ret: Option<nat>, params: Bytes, args: seq<CallArg>) returns (r: Option<Message>)
    requires forall k :: 0 <= k < |args| ==> MachineSized(args[k])
    ensures r.Some? <==> EncodeCall(0, op, ret, params, args).Done?
    ensures r.Some? ==> fresh(r.value) && fresh(r.value.data) && r.value.dependsOnSeq == dep
                        && Holds(r.value, 0, op, ret, params, args)
  {
    var e := MarshalCall(0, op, ret, params, args);
    if !e.Done? { return None; }
    var m := new Message(e.data, e.fds);
    m.SetDependsOnSeq(dep);
    return Some(m);
  }

  lemma HeadPatched(target: nat, op: nat, ret: Option<nat>, id: nat, rest: Bytes)
    ensures Patched(Head(target, op, ret) + rest, id) == Head(id, op, ret) + rest
  {
    var tail := [UINT] + U32Bytes(op) + (if ret.Some? then [SEQ] + U32Bytes(ret.value) else []) + rest;
    assert Head(target, op, ret) + rest == [GENERIC, OBJECT] + U32Bytes(target) + tail;
    assert Head(id, op, ret) + rest == [GENERIC, OBJECT] + U32Bytes(id) + tail;
  }

  /** For every parameter list and arguments, matching or not: the deferred path yields
      byte for byte the encoding of the direct path, with the same fds, and fails when it
      fails. */
  lemma DeferredRefinesDirect(op: nat, ret: Option<nat>, params: Bytes, args: seq<CallArg>, id: nat)
    ensures var parked := EncodeCall(0, op, ret, params, args);
      EncodeCall(id, op, ret, params, args) ==
      if parked.Done? then Done(Patched(parked.data, id), parked.fds) else parked
  {
    var body := EncodeFrom(params, args, 0, 0);
    if body.Done? {
      HeadPatched(0, op, ret, id, body.data + [END]);
      assert Head(0, op, ret) + body.data + [END] == Head(0, op, ret) + (body.data + [END]);
      assert Head(id, op, ret) + body.data + [END] == Head(id, op, ret) + (body.data + [END]);
    }
  }

  /** The flush of one parked message.  The verdict is what the table knows of the object it
      waits for: nothing (drop), 0 (keep), or the id it is sent to; and then it has become
      byte for byte the call encoded with that id. */
  method FlushParked(m: Message, objs: seq<CObj>, table: seq<nat>,
                     ghost op: nat, ghost ret: Option<nat>, ghost params: Bytes, ghost args: seq<CallArg>)
    returns (verdict: Option<nat>)
    requires Holds(m, 0, op, ret, params, args)
    modifies m, m.data
    ensures m.dependsOnSeq == old(m.dependsOnSeq)
    ensures exists d: Deferred :: d.dep == m.dependsOnSeq && verdict == Looked(objs, table, d)
    ensures Holds(m, if verdict.Some? then verdict.value else 0, op, ret, params, args)
  {
    ghost var d := Deferred(m.dependsOnSeq, 0, 0, [], 0);
    verdict := None;
    var k := 0;
    while k < |table| && !(table[k] < |objs| && objs[table[k]].seqNo == m.dependsOnSeq)
      invariant k <= |table|
      invariant First(table, SeqIs(objs, m.dependsOnSeq)) == First(table[k..], SeqIs(objs, m.dependsOnSeq))
    {
      assert table[k..][1..] == table[k + 1..];
      k := k + 1;
    }
    if k < |table| { verdict := Some(objs[table[k]].id); }
    assert verdict == Looked(objs, table, d);
    if verdict.Some? && verdict.value != 0 {
      DeferredRefinesDirect(op, ret, params, args, verdict.value);
      m.ResolveSeq(verdict.value);
    }
  }

  /** Parked, patched and received: the call arrives for object `id` with its method,
      sequence number, arguments and fds. */
  lemma PatchedArrives(op: nat, ret: Option<nat>, tys: seq<ArgType>, args: seq<CallArg>, id: nat,
                       data: Bytes, offset: nat, after: seq<int>)
    requires WellTyped(id, op, ret, tys, args) && Sendable(args)
    ensures var parked := EncodeCall(0, op, ret, ParamsOf(tys), args);
      && parked.Done?
      && (At(data, offset, Patched(parked.data, id)) ==>
            EndToEnd.Received(data, parked.fds + after, offset, id, op, ret, tys, args, after))
  {
    DeferredRefinesDirect(op, ret, ParamsOf(tys), args, id);
    EndToEnd.EndToEnd(id, op, ret, tys, args, data, offset, after);
  }
}
