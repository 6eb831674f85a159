// The two `handle_message` loops: a buffer of concatenated messages and the fds received
// with it are taken apart (hyprwire/src/message.rs:15-184 and 187-347).  What is done
// with each message is in ClientModel and ServerModel.
module Framing {
  import opened Types
  import opened VarInt
  import opened Payload
  import opened Scanning
  import opened Frames

  datatype Role = ClientSide | ServerSide

  /** The protocol version both ends speak. */
  const SPOKEN: nat := 1

  /** Kinds a role handles.  The other known kinds and unknown bytes are InvalidMessage. */
  predicate Takes(role: Role, kind: byte) {
    match role
    case ClientSide =>
      kind in {HANDSHAKE_BEGIN, HANDSHAKE_PROTOCOLS, NEW_OBJECT, FATAL_PROTOCOL_ERROR, ROUNDTRIP_DONE, GENERIC}
    case ServerSide => kind in {SUP, HANDSHAKE_ACK, BIND_PROTOCOL, ROUNDTRIP_REQUEST, GENERIC}
  }

  /** A message as its handler sees it. */
  datatype Msg = Hello | Fields(kind: byte, vals: seq<Val>) | ForObject(g: Generic)

  datatype Turn = Turn(msg: Msg, next: nat, left: seq<int>)

  /** The client gives up when the server does not offer the version it speaks. */
  predicate Negotiated(kind: byte, vals: seq<Val>) {
    kind != HANDSHAKE_BEGIN || (vals != [] && vals[0].VWords? && SPOKEN in vals[0].us)
  }

  /** One turn of the loop. */
  function TakeOne(role: Role, data: Bytes, fds: seq<int>, i: nat): Result<Turn>
    requires i < |data|
  {
    var kind := data[i];
    if !Takes(role, kind) then Err(InvalidMessage)
    else if kind == SUP then
      var r := ReadHello(data, i);
      if r.Err? then Err(r.error) else Ok(Turn(Hello, r.value.next, fds))
    else if kind == GENERIC then
      var r := FromBytes(data, fds, i);
      if r.Err? then Err(r.error) else Ok(Turn(ForObject(r.value.0), i + |r.value.0.data|, r.value.1))
    else
      var r := ReadFixed(kind, data, i);
      if r.Err? then Err(r.error)
      else if !Negotiated(kind, r.value.value) then Err(VersionNegotiationFailed)
      else Ok(Turn(Fields(kind, r.value.value), r.value.next, fds))
  }

  /** The needle moves forward and stays inside the buffer. */
  lemma TakeForward(role: Role, data: Bytes, fds: seq<int>, i: nat)
    requires i < |data| && TakeOne(role, data, fds, i).Ok?
    ensures i < TakeOne(role, data, fds, i).value.next <= |data|
  {
    var kind := data[i];
    if kind != SUP && kind != GENERIC {
      FieldsForward(Shapes(kind), data, i + 1);
    }
  }

  /** The messages handled, and the error the loop ended with, if any. */
  datatype Outcome = Outcome(handled: seq<Msg>, error: Option<Error>)

  function HandleFrom(role: Role, data: Bytes, fds: seq<int>, i: nat): Outcome
    decreases |data| - i
  {
    if i >= |data| then Outcome([], if fds == [] then None else Some(MalformedMessage))
    else
      var t := TakeOne(role, data, fds, i);
      if t.Err? then Outcome([], Some(t.error))
      else
        TakeForward(role, data, fds, i);
        var rest := HandleFrom(role, data, t.value.left, t.value.next);
        Outcome([t.value.msg] + rest.handled, rest.error)
  }

  // ---- the loop as written -----------------------------------------------------------------

  method TakeTurn(role: Role, data: Bytes, fds: seq<int>, needle: nat) returns (r: Result<Turn>)
    requires needle < |data|
    ensures r == TakeOne(role, data, fds, needle)
    ensures role.ServerSide? && data[needle] !in {SUP, HANDSHAKE_ACK, BIND_PROTOCOL, ROUNDTRIP_REQUEST, GENERIC} ==>
      r == Err(InvalidMessage)
    ensures role.ClientSide? && data[needle] !in {HANDSHAKE_BEGIN, HANDSHAKE_PROTOCOLS, NEW_OBJECT, FATAL_PROTOCOL_ERROR, ROUNDTRIP_DONE, GENERIC} ==>
      r == Err(InvalidMessage)
  {
    var kind := data[needle];
    if !Takes(role, kind) { return Err(InvalidMessage); }
    if kind == SUP {
      var h := ReadHello(data, needle);
      if h.Err? { return Err(h.error); }
      return Ok(Turn(Hello, h.value.next, fds));
    } else if kind == GENERIC {
      var g, left := ScanMessage(data, fds, needle);
      if g.Err? { return Err(g.error); }
      return Ok(Turn(ForObject(g.value), needle + |g.value.data|, left));
    }
    var vs := ParseFixed(kind, data, needle);
    if vs.Err? { return Err(vs.error); }
    if !Negotiated(kind, vs.value.value) { return Err(VersionNegotiationFailed); }
    return Ok(Turn(Fields(kind, vs.value.value), vs.value.next, fds));
  }

  method HandleMessage(role: Role, data: Bytes, fds: seq<int>) returns (handled: seq<Msg>, error: Option<Error>)
    ensures Outcome(handled, error) == HandleFrom(role, data, fds, 0)
  {
    handled := [];
    var needle: nat := 0;
    var left := fds;
    ghost var whole := HandleFrom(role, data, fds, 0);
    while needle < |data|
      invariant needle <= |data|
      invariant var rest := HandleFrom(role, data, left, needle);
        whole.error == rest.error && whole.handled == handled + rest.handled
      decreases |data| - needle
    {
      var t := TakeTurn(role, data, left, needle);
      if t.Err? { return handled, Some(t.error); }
      TakeForward(role, data, left, needle);
      handled := handled + [t.value.msg];
      needle, left := t.value.next, t.value.left;
    }
    error := if left == [] then None else Some(MalformedMessage);
  }

  // ---- frames ------------------------------------------------------------------------------

  /** A message in the field grammar. */
  datatype Frame = Greeting | Simple(p: Plain) | Remote(k: Call)

  function KindOf(f: Frame): byte {
    match f
    case Greeting => SUP
    case Simple(p) => p.kind
    case Remote(_) => GENERIC
  }

  function FrameBytes(f: Frame): (b: Bytes) {
    match f
    case Greeting => HELLO
    case Simple(p) => PlainBytes(p)
    case Remote(k) => CallBytes(k)
  }

  ghost function FrameDemand(f: Frame): nat {
    match f
    case Remote(k) => FieldsDemand(k.fields)
    case _ => 0
  }

  /** A well-formed message for `role`. */
  ghost predicate FrameWf(role: Role, f: Frame) {
    Takes(role, KindOf(f)) &&
    match f
    case Greeting => true
    case Simple(p) => PlainWf(p) && Negotiated(p.kind, ValsOf(p.fields))
    case Remote(k) => CallWf(k) && AllSmall(k.fields)
  }

  ghost function MsgOf(f: Frame, fds: seq<int>): Msg
    requires FrameDemand(f) <= |fds|
  {
    match f
    case Greeting => Hello
    case Simple(p) => Fields(p.kind, ValsOf(p.fields))
    case Remote(k) => ForObject(Accepted(k, fds))
  }

  /** A frame is taken whole, with exactly the fds it demands. */
  lemma FrameTaken(role: Role, data: Bytes, fds: seq<int>, i: nat, f: Frame)
    requires FrameWf(role, f) && At(data, i, FrameBytes(f)) && FrameDemand(f) <= |fds|
    ensures i < |data|
    ensures TakeOne(role, data, fds, i) == Ok(Turn(MsgOf(f, fds), i + |FrameBytes(f)|, fds[FrameDemand(f)..]))
  {
    hide FieldBytes, FieldWf, ReadField, ValOf, Fits, FromBytes, ReadFixed, PlainBytes, CallBytes, CallWf, AllSmall;
    match f
    case Greeting =>
      AtByte(data, i, HELLO, 0);
      AtIsSlice(data, i, HELLO);
    case Simple(p) => PlainRead(data, i, p);
    case Remote(k) =>
      CallSize(k);
      AtByte(data, i, CallBytes(k), 0);
      CallAccepted(data, fds, i, k);
  }

  /** Whatever a turn takes is a frame standing at the needle. */
  lemma TakenFrame(role: Role, data: Bytes, fds: seq<int>, i: nat) returns (f: Frame)
    requires i < |data| && TakeOne(role, data, fds, i).Ok?
    ensures FrameWf(role, f) && At(data, i, FrameBytes(f)) && FrameDemand(f) <= |fds|
  {
    var kind := data[i];
    if kind == SUP {
      f := Greeting;
      AtIsSlice(data, i, HELLO);
    } else if kind == GENERIC {
      var k := AcceptedCall(data, fds, i);
      f := Remote(k);
    } else {
      var p := PlainBack(kind, data, i);
      f := Simple(p);
    }
  }

  // ---- tiling --------------------------------------------------------------------------------

  function Concat(fs: seq<Frame>): Bytes {
    if fs == [] then [] else FrameBytes(fs[0]) + Concat(fs[1..])
  }

  ghost function TotalDemand(fs: seq<Frame>): nat {
    if fs == [] then 0 else FrameDemand(fs[0]) + TotalDemand(fs[1..])
  }

  ghost predicate AllFrames(role: Role, fs: seq<Frame>) {
    forall i :: 0 <= i < |fs| ==> FrameWf(role, fs[i])
  }

  ghost function MsgsOf(fs: seq<Frame>, fds: seq<int>): seq<Msg>
    requires TotalDemand(fs) <= |fds|
  {
    if fs == [] then [] else [MsgOf(fs[0], fds)] + MsgsOf(fs[1..], fds[FrameDemand(fs[0])..])
  }

  /** The frames fill the buffer from `i` to its end and demand all the fds. */
  ghost predicate Tiles(role: Role, data: Bytes, fds: seq<int>, i: nat, fs: seq<Frame>) {
    && AllFrames(role, fs) && TotalDemand(fs) == |fds|
    && At(data, i, Concat(fs)) && i + |Concat(fs)| == |data|
  }

  lemma TilesStep(role: Role, data: Bytes, fds: seq<int>, i: nat, fs: seq<Frame>)
    requires fs != [] && Tiles(role, data, fds, i, fs)
    ensures FrameWf(role, fs[0]) && At(data, i, FrameBytes(fs[0])) && FrameDemand(fs[0]) <= |fds|
    ensures Tiles(role, data, fds[FrameDemand(fs[0])..], i + |FrameBytes(fs[0])|, fs[1..])
  {
    hide FieldBytes, FrameBytes, FrameWf, At;
    AtConcat(data, i, FrameBytes(fs[0]), Concat(fs[1..]));
  }

  lemma TilesMore(role: Role, data: Bytes, fds: seq<int>, i: nat, f: Frame, fs: seq<Frame>)
    requires FrameWf(role, f) && At(data, i, FrameBytes(f)) && FrameDemand(f) <= |fds|
    requires Tiles(role, data, fds[FrameDemand(f)..], i + |FrameBytes(f)|, fs)
    ensures Tiles(role, data, fds, i, [f] + fs)
  {
    assert ([f] + fs)[1..] == fs;
    AtConcat(data, i, FrameBytes(f), Concat(fs));
  }

  /** Any concatenation of valid messages for a role is split into those messages, in
      order, with each one's fds. */
  lemma {:induction false} SplitFrom(role: Role, data: Bytes, fds: seq<int>, i: nat, fs: seq<Frame>)
    requires Tiles(role, data, fds, i, fs)
    ensures HandleFrom(role, data, fds, i) == Outcome(MsgsOf(fs, fds), None)
    decreases |fs|
  {
    hide FieldBytes, FieldWf, At, TakeOne, FrameWf, MsgOf, FrameBytes;
    if fs != [] {
      TilesStep(role, data, fds, i, fs);
      FrameTaken(role, data, fds, i, fs[0]);
      SplitFrom(role, data, fds[FrameDemand(fs[0])..], i + |FrameBytes(fs[0])|, fs[1..]);
    }
  }

  lemma NothingLeft(data: Bytes)
    ensures At(data, |data|, [])
  {
  }

  /** Conversely, when the loop ends without error the buffer is tiled by well-formed
      messages and every received fd was demanded by one of them. */
  lemma {:induction false} TiledFrom(role: Role, data: Bytes, fds: seq<int>, i: nat) returns (fs: seq<Frame>)
    requires HandleFrom(role, data, fds, i).error == None && i <= |data|
    ensures Tiles(role, data, fds, i, fs)
    decreases |data| - i
  {
    hide FieldBytes, FieldWf, At, TakeOne, FrameWf, MsgOf, FrameBytes;
    if i == |data| {
      fs := [];
      NothingLeft(data);
    } else {
      var t := TakeOne(role, data, fds, i).value;
      TakeForward(role, data, fds, i);
      var f := TakenFrame(role, data, fds, i);
      FrameTaken(role, data, fds, i, f);
      var rest := TiledFrom(role, data, t.left, t.next);
      TilesMore(role, data, fds, i, f, rest);
      fs := [f] + rest;
    }
  }

  /** The loop accepts exactly the tilings. */
  lemma HandledIffTiled(role: Role, data: Bytes, fds: seq<int>)
    ensures HandleFrom(role, data, fds, 0).error == None <==> exists fs :: Tiles(role, data, fds, 0, fs)
  {
    if HandleFrom(role, data, fds, 0).error == None {
      var fs := TiledFrom(role, data, fds, 0);
      assert Tiles(role, data, fds, 0, fs);
    }
    forall fs | Tiles(role, data, fds, 0, fs) ensures HandleFrom(role, data, fds, 0).error == None {
      SplitFrom(role, data, fds, 0, fs);
    }
  }

  function FdsOf(ms: seq<Msg>): seq<int> {
    if ms == [] then []
    else (if ms[0].ForObject? then ms[0].g.fds else []) + FdsOf(ms[1..])
  }

  lemma {:induction false} MsgsKeepFds(fs: seq<Frame>, fds: seq<int>)
    requires TotalDemand(fs) == |fds|
    ensures FdsOf(MsgsOf(fs, fds)) == fds
    decreases |fs|
  {
    if fs != [] {
      var n := FrameDemand(fs[0]);
      MsgsKeepFds(fs[1..], fds[n..]);
      assert MsgsOf(fs, fds)[1..] == MsgsOf(fs[1..], fds[n..]);
      assert fds == fds[..n] + fds[n..];
    }
  }

  /** No fd is lost, duplicated or reordered by a loop that ends without error. */
  lemma FdsConserved(role: Role, data: Bytes, fds: seq<int>)
    requires HandleFrom(role, data, fds, 0).error == None
    ensures FdsOf(HandleFrom(role, data, fds, 0).handled) == fds
  {
    var fs := TiledFrom(role, data, fds, 0);
    SplitFrom(role, data, fds, 0, fs);
    MsgsKeepFds(fs, fds);
  }

  /** A batch may be cut between messages: handling `a` and then `b` handles `a + b`. */
  lemma BatchesJoin(role: Role, a: Bytes, afds: seq<int>, b: Bytes, bfds: seq<int>)
    requires HandleFrom(role, a, afds, 0).error == None && HandleFrom(role, b, bfds, 0).error == None
    ensures HandleFrom(role, a + b, afds + bfds, 0) ==
            Outcome(HandleFrom(role, a, afds, 0).handled + HandleFrom(role, b, bfds, 0).handled, None)
  {
    hide HandleFrom, TotalDemand, Concat, MsgsOf;
    var fs := TiledFrom(role, a, afds, 0);
    var gs := TiledFrom(role, b, bfds, 0);
    SplitFrom(role, a, afds, 0, fs);
    SplitFrom(role, b, bfds, 0, gs);
    ConcatJoins(fs, gs);
    assert a == Concat(fs) && b == Concat(gs) by {
      AtIsSlice(a, 0, Concat(fs));
      AtIsSlice(b, 0, Concat(gs));
    }
    assert At(a + b, 0, a + b);
    SplitFrom(role, a + b, afds + bfds, 0, fs + gs);
    MsgsJoin(fs, afds, gs, bfds);
  }

  lemma {:induction false} ConcatJoins(fs: seq<Frame>, gs: seq<Frame>)
    ensures Concat(fs + gs) == Concat(fs) + Concat(gs) && TotalDemand(fs + gs) == TotalDemand(fs) + TotalDemand(gs)
    decreases |fs|
  {
    if fs == [] {
      assert fs + gs == gs;
    } else {
      assert (fs + gs)[1..] == fs[1..] + gs;
      ConcatJoins(fs[1..], gs);
    }
  }

  lemma MsgSame(f: Frame, a: seq<int>, b: seq<int>)
    requires FrameDemand(f) <= |a|
    ensures MsgOf(f, a + b) == MsgOf(f, a) && (a + b)[FrameDemand(f)..] == a[FrameDemand(f)..] + b
  {
    assert (a + b)[..FrameDemand(f)] == a[..FrameDemand(f)];
  }

  lemma MsgsJoinStep(f: Frame, fs: seq<Frame>, a: seq<int>, gs: seq<Frame>, b: seq<int>)
    requires FrameDemand(f) + TotalDemand(fs) == |a| && TotalDemand(gs) == |b| && TotalDemand(fs + gs) == TotalDemand(fs) + |b|
    requires MsgsOf(fs + gs, a[FrameDemand(f)..] + b) == MsgsOf(fs, a[FrameDemand(f)..]) + MsgsOf(gs, b)
    ensures TotalDemand([f] + (fs + gs)) == |a + b| && TotalDemand([f] + fs) == |a|
    ensures MsgsOf([f] + (fs + gs), a + b) == MsgsOf([f] + fs, a) + MsgsOf(gs, b)
  {
    MsgSame(f, a, b);
    MsgsCons(f, fs + gs, a + b);
    MsgsCons(f, fs, a);
    Assoc([MsgOf(f, a)], MsgsOf(fs, a[FrameDemand(f)..]), MsgsOf(gs, b));
  }

  lemma Assoc<T>(x: seq<T>, y: seq<T>, z: seq<T>)
    ensures x + (y + z) == x + y + z
  {
  }

  lemma {:induction false} MsgsJoin(fs: seq<Frame>, a: seq<int>, gs: seq<Frame>, b: seq<int>)
    requires TotalDemand(fs) == |a| && TotalDemand(gs) == |b|
    ensures TotalDemand(fs + gs) == |a + b|
    ensures MsgsOf(fs + gs, a + b) == MsgsOf(fs, a) + MsgsOf(gs, b)
    decreases |fs|
  {
    hide FieldBytes, FieldWf, MsgOf, FrameBytes, FrameWf;
    if fs == [] {
      assert fs + gs == gs && a + b == b;
    } else {
      var f, rest := fs[0], fs[1..];
      MsgsJoin(rest, a[FrameDemand(f)..], gs, b);
      MsgsJoinStep(f, rest, a, gs, b);
      assert fs + gs == [f] + (rest + gs) && fs == [f] + rest;
    }
  }

  lemma MsgsCons(f: Frame, fs: seq<Frame>, fds: seq<int>)
    requires FrameDemand(f) + TotalDemand(fs) <= |fds|
    ensures TotalDemand([f] + fs) == FrameDemand(f) + TotalDemand(fs)
    ensures MsgsOf([f] + fs, fds) == [MsgOf(f, fds)] + MsgsOf(fs, fds[FrameDemand(f)..])
  {
    assert ([f] + fs)[1..] == fs;
  }
}
