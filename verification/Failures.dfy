// The messages a receiver gives the connection up over: the parsers' refusals of
// hyprwire-core/src/message/wire/bind_protocol.rs:98-101, generic_protocol_message.rs:80-88
// and handshake_protocols.rs:71-74, and what hyprwire/src/server/server_socket.rs:130-139
// and hyprwire/src/client/event_queue.rs:137-142 do about them.
module Failures {
  import opened Types
  import opened ClientModel
  import opened ServerModel
  import opened System
  import opened Invariant
  import opened ClientSteps
  import opened ServerRequests
  import opened Protocol
  import opened Disconnection

  /** Every check of the client passes for version 0 if it passes for any version. */
  lemma VersionZeroIsSent(cat: Catalog, y: Sys, proto: Name, version: nat)
    requires Enabled(cat, y, AppBind(proto, version))
    requires Apply(cat, y, AppBind(proto, version)).c2s != y.c2s
    ensures Apply(cat, y, AppBind(proto, 0)).c2s == y.c2s + [BindProtocol(proto, y.c.seqNo + 1, 0)]
  {
  }

  /** The client sends or parks a call on any resolved or unresolved object whatever the
      length of its arrays. */
  lemma LongArraysAreSent(cat: Catalog, y: Sys, o: nat, op: nat, args: seq<CallArg>, long: seq<CallArg>)
    requires Enabled(cat, y, AppCall(o, op, args)) && Apply(cat, y, AppCall(o, op, args)).calls != y.calls
    ensures Enabled(cat, y, AppCall(o, op, long))
    ensures var z := Apply(cat, y, AppCall(o, op, long)); |z.calls| == |y.calls| + 1 && z.calls[|y.calls|].args == long
    ensures var z := Apply(cat, y, AppCall(o, op, long));
      y.c.objs[o].id != 0 ==> |z.c2s| == |y.c2s| + 1 && z.c2s[|y.c2s|].Request? && z.c2s[|y.c2s|].args == long
  {
  }

  ghost predicate HasLongArray(args: seq<CallArg>) {
    exists i :: 0 <= i < |args| && Elements(args[i]) >= MAX_ARRAY
  }

  /** A dispatch of the server is aborted exactly over a bind with version 0 or a request with
      an array of 10000 elements or more; then nothing of it is handled or answered.  Any
      other message is handled. */
  lemma AbortsIff(cat: Catalog, y: Sys)
    requires Enabled(cat, y, ServerHandleNext)
    ensures var z := Apply(cat, y, ServerHandleNext); var m := y.c2s[y.cRead];
      && (z.s.aborted <==> (m.BindProtocol? && m.bindVersion == 0) || (m.Request? && HasLongArray(m.args)))
      && (z.s.aborted ==> z == y.(s := y.s.(phase := true, error := true, aborted := true)))
      && (!z.s.aborted ==> z.cRead == y.cRead + 1 && |z.handled| == |y.handled| + 1)
  {
    hide ServerTake;
    var m := y.c2s[y.cRead];
    if !Unparsable(m) { TakeParses(cat, y.s.(phase := true), m, y.cRead, |y.s2c|); }
  }

  lemma TakeParses(cat: Catalog, s: Server, m: CMsg, cause: nat, at: nat)
    ensures ServerTake(cat, s, m, cause, at).s.aborted == s.aborted
  {
    hide ServerOnGeneric, PickIface;
    if m.Request? { OnGenericParses(cat, s, m.target, m.op, m.ret, cause, at); }
  }

  lemma OnGenericParses(cat: Catalog, s: Server, x: nat, m: nat, ret: nat, cause: nat, at: nat)
    ensures ServerOnGeneric(cat, s, x, m, ret, cause, at).s.aborted == s.aborted
  {
    hide First, PickIface, ServerIdIs;
  }

  /** A bind that is not refused makes its object and answers. */
  lemma BindAnswered(cat: Catalog, y: Sys)
    requires Enabled(cat, y, ServerHandleNext) && y.c2s[y.cRead].BindProtocol?
    ensures var z := Apply(cat, y, ServerHandleNext); var m := y.c2s[y.cRead];
      if m.bindVersion == 0 then z.s.aborted && z.s.objs == y.s.objs && z.s2c == y.s2c
      else !z.s.aborted && |z.s.objs| == |y.s.objs| + 1 && z.s2c == y.s2c + [NewObject(m.seqNo, y.s.maxId)]
  {
  }

  /** A dispatch of the client fails exactly over a list of 2048 protocols or more or an event
      with an array of 10000 elements or more; then nothing of the message is handled and no
      parked request is flushed.  The version negotiation never fails. */
  lemma ClientFailsIff(cat: Catalog, impls: set<Name>, y: Sys)
    requires Reachable(cat, impls, y) && Enabled(cat, y, ClientHandle)
    ensures var z := Apply(cat, y, ClientHandle); var m := y.s2c[y.sRead];
      && (z.c.phase.Failed? <==> (m.HandshakeProtocols? && |m.protocols| >= MAX_PROTOCOLS)
                                 || (m.Event? && HasLongArray(m.eventArgs)))
      && (z.c.phase.Failed? ==> z == y.(c := y.c.(phase := Failed, error := true)))
      && (!z.c.phase.Failed? ==> z.sRead == y.sRead + 1)
  {
    hide Take, First;
    ReachableInv(cat, impls, y);
    var m := y.s2c[y.sRead];
    if m.HandshakeBegin? { assert m == HandshakeBegin([PROTOCOL_VERSION]); }
    if !Unspeakable(m) { TakeSucceeds(y.c.(phase := Handling), m); }
  }

  lemma TakeSucceeds(c: Client, m: SMsg)
    ensures Take(c, m).c.phase == c.phase
  {
  }

  lemma RaiseKeepsAborted(s: Server, o: nat)
    requires o < |s.objs|
    ensures RaiseError(s, o).s.aborted == s.aborted
  {
  }

  lemma FinishKeepsAborted(s: Server)
    ensures Finish(s).aborted == s.aborted
  {
  }

  lemma DisconnectKeepsAborted(cat: Catalog, y: Sys, scripts: seq<seq<Speech>>)
    requires Inv(cat, y) && Enabled(cat, y, ServerDisconnect(scripts))
    ensures Disconnect(y.s, scripts).s.aborted == y.s.aborted
  {
    hide Disconnect, Killed, KilledBefore, WantsDestructor;
    var d, said := DisconnectDelivers(y.s, scripts);
  }

  lemma AbortedStep(cat: Catalog, y: Sys, step: Step)
    requires Inv(cat, y) && Enabled(cat, y, step) && y.s.aborted
    ensures var z := Apply(cat, y, step); z.s.aborted && z.cRead == y.cRead
  {
    hide Inv, Handle, FlushOne, DoCall, DropObject, Bind, Roundtrip, Disconnect, SendEvent, RaiseError, Finish;
    match step
    case AppCall(o, op, args) => CallKeepsServer(cat, y, o, op, args);
    case AppRelease(o) =>
      DropKeepsServer(cat, y.(c := y.c.(objs := y.c.objs[o := y.c.objs[o].(held := false)])), o);
    case ClientCollect(o) => DropKeepsServer(cat, y.(c := Discard(y.c, o)), o);
    case ServerEvent(o, m, args) => SendShape(y.s, o, m, args);
    case ServerRaise(o) => RaiseKeepsAborted(y.s, o);
    case ServerFinish => FinishKeepsAborted(y.s);
    case ServerDisconnect(scripts) => DisconnectKeepsAborted(cat, y, scripts);
    case _ =>
  }

  /** After an abort the server never handles another message of that client, in any run;
      its error flag, by which the connection is dropped, stays set. */
  lemma {:induction false} AbortIsFinal(cat: Catalog, y: Sys, steps: seq<Step>, z: Sys)
    requires Inv(cat, y) && Run(cat, y, steps, z) && y.s.aborted
    ensures z.s.aborted && z.s.error && z.cRead == y.cRead
    decreases |steps|
  {
    if steps != [] {
      AbortedStep(cat, y, steps[0]);
      StepKeepsInv(cat, y, steps[0]);
      AbortIsFinal(cat, Apply(cat, y, steps[0]), steps[1..], z);
    }
  }

  lemma FailedStep(cat: Catalog, y: Sys, step: Step)
    requires Enabled(cat, y, step) && y.c.phase.Failed?
    ensures var z := Apply(cat, y, step); z.c.phase.Failed? && z.sRead == y.sRead
  {
    hide ServerHandle, Disconnect, Finish, SendEvent, EndDispatch, DoCall, DropObject;
    match step
    case AppCall(o, op, args) => CallKeepsServer(cat, y, o, op, args);
    case AppRelease(o) =>
      DropKeepsServer(cat, y.(c := y.c.(objs := y.c.objs[o := y.c.objs[o].(held := false)])), o);
    case _ =>
  }

  /** After a failed dispatch the client never reads, flushes or collects again, in any run. */
  lemma {:induction false} FailureIsFinal(cat: Catalog, y: Sys, steps: seq<Step>, z: Sys)
    requires Inv(cat, y) && Run(cat, y, steps, z) && y.c.phase.Failed?
    ensures z.c.phase.Failed? && z.c.error && z.sRead == y.sRead
    decreases |steps|
  {
    if steps != [] {
      FailedStep(cat, y, steps[0]);
      StepKeepsInv(cat, y, steps[0]);
      FailureIsFinal(cat, Apply(cat, y, steps[0]), steps[1..], z);
    }
  }
}
