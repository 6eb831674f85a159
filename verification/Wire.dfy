// Messages to bytes and back: the codec joined to the message alphabets of the protocol
// model, so that the state machine may speak of messages in order.
module Wire {
  import opened Types
  import opened VarInt
  import opened Payload
  import opened Scanning
  import opened Encoder
  import opened Decoder
  import opened EndToEnd
  import opened Frames
  import opened Framing
  import opened ClientModel
  import opened ServerModel
  import Adverts
  import Utf8

  function WordField(n: nat): Field {
    Word(UINT, U32Bytes(n))
  }

  function TextField(s: Bytes): Field {
    Str(Text(Encode(|s|), s))
  }

  function RetOf(ret: nat): Option<nat> {
    if ret == 0 then None else Some(ret)
  }

  // ---- what the constructors of the messages write ---------------------------------------------

  /** Bytes of a client message; a request is encoded from its method's parameter list. */
  function ClientBytes(m: CMsg, tys: seq<ArgType>): Encoded {
    match m
    case Sup => Done(HELLO, [])
    case HandshakeAck(v) => Done([HANDSHAKE_ACK, UINT] + U32Bytes(v) + [END], [])
    case BindProtocol(p, n, v) =>
      Done([BIND_PROTOCOL, UINT] + U32Bytes(n) + [VARCHAR] + Encode(|p|) + p + [UINT] + U32Bytes(v) + [END], [])
    case Request(x, op, ret, args, _) => EncodeCall(x, op, RetOf(ret), ParamsOf(tys), args)
    case RoundtripRequest(k) => Done([ROUNDTRIP_REQUEST, UINT] + U32Bytes(k) + [END], [])
  }

  /** Bytes of a server message; `code` and `text` are those of a FatalProtocolError. */
  function ServerBytes(m: SMsg, tys: seq<ArgType>, code: nat, text: Bytes): Encoded {
    match m
    case HandshakeBegin(vs) => Done([HANDSHAKE_BEGIN, ARRAY, UINT] + Encode(|vs|) + Flat(U32Words(vs)) + [END], [])
    case HandshakeProtocols(ps) =>
      Done([HANDSHAKE_PROTOCOLS, ARRAY, VARCHAR] + Encode(|ps|) + Flat(CountedStrings(ps)) + [END], [])
    case NewObject(n, id) => Done([NEW_OBJECT, UINT] + U32Bytes(id) + [UINT] + U32Bytes(n) + [END], [])
    case Event(x, op, args) => EncodeCall(x, op, None, ParamsOf(tys), args)
    case FatalProtocolError(x) =>
      Done([FATAL_PROTOCOL_ERROR, UINT] + U32Bytes(x) + [UINT] + U32Bytes(code) + [VARCHAR] + Encode(|text|) + text + [END], [])
    case RoundtripDone(k) => Done([ROUNDTRIP_DONE, UINT] + U32Bytes(k) + [END], [])
  }

  /** `HandshakeProtocols::new`. */
  method WriteHandshakeProtocols(ps: seq<Bytes>) returns (data: Bytes)
    requires UsizeFits(|ps|) && forall i :: 0 <= i < |ps| ==> UsizeFits(|ps[i]|)
    ensures Done(data, []) == ServerBytes(HandshakeProtocols(ps), [], 0, [])
  {
    var count := VarIntBytes(|ps|);
    data := [HANDSHAKE_PROTOCOLS, ARRAY, VARCHAR] + count;
    data := MarshalStrings(data, ps);
    data := data + [END];
  }

  /** `HandshakeBegin::new`. */
  method WriteHandshakeBegin(vs: seq<nat>) returns (data: Bytes)
    requires UsizeFits(|vs|)
    ensures Done(data, []) == ServerBytes(HandshakeBegin(vs), [], 0, [])
  {
    var count := VarIntBytes(|vs|);
    data := [HANDSHAKE_BEGIN, ARRAY, UINT] + count;
    data := ExtendAll(data, U32Words(vs));
    data := data + [END];
  }

  /** `BindProtocol::new`. */
  method WriteBindProtocol(p: Name, n: nat, v: nat) returns (data: Bytes)
    requires UsizeFits(|p|)
    ensures Done(data, []) == ClientBytes(BindProtocol(p, n, v), [])
  {
    var len := VarIntBytes(|p|);
    data := [BIND_PROTOCOL, UINT] + U32Bytes(n) + [VARCHAR];
    data := data + len + p;
    data := data + [UINT] + U32Bytes(v) + [END];
  }

  // ---- as frames of the grammar ------------------------------------------------------------------

  function ClientFrame(m: CMsg): Frame {
    match m
    case Sup => Greeting
    case HandshakeAck(v) => Simple(Plain(HANDSHAKE_ACK, [WordField(v)]))
    case BindProtocol(p, n, v) => Simple(Plain(BIND_PROTOCOL, [WordField(n), TextField(p), WordField(v)]))
    case Request(x, op, ret, args, _) => Remote(TheCall(x, op, RetOf(ret), args))
    case RoundtripRequest(k) => Simple(Plain(ROUNDTRIP_REQUEST, [WordField(k)]))
  }

  function ServerFrame(m: SMsg, code: nat, text: Bytes): Frame {
    match m
    case HandshakeBegin(vs) => Simple(Plain(HANDSHAKE_BEGIN, [WordArray(UINT, Encode(|vs|), Flat(U32Words(vs)))]))
    case HandshakeProtocols(ps) => Simple(Plain(HANDSHAKE_PROTOCOLS, [TextArray(Encode(|ps|), Texts(ps))]))
    case NewObject(n, id) => Simple(Plain(NEW_OBJECT, [WordField(id), WordField(n)]))
    case Event(x, op, args) => Remote(TheCall(x, op, None, args))
    case FatalProtocolError(x) => Simple(Plain(FATAL_PROTOCOL_ERROR, [WordField(x), WordField(code), TextField(text)]))
    case RoundtripDone(k) => Simple(Plain(ROUNDTRIP_DONE, [WordField(k)]))
  }

  /** What Rust's types guarantee: integers fit their wire width, strings are UTF-8, and a
      request's arguments have its method's types. */
  ghost predicate ClientTyped(m: CMsg, tys: seq<ArgType>) {
    match m
    case Sup => true
    case HandshakeAck(v) => v < U32_LIMIT
    case BindProtocol(p, n, v) => Utf8.Valid(p) && n < U32_LIMIT && v < U32_LIMIT
    case Request(x, op, ret, args, _) => WellTyped(x, op, RetOf(ret), tys, args)
    case RoundtripRequest(k) => k < U32_LIMIT
  }

  ghost predicate AllStrings(ps: seq<Bytes>) {
    forall i :: 0 <= i < |ps| ==> Utf8.Valid(ps[i])
  }

  ghost predicate ServerTyped(m: SMsg, tys: seq<ArgType>, code: nat, text: Bytes) {
    match m
    case HandshakeBegin(vs) => forall i :: 0 <= i < |vs| ==> vs[i] < U32_LIMIT
    case HandshakeProtocols(ps) => AllStrings(ps)
    case NewObject(n, id) => n < U32_LIMIT && id < U32_LIMIT
    case Event(x, op, args) => WellTyped(x, op, None, tys, args)
    case FatalProtocolError(x) => x < U32_LIMIT && code < U32_LIMIT && Utf8.Valid(text)
    case RoundtripDone(k) => k < U32_LIMIT
  }

  lemma OneField(f: Field)
    ensures FieldsBytes([f]) == FieldBytes(f)
  {
    assert FieldsBytes([]) == [];
  }

  lemma TwoFields(f: Field, g: Field)
    ensures FieldsBytes([f, g]) == FieldBytes(f) + FieldBytes(g)
  {
    assert [f, g][1..] == [g];
    OneField(g);
  }

  lemma ThreeFields(f: Field, g: Field, h: Field)
    ensures FieldsBytes([f, g, h]) == FieldBytes(f) + FieldBytes(g) + FieldBytes(h)
  {
    assert [f, g, h][1..] == [g, h];
    TwoFields(g, h);
  }

  /** The bytes written are those of the frame, and the fds as many as it demands. */
  ghost predicate Lays(e: Encoded, f: Frame) {
    e.Done? && e.data == FrameBytes(f) && |e.fds| == FrameDemand(f)
  }

  lemma BindLayout(p: Name, n: nat, v: nat)
    ensures Lays(ClientBytes(BindProtocol(p, n, v), []), ClientFrame(BindProtocol(p, n, v)))
  {
    ThreeFields(WordField(n), TextField(p), WordField(v));
    assert [BIND_PROTOCOL, UINT] + U32Bytes(n) == [BIND_PROTOCOL] + FieldBytes(WordField(n));
    assert [VARCHAR] + Encode(|p|) + p == FieldBytes(TextField(p));
    assert [UINT] + U32Bytes(v) == FieldBytes(WordField(v));
    Glue([BIND_PROTOCOL], FieldBytes(WordField(n)), [VARCHAR], Encode(|p|), p, [UINT], U32Bytes(v), [END]);
  }

  lemma Glue(k: Bytes, a: Bytes, b: Bytes, c: Bytes, d: Bytes, e: Bytes, f: Bytes, end: Bytes)
    ensures k + a + b + c + d + e + f + end == k + ((a + (b + c + d) + (e + f)) + end)
  {
  }

  lemma FatalLayout(x: nat, code: nat, text: Bytes)
    ensures Lays(ServerBytes(FatalProtocolError(x), [], code, text), ServerFrame(FatalProtocolError(x), code, text))
  {
    ThreeFields(WordField(x), WordField(code), TextField(text));
    assert [FATAL_PROTOCOL_ERROR, UINT] + U32Bytes(x) == [FATAL_PROTOCOL_ERROR] + FieldBytes(WordField(x));
    assert [UINT] + U32Bytes(code) == FieldBytes(WordField(code));
    assert [VARCHAR] + Encode(|text|) + text == FieldBytes(TextField(text));
    GlueFatal([FATAL_PROTOCOL_ERROR], FieldBytes(WordField(x)), [UINT], U32Bytes(code), [VARCHAR], Encode(|text|), text, [END]);
  }

  lemma GlueFatal(k: Bytes, a: Bytes, b: Bytes, c: Bytes, d: Bytes, e: Bytes, f: Bytes, end: Bytes)
    ensures k + a + b + c + d + e + f + end == k + ((a + (b + c) + (d + e + f)) + end)
  {
  }

  lemma ListLayout(ps: seq<Bytes>)
    ensures Lays(ServerBytes(HandshakeProtocols(ps), [], 0, []), ServerFrame(HandshakeProtocols(ps), 0, []))
  {
    OneField(TextArray(Encode(|ps|), Texts(ps)));
    TextsFlat(ps);
  }

  lemma BeginLayout(vs: seq<nat>)
    ensures Lays(ServerBytes(HandshakeBegin(vs), [], 0, []), ServerFrame(HandshakeBegin(vs), 0, []))
  {
    hide Encode, Flat, U32Words;
    OneField(WordArray(UINT, Encode(|vs|), Flat(U32Words(vs))));
  }

  lemma ObjectLayout(n: nat, id: nat)
    ensures Lays(ServerBytes(NewObject(n, id), [], 0, []), ServerFrame(NewObject(n, id), 0, []))
  {
    TwoFields(WordField(id), WordField(n));
  }

  lemma TokenLayout(k: nat)
    ensures Lays(ServerBytes(RoundtripDone(k), [], 0, []), ServerFrame(RoundtripDone(k), 0, []))
    ensures Lays(ClientBytes(RoundtripRequest(k), []), ClientFrame(RoundtripRequest(k)))
    ensures Lays(ClientBytes(HandshakeAck(k), []), ClientFrame(HandshakeAck(k)))
  {
    OneField(WordField(k));
  }

  lemma CallLayout(x: nat, op: nat, ret: Option<nat>, tys: seq<ArgType>, args: seq<CallArg>)
    requires WellTyped(x, op, ret, tys, args)
    ensures Lays(EncodeCall(x, op, ret, ParamsOf(tys), args), Remote(TheCall(x, op, ret, args)))
  {
    hide EncodeCall, TheCall, CallBytes, CallWf, AllSmall, Sendable, FieldsDemand, ParamsOf;
    TypedEncoding(x, op, ret, tys, args);
    CallIsWf(x, op, ret, tys, args);
  }

  lemma ClientLayout(m: CMsg, tys: seq<ArgType>)
    requires ClientTyped(m, tys)
    ensures Lays(ClientBytes(m, tys), ClientFrame(m))
  {
    hide EncodeCall, TheCall, WellTyped, ParamsOf, FieldsBytes;
    match m
    case Sup =>
    case HandshakeAck(v) => TokenLayout(v);
    case BindProtocol(p, n, v) => BindLayout(p, n, v);
    case Request(x, op, ret, args, _) => CallLayout(x, op, RetOf(ret), tys, args);
    case RoundtripRequest(k) => TokenLayout(k);
  }

  lemma ServerLayout(m: SMsg, tys: seq<ArgType>, code: nat, text: Bytes)
    requires ServerTyped(m, tys, code, text)
    ensures Lays(ServerBytes(m, tys, code, text), ServerFrame(m, code, text))
  {
    hide Lays, EncodeCall, TheCall, WellTyped, ParamsOf;
    match m
    case HandshakeBegin(vs) => BeginLayout(vs);
    case HandshakeProtocols(ps) => ListLayout(ps);
    case NewObject(n, id) => ObjectLayout(n, id);
    case Event(x, op, args) => CallLayout(x, op, None, tys, args);
    case FatalProtocolError(x) => FatalLayout(x, code, text);
    case RoundtripDone(k) => TokenLayout(k);
  }

  // ---- values --------------------------------------------------------------------------------------

  lemma WordValue(n: nat)
    requires n < U32_LIMIT
    ensures FieldWf(WordField(n)) && ValOf(WordField(n)) == VWord(n)
  {
    assert At(U32Bytes(n), 0, U32Bytes(n));
    U32RoundTrip(U32Bytes(n), 0, n);
  }

  lemma TextValue(s: Bytes)
    requires Utf8.Valid(s)
    ensures Fits(SText, TextField(s)) && FieldWf(TextField(s)) && ValOf(TextField(s)) == VText(s)
  {
    EncodeIsLeb(|s|);
  }

  lemma {:induction false} WordsValue(us: seq<nat>)
    requires forall i :: 0 <= i < |us| ==> us[i] < U32_LIMIT
    ensures Words(Flat(U32Words(us))) == us
  {
    if us != [] {
      assert us == [us[0]] + us[1..];
      assert U32Words(us)[1..] == U32Words(us[1..]);
      WordsValue(us[1..]);
      var b := Flat(U32Words(us));
      assert b[4..] == Flat(U32Words(us[1..]));
      U32RoundTrip(b, 0, us[0]);
    }
  }

  lemma {:induction false} TextsValue(ss: seq<Bytes>)
    ensures Bodies(Texts(ss)) == ss
  {
    if ss != [] {
      assert ss == [ss[0]] + ss[1..];
      assert Texts(ss)[1..] == Texts(ss[1..]);
      TextsValue(ss[1..]);
    }
  }

  lemma VersionsValue(vs: seq<nat>)
    requires |vs| < MAX_VERSIONS && forall i :: 0 <= i < |vs| ==> vs[i] < U32_LIMIT
    ensures var f := WordArray(UINT, Encode(|vs|), Flat(U32Words(vs)));
      Fits(SWords, f) && FieldWf(f) && ValOf(f) == VWords(vs)
  {
    EncodeIsLeb(|vs|);
    FlatLength(U32Words(vs));
    WordsValue(vs);
  }

  lemma NamesValue(ps: seq<Bytes>)
    requires |ps| < MAX_PROTOCOLS && AllStrings(ps)
    ensures var f := TextArray(Encode(|ps|), Texts(ps));
      Fits(STexts, f) && FieldWf(f) && ValOf(f) == VTexts(ps)
  {
    EncodeIsLeb(|ps|);
    forall i | 0 <= i < |ps| ensures TextWf(Texts(ps)[i]) { EncodeIsLeb(|ps[i]|); }
    TextsValue(ps);
  }

  lemma ValsOne(f: Field)
    ensures ValsOf([f]) == [ValOf(f)]
  {
  }

  lemma ValsTwo(f: Field, g: Field)
    ensures ValsOf([f, g]) == [ValOf(f), ValOf(g)]
  {
    assert [f, g][1..] == [g];
  }

  lemma ValsThree(f: Field, g: Field, h: Field)
    ensures ValsOf([f, g, h]) == [ValOf(f), ValOf(g), ValOf(h)]
  {
    assert [f, g, h][1..] == [g, h];
    ValsTwo(g, h);
  }

  // ---- what arrives ------------------------------------------------------------------------------------

  /** The receiver, who knows the method's types, reads this request out of a frame. */
  ghost predicate CallArrived(g: Generic, x: nat, op: nat, ret: Option<nat>, tys: seq<ArgType>, args: seq<CallArg>) {
    && g.object_ == x && g.op == op && DataSpan(g) != []
    && Decode(ret.Some?, tys, DataSpan(g), g.fds) == Some((ret, Read(args, |DataSpan(g)| - 1, |g.fds|)))
  }

  ghost predicate ClientMeant(msg: Msg, m: CMsg, tys: seq<ArgType>) {
    match m
    case Sup => msg == Hello
    case HandshakeAck(v) => msg == Fields(HANDSHAKE_ACK, [VWord(v)])
    case BindProtocol(p, n, v) => msg == Fields(BIND_PROTOCOL, [VWord(n), VText(p), VWord(v)])
    case Request(x, op, ret, args, _) => msg.ForObject? && CallArrived(msg.g, x, op, RetOf(ret), tys, args)
    case RoundtripRequest(k) => msg == Fields(ROUNDTRIP_REQUEST, [VWord(k)])
  }

  ghost predicate ServerMeant(msg: Msg, m: SMsg, tys: seq<ArgType>, code: nat, text: Bytes) {
    match m
    case HandshakeBegin(vs) => msg == Fields(HANDSHAKE_BEGIN, [VWords(vs)])
    case HandshakeProtocols(ps) => msg == Fields(HANDSHAKE_PROTOCOLS, [VTexts(ps)])
    case NewObject(n, id) => msg == Fields(NEW_OBJECT, [VWord(id), VWord(n)])
    case Event(x, op, args) => msg.ForObject? && CallArrived(msg.g, x, op, None, tys, args)
    case FatalProtocolError(x) => msg == Fields(FATAL_PROTOCOL_ERROR, [VWord(x), VWord(code), VText(text)])
    case RoundtripDone(k) => msg == Fields(ROUNDTRIP_DONE, [VWord(k)])
  }

  lemma RemoteMeant(x: nat, op: nat, ret: Option<nat>, tys: seq<ArgType>, args: seq<CallArg>, after: seq<int>)
    requires WellTyped(x, op, ret, tys, args) && Sendable(args)
    ensures var k := TheCall(x, op, ret, args);
      && CallWf(k) && AllSmall(k.fields) && FieldsDemand(k.fields) == |AllFds(args)|
      && CallArrived(Accepted(k, AllFds(args) + after), x, op, ret, tys, args)
  {
    CallIsWf(x, op, ret, tys, args);
    var k := TheCall(x, op, ret, args);
    SpanOfCall(k, AllFds(args) + after);
    SpanDecoded(x, op, ret, tys, args);
    assert (AllFds(args) + after)[..|AllFds(args)|] == AllFds(args);
  }

  /** A client message is a well-formed frame for the server and means itself there. */
  lemma ClientFrameMeans(m: CMsg, tys: seq<ArgType>, after: seq<int>)
    requires ClientTyped(m, tys) && !Unparsable(m)
    ensures var f := ClientFrame(m);
      && FrameWf(ServerSide, f) && ClientBytes(m, tys).Done?
      && FrameDemand(f) == |ClientBytes(m, tys).fds|
      && ClientMeant(MsgOf(f, ClientBytes(m, tys).fds + after), m, tys)
  {
    ClientLayout(m, tys);
    match m
    case Sup =>
    case HandshakeAck(v) => WordValue(v); ValsOne(WordField(v));
    case BindProtocol(p, n, v) =>
      WordValue(n); TextValue(p); WordValue(v);
      ValsThree(WordField(n), TextField(p), WordField(v));
    case Request(x, op, ret, args, _) =>
      TypedEncoding(x, op, RetOf(ret), tys, args);
      RemoteMeant(x, op, RetOf(ret), tys, args, after);
    case RoundtripRequest(k) => WordValue(k); ValsOne(WordField(k));
  }

  lemma ServerFrameMeans(m: SMsg, tys: seq<ArgType>, code: nat, text: Bytes, after: seq<int>)
    requires ServerTyped(m, tys, code, text) && !Unspeakable(m)
    ensures var f := ServerFrame(m, code, text); var e := ServerBytes(m, tys, code, text);
      && FrameWf(ClientSide, f) && e.Done? && FrameDemand(f) == |e.fds|
      && ServerMeant(MsgOf(f, e.fds + after), m, tys, code, text)
  {
    hide ServerMeant, ServerFrame, ServerBytes, FrameWf, FrameBytes, MsgOf, TheCall;
    ServerLayout(m, tys, code, text);
    match m
    case Event(x, op, args) => EventMeans(x, op, tys, args, code, text, after);
    case _ => ServerValues(m, tys, code, text, ServerBytes(m, tys, code, text).fds + after);
  }

  lemma EventMeans(x: nat, op: nat, tys: seq<ArgType>, args: seq<CallArg>, code: nat, text: Bytes, after: seq<int>)
    requires WellTyped(x, op, None, tys, args) && Sendable(args)
    ensures var m := Event(x, op, args); var f := ServerFrame(m, code, text); var e := ServerBytes(m, tys, code, text);
      && FrameWf(ClientSide, f) && e.Done? && FrameDemand(f) <= |e.fds + after|
      && ServerMeant(MsgOf(f, e.fds + after), m, tys, code, text)
  {
    hide WellTyped, Sendable, AllSmall, EncodeCall;
    CallEncoding(x, op, None, tys, args);
    RemoteMeant(x, op, None, tys, args, after);
  }

  lemma CallEncoding(x: nat, op: nat, ret: Option<nat>, tys: seq<ArgType>, args: seq<CallArg>)
    requires WellTyped(x, op, ret, tys, args)
    ensures EncodeCall(x, op, ret, ParamsOf(tys), args) == Done(CallBytes(TheCall(x, op, ret, args)), AllFds(args))
  {
    TypedEncoding(x, op, ret, tys, args);
  }

  /** The messages without arguments of a method. */
  lemma ServerValues(m: SMsg, tys: seq<ArgType>, code: nat, text: Bytes, fds: seq<int>)
    requires !m.Event? && ServerTyped(m, tys, code, text) && !Unspeakable(m)
    ensures var f := ServerFrame(m, code, text);
      FrameWf(ClientSide, f) && ServerMeant(MsgOf(f, fds), m, tys, code, text)
  {
    hide FieldWf, ValOf;
    match m
    case HandshakeBegin(vs) => VersionsValue(vs); ValsOne(WordArray(UINT, Encode(|vs|), Flat(U32Words(vs))));
    case HandshakeProtocols(ps) => NamesValue(ps); ValsOne(TextArray(Encode(|ps|), Texts(ps)));
    case NewObject(n, id) => WordValue(id); WordValue(n); ValsTwo(WordField(id), WordField(n));
    case FatalProtocolError(x) =>
      WordValue(x); WordValue(code); TextValue(text);
      ValsThree(WordField(x), WordField(code), TextField(text));
    case RoundtripDone(k) => WordValue(k); ValsOne(WordField(k));
  }

  // ---- what is refused ---------------------------------------------------------------------------------

  /** The bytes of a message the model's server gives up over make its parser fail, whatever
      follows them. */
  lemma ClientRefused(m: CMsg, tys: seq<ArgType>, data: Bytes, i: nat, after: seq<int>)
    requires ClientTyped(m, tys) && Unparsable(m)
    requires ClientBytes(m, tys).Done? && At(data, i, ClientBytes(m, tys).data)
    ensures i < |data| && TakeOne(ServerSide, data, ClientBytes(m, tys).fds + after, i).Err?
  {
    hide At, FromBytes, ReadFixed, EncodeCall, WellTyped, Utf8.Valid;
    match m
    case BindProtocol(p, n, v) => BindAcceptedIff(p, n, v, data, i, ClientBytes(m, tys).fds + after);
    case Request(x, op, ret, args, _) => CallRefused(ServerSide, x, op, RetOf(ret), tys, args, data, i, after);
  }

  lemma CallRefused(role: Role, x: nat, op: nat, ret: Option<nat>, tys: seq<ArgType>, args: seq<CallArg>,
                    data: Bytes, i: nat, after: seq<int>)
    requires WellTyped(x, op, ret, tys, args) && !Sendable(args)
    requires var e := EncodeCall(x, op, ret, ParamsOf(tys), args); e.Done? && At(data, i, e.data)
    ensures var e := EncodeCall(x, op, ret, ParamsOf(tys), args);
      i < |data| && TakeOne(role, data, e.fds + after, i) == Err(ArrayTooLong)
  {
    hide WellTyped, Sendable, At, EncodeCall, FromBytes, Received;
    EndToEnd.EndToEnd(x, op, ret, tys, args, data, i, after);
    CallEncoding(x, op, ret, tys, args);
    CallSize(TheCall(x, op, ret, args));
    AtInside(data, i, CallBytes(TheCall(x, op, ret, args)));
    AtByte(data, i, CallBytes(TheCall(x, op, ret, args)), 0);
    assert data[i] == GENERIC;
  }

  /** Likewise for the client: version negotiation, and the lengths of lists and arrays. */
  lemma ServerRefused(m: SMsg, tys: seq<ArgType>, code: nat, text: Bytes, data: Bytes, i: nat, after: seq<int>)
    requires ServerTyped(m, tys, code, text) && Unspeakable(m)
    requires var e := ServerBytes(m, tys, code, text); e.Done? && At(data, i, e.data)
    ensures i < |data| && TakeOne(ClientSide, data, ServerBytes(m, tys, code, text).fds + after, i).Err?
  {
    hide At, FromBytes, EncodeCall, WellTyped, TakeOne;
    var fds := ServerBytes(m, tys, code, text).fds + after;
    match m
    case HandshakeBegin(vs) =>
      if |vs| >= MAX_VERSIONS {
        ListBytes(HANDSHAKE_BEGIN, UINT, Encode(|vs|), Flat(U32Words(vs)));
        CountRefused(HANDSHAKE_BEGIN, UINT, |vs|, Flat(U32Words(vs)) + [END], data, i, fds);
      } else {
        NotNegotiated(vs, data, i, fds);
      }
    case HandshakeProtocols(ps) =>
      ListBytes(HANDSHAKE_PROTOCOLS, VARCHAR, Encode(|ps|), Flat(CountedStrings(ps)));
      CountRefused(HANDSHAKE_PROTOCOLS, VARCHAR, |ps|, Flat(CountedStrings(ps)) + [END], data, i, fds);
    case Event(x, op, args) => CallRefused(ClientSide, x, op, None, tys, args, data, i, after);
  }

  lemma ListBytes(kind: byte, element: byte, count: Bytes, body: Bytes)
    ensures [kind, ARRAY, element] + count + body + [END] == [kind] + ([ARRAY, element] + (count + (body + [END])))
  {
  }

  /** A list that counts too many entries fails on its count. */
  lemma CountRefused(kind: byte, element: byte, n: nat, rest: Bytes, data: Bytes, i: nat, fds: seq<int>)
    requires (kind == HANDSHAKE_BEGIN && element == UINT && n >= MAX_VERSIONS)
             || (kind == HANDSHAKE_PROTOCOLS && element == VARCHAR && n >= MAX_PROTOCOLS)
    requires At(data, i, [kind] + ([ARRAY, element] + (Encode(n) + rest)))
    ensures i < |data| && TakeOne(ClientSide, data, fds, i).Err?
  {
    hide At, GetWords, GetTexts, ParseAt, Encode;
    AtByte(data, i, [kind] + ([ARRAY, element] + (Encode(n) + rest)), 0);
    AtInside(data, i, [kind] + ([ARRAY, element] + (Encode(n) + rest)));
    AtConcat(data, i, [kind], [ARRAY, element] + (Encode(n) + rest));
    EncodeIsLeb(n);
    CountScanned(data, i + 1, element, Encode(n), rest);
    assert ReadFields(Shapes(kind), data, i + 1).Err?;
  }

  lemma AtInside(data: Bytes, i: nat, s: Bytes)
    requires At(data, i, s) && s != []
    ensures i < |data|
  {
  }

  lemma NotNegotiated(vs: seq<nat>, data: Bytes, i: nat, fds: seq<int>)
    requires |vs| < MAX_VERSIONS && SPOKEN !in vs && forall k :: 0 <= k < |vs| ==> vs[k] < U32_LIMIT
    requires At(data, i, ServerBytes(HandshakeBegin(vs), [], 0, []).data)
    ensures i < |data| && TakeOne(ClientSide, data, fds, i) == Err(VersionNegotiationFailed)
  {
    BeginLayout(vs);
    VersionsValue(vs);
    ValsOne(WordArray(UINT, Encode(|vs|), Flat(U32Words(vs))));
    PlainRead(data, i, Plain(HANDSHAKE_BEGIN, [WordArray(UINT, Encode(|vs|), Flat(U32Words(vs)))]));
  }

  // ---- batches --------------------------------------------------------------------------------------------

  /** A message with what its encoding needs besides: the types of its method's parameters,
      and the code and text of a fatal error. */
  datatype Outgoing<M> = Outgoing(msg: M, tys: seq<ArgType>, code: nat, text: Bytes)

  function EncodeBoth(a: Encoded, b: Encoded): Encoded {
    if a.Done? then Prepend(a.data, a.fds, b) else a
  }

  /** Everything written to the socket for a run of client messages. */
  function ClientStream(ms: seq<Outgoing<CMsg>>): Encoded {
    if ms == [] then Done([], [])
    else EncodeBoth(ClientBytes(ms[0].msg, ms[0].tys), ClientStream(ms[1..]))
  }

  function ServerStream(ms: seq<Outgoing<SMsg>>): Encoded {
    if ms == [] then Done([], [])
    else EncodeBoth(ServerBytes(ms[0].msg, ms[0].tys, ms[0].code, ms[0].text), ServerStream(ms[1..]))
  }

  /** A message is taken off the front of a stream, and the rest of the stream stands behind it. */
  lemma StreamStep(role: Role, data: Bytes, i: nat, f: Frame, e: Encoded, rest: Encoded)
    requires FrameWf(role, f) && Lays(e, f) && rest.Done?
    requires At(data, i, e.data + rest.data) && i + |e.data| + |rest.data| == |data|
    ensures i < |data| && At(data, i + |e.data|, rest.data)
    ensures HandleFrom(role, data, e.fds + rest.fds, i) ==
            var h := HandleFrom(role, data, rest.fds, i + |e.data|);
            Outcome([MsgOf(f, e.fds + rest.fds)] + h.handled, h.error)
  {
    hide FieldBytes, FieldWf, ReadField, ValOf, FrameWf, MsgOf, FrameBytes, TakeOne;
    AtConcat(data, i, e.data, rest.data);
    FrameTaken(role, data, e.fds + rest.fds, i, f);
    assert (e.fds + rest.fds)[|e.fds|..] == rest.fds;
  }

  /** The messages before the first one that is refused were handled, each meaning the one
      sent; the loop ended with an error exactly if there is one that is refused. */
  ghost predicate ClientHandled(ms: seq<Outgoing<CMsg>>, h: Outcome) {
    && |h.handled| <= |ms| && (h.error == None <==> |h.handled| == |ms|)
    && (|h.handled| < |ms| ==> Unparsable(ms[|h.handled|].msg))
    && forall k :: 0 <= k < |h.handled| ==> !Unparsable(ms[k].msg) && ClientMeant(h.handled[k], ms[k].msg, ms[k].tys)
  }

  ghost predicate ServerHandled(ms: seq<Outgoing<SMsg>>, h: Outcome) {
    && |h.handled| <= |ms| && (h.error == None <==> |h.handled| == |ms|)
    && (|h.handled| < |ms| ==> Unspeakable(ms[|h.handled|].msg))
    && forall k :: 0 <= k < |h.handled| ==>
         !Unspeakable(ms[k].msg) && ServerMeant(h.handled[k], ms[k].msg, ms[k].tys, ms[k].code, ms[k].text)
  }

  /** The stream stands at `i` and ends with the buffer. */
  ghost predicate StreamAt(data: Bytes, i: nat, e: Encoded) {
    e.Done? && At(data, i, e.data) && i + |e.data| == |data|
  }

  /** Taking the first message of a stream; its frame is `f`. */
  lemma StreamHead(role: Role, data: Bytes, i: nat, f: Frame, e: Encoded, rest: Encoded) returns (msg: Msg)
    requires FrameWf(role, f) && Lays(e, f) && rest.Done?
    requires StreamAt(data, i, EncodeBoth(e, rest))
    ensures msg == MsgOf(f, e.fds + rest.fds) && StreamAt(data, i + |e.data|, rest)
    ensures HandleFrom(role, data, EncodeBoth(e, rest).fds, i) ==
            Outcome([msg] + HandleFrom(role, data, rest.fds, i + |e.data|).handled,
                    HandleFrom(role, data, rest.fds, i + |e.data|).error)
  {
    StreamStep(role, data, i, f, e, rest);
    msg := MsgOf(f, e.fds + rest.fds);
  }

  lemma ClientHead(o: Outgoing<CMsg>, data: Bytes, i: nat, rest: Encoded) returns (msg: Msg, next: nat)
    requires ClientTyped(o.msg, o.tys) && !Unparsable(o.msg) && rest.Done?
    requires StreamAt(data, i, EncodeBoth(ClientBytes(o.msg, o.tys), rest))
    ensures StreamAt(data, next, rest) && ClientMeant(msg, o.msg, o.tys)
    ensures var h := HandleFrom(ServerSide, data, rest.fds, next);
      HandleFrom(ServerSide, data, EncodeBoth(ClientBytes(o.msg, o.tys), rest).fds, i) ==
      Outcome([msg] + h.handled, h.error)
  {
    hide *;
    ClientLayout(o.msg, o.tys);
    ClientFrameMeans(o.msg, o.tys, rest.fds);
    msg := StreamHead(ServerSide, data, i, ClientFrame(o.msg), ClientBytes(o.msg, o.tys), rest);
    next := i + |ClientBytes(o.msg, o.tys).data|;
  }

  lemma ServerHead(o: Outgoing<SMsg>, data: Bytes, i: nat, rest: Encoded) returns (msg: Msg, next: nat)
    requires ServerTyped(o.msg, o.tys, o.code, o.text) && !Unspeakable(o.msg) && rest.Done?
    requires StreamAt(data, i, EncodeBoth(ServerBytes(o.msg, o.tys, o.code, o.text), rest))
    ensures StreamAt(data, next, rest) && ServerMeant(msg, o.msg, o.tys, o.code, o.text)
    ensures var h := HandleFrom(ClientSide, data, rest.fds, next);
      HandleFrom(ClientSide, data, EncodeBoth(ServerBytes(o.msg, o.tys, o.code, o.text), rest).fds, i) ==
      Outcome([msg] + h.handled, h.error)
  {
    hide *;
    var e := ServerBytes(o.msg, o.tys, o.code, o.text);
    ServerLayout(o.msg, o.tys, o.code, o.text);
    ServerFrameMeans(o.msg, o.tys, o.code, o.text, rest.fds);
    msg := StreamHead(ClientSide, data, i, ServerFrame(o.msg, o.code, o.text), e, rest);
    next := i + |e.data|;
  }

  lemma {:induction false} ClientStreams(ms: seq<Outgoing<CMsg>>)
    requires forall k :: 0 <= k < |ms| ==> ClientTyped(ms[k].msg, ms[k].tys)
    ensures ClientStream(ms).Done?
  {
    hide ClientTyped, ClientBytes, ClientFrame;
    if ms != [] {
      ClientLayout(ms[0].msg, ms[0].tys);
      ClientStreams(ms[1..]);
    }
  }

  lemma {:induction false} ServerStreams(ms: seq<Outgoing<SMsg>>)
    requires forall k :: 0 <= k < |ms| ==> ServerTyped(ms[k].msg, ms[k].tys, ms[k].code, ms[k].text)
    ensures ServerStream(ms).Done?
  {
    hide ServerTyped, ServerBytes, ServerFrame;
    if ms != [] {
      ServerLayout(ms[0].msg, ms[0].tys, ms[0].code, ms[0].text);
      ServerStreams(ms[1..]);
    }
  }

  /** The first of two streams stands where both do. */
  lemma FirstOfBoth(data: Bytes, i: nat, e: Encoded, rest: Encoded)
    requires e.Done? && rest.Done? && StreamAt(data, i, EncodeBoth(e, rest))
    ensures At(data, i, e.data) && EncodeBoth(e, rest).fds == e.fds + rest.fds
  {
    AtConcat(data, i, e.data, rest.data);
  }

  /** Every run of client messages, written to the socket one after the other, is handled by
      the server as that run, up to the first message it refuses. */
  lemma {:induction false} ClientBatchArrives(ms: seq<Outgoing<CMsg>>, data: Bytes, i: nat)
    requires forall k :: 0 <= k < |ms| ==> ClientTyped(ms[k].msg, ms[k].tys)
    requires StreamAt(data, i, ClientStream(ms))
    ensures ClientHandled(ms, HandleFrom(ServerSide, data, ClientStream(ms).fds, i))
    decreases |ms|
  {
    hide ClientTyped, ClientBytes, ClientFrame, TakeOne, ClientMeant, Unparsable;
    if ms != [] {
      ClientStreams(ms[1..]);
      if Unparsable(ms[0].msg) {
        ClientLayout(ms[0].msg, ms[0].tys);
        FirstOfBoth(data, i, ClientBytes(ms[0].msg, ms[0].tys), ClientStream(ms[1..]));
        ClientRefused(ms[0].msg, ms[0].tys, data, i, ClientStream(ms[1..]).fds);
      } else {
        var msg, next := ClientHead(ms[0], data, i, ClientStream(ms[1..]));
        ClientBatchArrives(ms[1..], data, next);
      }
    }
  }

  /** The same from server to client. */
  lemma {:induction false} ServerBatchArrives(ms: seq<Outgoing<SMsg>>, data: Bytes, i: nat)
    requires forall k :: 0 <= k < |ms| ==> ServerTyped(ms[k].msg, ms[k].tys, ms[k].code, ms[k].text)
    requires StreamAt(data, i, ServerStream(ms))
    ensures ServerHandled(ms, HandleFrom(ClientSide, data, ServerStream(ms).fds, i))
    decreases |ms|
  {
    hide ServerTyped, ServerBytes, ServerFrame, TakeOne, ServerMeant, Unspeakable;
    if ms != [] {
      var o := ms[0];
      ServerStreams(ms[1..]);
      if Unspeakable(o.msg) {
        ServerLayout(o.msg, o.tys, o.code, o.text);
        FirstOfBoth(data, i, ServerBytes(o.msg, o.tys, o.code, o.text), ServerStream(ms[1..]));
        ServerRefused(o.msg, o.tys, o.code, o.text, data, i, ServerStream(ms[1..]).fds);
      } else {
        var msg, next := ServerHead(o, data, i, ServerStream(ms[1..]));
        ServerBatchArrives(ms[1..], data, next);
      }
    }
  }

  /** The client's spec table after HandshakeProtocols is the list the server formatted,
      in order, for names with any bytes in them. */
  lemma AdvertsArrive(specs: seq<Advert>, data: Bytes, i: nat, fds: seq<int>)
    requires |specs| < MAX_PROTOCOLS && forall a :: a in specs ==> a.version < U32_LIMIT && Utf8.Valid(a.name)
    requires At(data, i, ServerBytes(HandshakeProtocols(Adverts.FormatAll(specs)), [], 0, []).data)
    ensures i < |data|
    ensures var t := TakeOne(ClientSide, data, fds, i);
      && t.Ok? && t.value.left == fds
      && exists ps :: t.value.msg == Fields(HANDSHAKE_PROTOCOLS, [VTexts(ps)]) && Adverts.ParseAll(ps) == specs
  {
    FormattedStrings(specs);
    NamesArrive(Adverts.FormatAll(specs), data, i, fds);
    Adverts.AdvertisedRoundTrip(specs);
  }

  lemma {:induction false} FormattedStrings(specs: seq<Advert>)
    requires forall a :: a in specs ==> Utf8.Valid(a.name)
    ensures AllStrings(Adverts.FormatAll(specs))
  {
    if specs != [] {
      FormattedStrings(specs[1..]);
      var a := specs[0];
      Utf8.AsciiValid([Adverts.AT] + Adverts.Digits(a.version));
      Utf8.ValidJoins(a.name, [Adverts.AT] + Adverts.Digits(a.version));
      assert Adverts.Format(a) == a.name + ([Adverts.AT] + Adverts.Digits(a.version));
    }
  }

  lemma NamesArrive(ps: seq<Bytes>, data: Bytes, i: nat, fds: seq<int>)
    requires |ps| < MAX_PROTOCOLS && AllStrings(ps) && At(data, i, ServerBytes(HandshakeProtocols(ps), [], 0, []).data)
    ensures i < |data|
    ensures TakeOne(ClientSide, data, fds, i) ==
            Ok(Turn(Fields(HANDSHAKE_PROTOCOLS, [VTexts(ps)]), i + |ServerBytes(HandshakeProtocols(ps), [], 0, []).data|, fds))
  {
    ListLayout(ps);
    NamesValue(ps);
    ValsOne(TextArray(Encode(|ps|), Texts(ps)));
    PlainRead(data, i, Plain(HANDSHAKE_PROTOCOLS, [TextArray(Encode(|ps|), Texts(ps))]));
  }

  /** A bind is accepted if and only if its version is not 0; `Client::bind` does not check
      that, the server's parser does. */
  lemma BindAcceptedIff(p: Name, n: nat, v: nat, data: Bytes, i: nat, fds: seq<int>)
    requires Utf8.Valid(p) && n < U32_LIMIT && v < U32_LIMIT
    requires At(data, i, ClientBytes(BindProtocol(p, n, v), []).data)
    ensures i < |data|
    ensures TakeOne(ServerSide, data, fds, i) ==
            if v == 0 then Err(InvalidVersion)
            else Ok(Turn(Fields(BIND_PROTOCOL, [VWord(n), VText(p), VWord(v)]), i + |ClientBytes(BindProtocol(p, n, v), []).data|, fds))
  {
    hide FieldBytes, PlainBytes, ReadFixed, AllFit, ValsOf;
    BindLayout(p, n, v);
    var b := Plain(BIND_PROTOCOL, [WordField(n), TextField(p), WordField(v)]);
    BindFields(p, n, v);
    if v == 0 { PlainRefused(data, i, b); } else { PlainRead(data, i, b); }
  }

  lemma BindFields(p: Name, n: nat, v: nat)
    requires Utf8.Valid(p) && n < U32_LIMIT && v < U32_LIMIT
    ensures var fs := [WordField(n), TextField(p), WordField(v)];
      AllFit(Shapes(BIND_PROTOCOL), fs) && ValsOf(fs) == [VWord(n), VText(p), VWord(v)]
  {
    WordValue(n);
    TextValue(p);
    WordValue(v);
    ValsThree(WordField(n), TextField(p), WordField(v));
  }

  lemma PlainRefused(data: Bytes, i: nat, b: Plain)
    requires At(data, i, PlainBytes(b)) && AllFit(Shapes(b.kind), b.fields) && Refused(b.kind, ValsOf(b.fields))
    ensures i < |data| && data[i] == b.kind && ReadFixed(b.kind, data, i) == Err(InvalidVersion)
  {
    AtConcat(data, i, [b.kind], FieldsBytes(b.fields) + [END]);
    AtConcat(data, i + 1, FieldsBytes(b.fields), [END]);
    AtByte(data, i, [b.kind], 0);
    FieldsRead(Shapes(b.kind), data, i + 1, b.fields);
  }
}
