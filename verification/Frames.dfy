// The message kinds of hyprwire-core/src/message/mod.rs:11-64 and the parsers of the fixed
// ones: hyprwire-core/src/message/wire/{hello,handshake_begin,handshake_ack,
// handshake_protocols,bind_protocol,new_object,fatal_protocol_error,roundtrip_request,
// roundtrip_done}.rs.
module Frames {
  import opened Types
  import opened VarInt
  import opened Payload
  import opened Scanning
  import Utf8

  const SUP: byte := 1
  const HANDSHAKE_BEGIN: byte := 2
  const HANDSHAKE_ACK: byte := 3
  const HANDSHAKE_PROTOCOLS: byte := 4
  const BIND_PROTOCOL: byte := 10
  const NEW_OBJECT: byte := 11
  const FATAL_PROTOCOL_ERROR: byte := 12
  const ROUNDTRIP_REQUEST: byte := 13
  const ROUNDTRIP_DONE: byte := 14

  const VAX: Bytes := [86, 65, 88]

  /** The field kinds of the fixed messages. */
  datatype Shape = SWord | SText | SWords | STexts

  datatype Val = VWord(n: nat) | VText(s: Bytes) | VWords(us: seq<nat>) | VTexts(ss: seq<Bytes>)

  /** Field kinds of a message in order.  HandshakeBegin and HandshakeProtocols are one
      counted array each; NewObject holds the id before the sequence number. */
  function Shapes(kind: byte): seq<Shape> {
    if kind == HANDSHAKE_BEGIN then [SWords]
    else if kind == HANDSHAKE_PROTOCOLS then [STexts]
    else if kind == BIND_PROTOCOL then [SWord, SText, SWord]
    else if kind == NEW_OBJECT then [SWord, SWord]
    else if kind == FATAL_PROTOCOL_ERROR then [SWord, SWord, SText]
    else [SWord]
  }

  predicate Fixed(kind: byte) {
    HANDSHAKE_BEGIN <= kind <= HANDSHAKE_PROTOCOLS || BIND_PROTOCOL <= kind <= ROUNDTRIP_DONE
  }

  // ---- parsing ------------------------------------------------------------------------------

  /** A value and the position behind it. */
  datatype Got<+T> = Got(value: T, next: nat)

  /** Values read before the ones in `rest`. */
  function Joined<T>(done: seq<T>, rest: Result<Got<seq<T>>>): Result<Got<seq<T>>> {
    if rest.Err? then rest else Ok(Got(done + rest.value.value, rest.value.next))
  }

  lemma JoinedNone<T>(rest: Result<Got<seq<T>>>)
    ensures Joined([], rest) == rest
  {
    if rest.Ok? { assert [] + rest.value.value == rest.value.value; }
  }

  lemma JoinedAll<T>(done: seq<T>, next: nat)
    ensures Joined(done, Ok(Got([], next))) == Ok(Got(done, next))
  {
    assert done + [] == done;
  }

  lemma JoinedMore<T>(done: seq<T>, x: T, rest: Result<Got<seq<T>>>)
    ensures Joined(done, Joined([x], rest)) == Joined(done + [x], rest)
  {
    if rest.Ok? { assert done + ([x] + rest.value.value) == done + [x] + rest.value.value; }
  }

  function Expect(data: Bytes, i: nat, b: byte, other: Error): Option<Error> {
    if i >= |data| then Some(UnexpectedEof) else if data[i] != b then Some(other) else None
  }

  function GetText(data: Bytes, i: nat): Result<Got<Bytes>> {
    var v := ParseAt(data, i);
    if i + v.len + v.value > |data| then Err(UnexpectedEof)
    else if !Utf8.Valid(data[i + v.len..i + v.len + v.value]) then Err(MalformedMessage)
    else Ok(Got(data[i + v.len..i + v.len + v.value], i + v.len + v.value))
  }

  function GetWords(data: Bytes, i: nat, n: nat): Result<Got<seq<nat>>>
    decreases n
  {
    if n == 0 then Ok(Got([], i))
    else
      var w := ReadU32(data, i);
      if w.Err? then Err(w.error) else Joined([w.value], GetWords(data, i + 4, n - 1))
  }

  function GetTexts(data: Bytes, i: nat, n: nat): Result<Got<seq<Bytes>>>
    decreases n
  {
    if n == 0 then Ok(Got([], i))
    else if i >= |data| then Err(UnexpectedEof)
    else
      var t := GetText(data, i);
      if t.Err? then Err(t.error) else Joined([t.value.value], GetTexts(data, t.value.next, n - 1))
  }

  function ReadWord(data: Bytes, i: nat): Result<Got<Val>> {
    var bad := Expect(data, i, UINT, InvalidFieldType);
    if bad.Some? then Err(bad.value)
    else
      var w := ReadU32(data, i + 1);
      if w.Err? then Err(w.error) else Ok(Got(VWord(w.value), i + 5))
  }

  function ReadText(data: Bytes, i: nat): Result<Got<Val>> {
    var bad := Expect(data, i, VARCHAR, InvalidFieldType);
    if bad.Some? then Err(bad.value)
    else
      var t := GetText(data, i + 1);
      if t.Err? then Err(t.error) else Ok(Got(VText(t.value.value), t.value.next))
  }

  function ArrayHead(data: Bytes, i: nat, element: byte): Option<Error> {
    var bad := Expect(data, i, ARRAY, InvalidFieldType);
    if bad.Some? then bad else Expect(data, i + 1, element, InvalidFieldType)
  }

  function ReadWords(data: Bytes, i: nat): Result<Got<Val>> {
    var bad := ArrayHead(data, i, UINT);
    if bad.Some? then Err(bad.value)
    else
      var n := ParseAt(data, i + 2);
      if n.value >= MAX_VERSIONS then Err(TooManyVersions)
      else
        var us := GetWords(data, i + 2 + n.len, n.value);
        if us.Err? then Err(us.error) else Ok(Got(VWords(us.value.value), us.value.next))
  }

  function ReadTexts(data: Bytes, i: nat): Result<Got<Val>> {
    var bad := ArrayHead(data, i, VARCHAR);
    if bad.Some? then Err(bad.value)
    else
      var n := ParseAt(data, i + 2);
      if n.value >= MAX_PROTOCOLS then Err(TooManyProtocols)
      else
        var ts := GetTexts(data, i + 2 + n.len, n.value);
        if ts.Err? then Err(ts.error) else Ok(Got(VTexts(ts.value.value), ts.value.next))
  }

  function ReadField(sh: Shape, data: Bytes, i: nat): Result<Got<Val>> {
    match sh
    case SWord => ReadWord(data, i)
    case SText => ReadText(data, i)
    case SWords => ReadWords(data, i)
    case STexts => ReadTexts(data, i)
  }

  function ReadFields(shapes: seq<Shape>, data: Bytes, i: nat): Result<Got<seq<Val>>>
    decreases |shapes|
  {
    if shapes == [] then Ok(Got([], i))
    else
      var v := ReadField(shapes[0], data, i);
      if v.Err? then Err(v.error) else Joined([v.value.value], ReadFields(shapes[1..], data, v.value.next))
  }

  /** BindProtocol refuses version 0, before it looks for its End byte. */
  predicate Refused(kind: byte, vals: seq<Val>) {
    kind == BIND_PROTOCOL && |vals| == 3 && vals[2] == VWord(0)
  }

  /** `from_bytes` of the fixed messages at a byte that is their kind. */
  function ReadFixed(kind: byte, data: Bytes, offset: nat): Result<Got<seq<Val>>> {
    var vs := ReadFields(Shapes(kind), data, offset + 1);
    if vs.Err? then vs
    else if Refused(kind, vs.value.value) then Err(InvalidVersion)
    else
      var bad := Expect(data, vs.value.next, END, MalformedMessage);
      if bad.Some? then Err(bad.value) else Ok(Got(vs.value.value, vs.value.next + 1))
  }

  const HELLO: Bytes := [SUP, VARCHAR, 3] + VAX + [END]

  function ReadHello(data: Bytes, offset: nat): Result<Got<seq<Val>>> {
    if offset + 7 > |data| then Err(UnexpectedEof)
    else if data[offset..offset + 7] != HELLO then Err(MalformedMessage)
    else Ok(Got([], offset + 7))
  }

  // ---- the parsers as written -----------------------------------------------------------------

  /** The counted loop of `HandshakeProtocols::from_bytes`. */
  method CollectTexts(data: Bytes, start: nat, n: nat) returns (r: Result<Got<seq<Bytes>>>)
    ensures r == GetTexts(data, start, n)
  {
    hide Utf8.Valid, ParseAt;
    var texts: seq<Bytes> := [];
    var needle: nat := start;
    JoinedNone(GetTexts(data, start, n));
    for k := 0 to n
      invariant GetTexts(data, start, n) == Joined(texts, GetTexts(data, needle, n - k))
    {
      if needle >= |data| { return Err(UnexpectedEof); }
      var len, width := ParseVarInt(data, needle);
      needle := needle + width;
      if needle + len > |data| { return Err(UnexpectedEof); }
      if !Utf8.Valid(data[needle..needle + len]) { return Err(MalformedMessage); }
      JoinedMore(texts, data[needle..needle + len], GetTexts(data, needle + len, n - k - 1));
      texts := texts + [data[needle..needle + len]];
      needle := needle + len;
    }
    JoinedAll(texts, needle);
    return Ok(Got(texts, needle));
  }

  /** The version list of `HandshakeBegin::from_bytes`. */
  method CollectWords(data: Bytes, start: nat, n: nat) returns (r: Result<Got<seq<nat>>>)
    ensures r == GetWords(data, start, n)
  {
    var words: seq<nat> := [];
    JoinedNone(GetWords(data, start, n));
    for k := 0 to n
      invariant GetWords(data, start, n) == Joined(words, GetWords(data, start + 4 * k, n - k))
    {
      var w := ReadU32(data, start + 4 * k);
      if w.Err? { return Err(w.error); }
      JoinedMore(words, w.value, GetWords(data, start + 4 * k + 4, n - k - 1));
      words := words + [w.value];
    }
    JoinedAll(words, start + 4 * n);
    return Ok(Got(words, start + 4 * n));
  }

  method ParseField(sh: Shape, data: Bytes, i: nat) returns (r: Result<Got<Val>>)
    ensures r == ReadField(sh, data, i)
  {
    match sh
    case SWord => r := ReadWord(data, i);
    case SText => r := ReadText(data, i);
    case SWords =>
      var bad := ArrayHead(data, i, UINT);
      if bad.Some? { return Err(bad.value); }
      var n, width := ParseVarInt(data, i + 2);
      if n >= MAX_VERSIONS { return Err(TooManyVersions); }
      var us := CollectWords(data, i + 2 + width, n);
      if us.Err? { return Err(us.error); }
      r := Ok(Got(VWords(us.value.value), us.value.next));
    case STexts =>
      var bad := ArrayHead(data, i, VARCHAR);
      if bad.Some? { return Err(bad.value); }
      var n, width := ParseVarInt(data, i + 2);
      if n >= MAX_PROTOCOLS { return Err(TooManyProtocols); }
      var ts := CollectTexts(data, i + 2 + width, n);
      if ts.Err? { return Err(ts.error); }
      r := Ok(Got(VTexts(ts.value.value), ts.value.next));
  }

  /** `from_bytes`: the needle walks over the fields to the End byte. */
  method ParseFixed(kind: byte, data: Bytes, offset: nat) returns (r: Result<Got<seq<Val>>>)
    ensures r == ReadFixed(kind, data, offset)
  {
    var shapes := Shapes(kind);
    var vals: seq<Val> := [];
    var needle: nat := offset + 1;
    JoinedNone(ReadFields(shapes, data, offset + 1));
    for k := 0 to |shapes|
      invariant ReadFields(shapes, data, offset + 1) == Joined(vals, ReadFields(shapes[k..], data, needle))
    {
      assert shapes[k..][1..] == shapes[k + 1..];
      var v := ParseField(shapes[k], data, needle);
      if v.Err? { return Err(v.error); }
      JoinedMore(vals, v.value.value, ReadFields(shapes[k + 1..], data, v.value.next));
      vals := vals + [v.value.value];
      needle := v.value.next;
    }
    JoinedAll(vals, needle);
    if Refused(kind, vals) { return Err(InvalidVersion); }
    if needle >= |data| { return Err(UnexpectedEof); }
    if data[needle] != END { return Err(MalformedMessage); }
    return Ok(Got(vals, needle + 1));
  }

  // ---- the grammar ------------------------------------------------------------------------------

  /** A fixed message, in the field grammar of the generic ones. */
  datatype Plain = Plain(kind: byte, fields: seq<Field>)

  function PlainBytes(p: Plain): Bytes {
    [p.kind] + (FieldsBytes(p.fields) + [END])
  }

  ghost predicate AllUtf8(ts: seq<Text>) {
    forall k :: 0 <= k < |ts| ==> Utf8.Valid(ts[k].body)
  }

  /** The field is of the shape and under its limit, and its strings are UTF-8. */
  ghost predicate Fits(sh: Shape, f: Field) {
    match sh
    case SWord => f.Word? && f.magic == UINT
    case SText => f.Str? && Utf8.Valid(f.text.body)
    case SWords => f.WordArray? && f.element == UINT && LebValue(f.count) < MAX_VERSIONS
    case STexts => f.TextArray? && LebValue(f.count) < MAX_PROTOCOLS && AllUtf8(f.texts)
  }

  ghost predicate AllFit(shapes: seq<Shape>, fs: seq<Field>) {
    |fs| == |shapes| && forall i :: 0 <= i < |fs| ==> Fits(shapes[i], fs[i]) && FieldWf(fs[i])
  }

  function Words(body: Bytes): seq<nat> {
    if |body| < 4 then [] else [U32At(body, 0)] + Words(body[4..])
  }

  function Bodies(ts: seq<Text>): (ss: seq<Bytes>)
    ensures |ss| == |ts|
  {
    if ts == [] then [] else [ts[0].body] + Bodies(ts[1..])
  }

  function ValOf(f: Field): Val {
    match f
    case Word(_, b) => VWord(if |b| < 4 then 0 else U32At(b, 0))
    case Str(t) => VText(t.body)
    case WordArray(_, _, b) => VWords(Words(b))
    case TextArray(_, ts) => VTexts(Bodies(ts))
    case _ => VText([])
  }

  function ValsOf(fs: seq<Field>): (vs: seq<Val>)
    ensures |vs| == |fs|
  {
    if fs == [] then [] else [ValOf(fs[0])] + ValsOf(fs[1..])
  }

  /** Fields of the kind's shapes, and no version 0. */
  ghost predicate PlainWf(p: Plain) {
    Fixed(p.kind) && AllFit(Shapes(p.kind), p.fields) && !Refused(p.kind, ValsOf(p.fields))
  }

  // ---- every well-formed message is read ----------------------------------------------------------

  lemma {:induction false} WordsRead(data: Bytes, i: nat, b: Bytes, n: nat)
    requires |b| == 4 * n && At(data, i, b)
    ensures GetWords(data, i, n) == Ok(Got(Words(b), i + |b|))
    decreases n
  {
    if n > 0 {
      assert b == b[..4] + b[4..];
      AtConcat(data, i, b[..4], b[4..]);
      WordsRead(data, i + 4, b[4..], n - 1);
      U32Same(data, i, b);
    }
  }

  lemma U32Same(data: Bytes, i: nat, b: Bytes)
    requires |b| >= 4 && At(data, i, b)
    ensures U32At(data, i) == U32At(b, 0)
  {
    AtByte(data, i, b, 0);
    AtByte(data, i, b, 1);
    AtByte(data, i, b, 2);
    AtByte(data, i, b, 3);
  }

  lemma TextRead(data: Bytes, i: nat, t: Text)
    requires TextWf(t) && Utf8.Valid(t.body) && At(data, i, t.len + t.body)
    ensures GetText(data, i) == Ok(Got(t.body, i + |t.len| + |t.body|))
  {
    AtConcat(data, i, t.len, t.body);
    ParseLeb(data, i, t.len);
    AtIsSlice(data, i + |t.len|, t.body);
  }

  lemma {:induction false} TextsRead(data: Bytes, i: nat, ts: seq<Text>)
    requires At(data, i, TextBytes(ts)) && AllUtf8(ts) && forall k :: 0 <= k < |ts| ==> TextWf(ts[k])
    ensures GetTexts(data, i, |ts|) == Ok(Got(Bodies(ts), i + |TextBytes(ts)|))
    decreases |ts|
  {
    hide ParseAt, Utf8.Valid, LebValue;
    if ts != [] {
      AtConcat(data, i, ts[0].len + ts[0].body, TextBytes(ts[1..]));
      TextRead(data, i, ts[0]);
      TextsRead(data, i + |ts[0].len| + |ts[0].body|, ts[1..]);
    }
  }

  lemma WordArrayRead(data: Bytes, i: nat, f: Field)
    requires Fits(SWords, f) && FieldWf(f) && At(data, i, FieldBytes(f))
    ensures ReadWords(data, i) == Ok(Got(ValOf(f), i + |FieldBytes(f)|))
  {
    CountScanned(data, i, UINT, f.count, f.body);
    WordsRead(data, i + 2 + |f.count|, f.body, LebValue(f.count));
  }

  lemma TextArrayRead(data: Bytes, i: nat, f: Field)
    requires Fits(STexts, f) && FieldWf(f) && At(data, i, FieldBytes(f))
    ensures ReadTexts(data, i) == Ok(Got(ValOf(f), i + |FieldBytes(f)|))
  {
    hide ParseAt, Leb, LebValue, GetTexts, Utf8.Valid;
    CountScanned(data, i, VARCHAR, f.count, TextBytes(f.texts));
    TextsRead(data, i + 2 + |f.count|, f.texts);
  }

  lemma FieldRead(sh: Shape, data: Bytes, i: nat, f: Field)
    requires Fits(sh, f) && FieldWf(f) && At(data, i, FieldBytes(f))
    ensures ReadField(sh, data, i) == Ok(Got(ValOf(f), i + |FieldBytes(f)|))
  {
    AtByte(data, i, FieldBytes(f), 0);
    match f
    case Word(m, b) => AtConcat(data, i, [m], b); U32Same(data, i + 1, b);
    case Str(t) => AtConcat(data, i, [VARCHAR], t.len + t.body); TextRead(data, i + 1, t);
    case WordArray(_, _, _) => WordArrayRead(data, i, f);
    case TextArray(_, _) => TextArrayRead(data, i, f);
    case _ =>
  }

  lemma FitRest(shapes: seq<Shape>, fs: seq<Field>)
    requires AllFit(shapes, fs) && fs != []
    ensures Fits(shapes[0], fs[0]) && FieldWf(fs[0]) && AllFit(shapes[1..], fs[1..])
  {
  }

  /** The first field is read, and the others stand behind it. */
  lemma FirstRead(sh: Shape, data: Bytes, i: nat, fs: seq<Field>) returns (j: nat)
    requires fs != [] && Fits(sh, fs[0]) && FieldWf(fs[0]) && At(data, i, FieldsBytes(fs))
    ensures ReadField(sh, data, i) == Ok(Got(ValOf(fs[0]), j))
    ensures At(data, j, FieldsBytes(fs[1..])) && i + |FieldsBytes(fs)| == j + |FieldsBytes(fs[1..])|
  {
    hide FieldBytes, FieldWf, ReadField, ValOf, Fits;
    AtConcat(data, i, FieldBytes(fs[0]), FieldsBytes(fs[1..]));
    FieldRead(sh, data, i, fs[0]);
    j := i + |FieldBytes(fs[0])|;
  }

  lemma {:induction false} FieldsRead(shapes: seq<Shape>, data: Bytes, i: nat, fs: seq<Field>)
    requires AllFit(shapes, fs) && At(data, i, FieldsBytes(fs))
    ensures ReadFields(shapes, data, i) == Ok(Got(ValsOf(fs), i + |FieldsBytes(fs)|))
    decreases |fs|
  {
    hide FieldBytes, FieldWf, ReadField, ValOf, Fits;
    if fs != [] {
      FitRest(shapes, fs);
      var j := FirstRead(shapes[0], data, i, fs);
      FieldsRead(shapes[1..], data, j, fs[1..]);
    }
  }

  /** A well-formed fixed message is read from where it stands, up to its last byte. */
  lemma PlainRead(data: Bytes, i: nat, p: Plain)
    requires PlainWf(p) && At(data, i, PlainBytes(p))
    ensures i < |data| && data[i] == p.kind
    ensures ReadFixed(p.kind, data, i) == Ok(Got(ValsOf(p.fields), i + |PlainBytes(p)|))
  {
    hide FieldBytes, FieldWf, ReadField, ValOf, Fits;
    AtConcat(data, i, [p.kind], FieldsBytes(p.fields) + [END]);
    AtConcat(data, i + 1, FieldsBytes(p.fields), [END]);
    AtByte(data, i, [p.kind], 0);
    AtByte(data, i + 1 + |FieldsBytes(p.fields)|, [END], 0);
    FieldsRead(Shapes(p.kind), data, i + 1, p.fields);
  }

  // ---- everything read is well-formed ---------------------------------------------------------------

  lemma {:induction false} WordsBack(data: Bytes, i: nat, n: nat)
    requires GetWords(data, i, n).Ok?
    ensures n == 0 || i + 4 * n <= |data|
    ensures GetWords(data, i, n).value.next == i + 4 * n
    decreases n
  {
    if n > 0 { WordsBack(data, i + 4, n - 1); }
  }

  /** Texts that end inside the buffer are counted strings. */
  lemma {:induction false} TextsBack(data: Bytes, i: nat, n: nat) returns (ts: seq<Text>)
    requires GetTexts(data, i, n).Ok? && GetTexts(data, i, n).value.next < |data|
    ensures |ts| == n && AllUtf8(ts) && forall k :: 0 <= k < n ==> TextWf(ts[k])
    ensures At(data, i, TextBytes(ts)) && GetTexts(data, i, n).value.next == i + |TextBytes(ts)|
    decreases n
  {
    if n == 0 {
      ts := [];
    } else {
      TextsForward(data, GetText(data, i).value.next, n - 1);
      var t := TextBack(data, i);
      var rest := TextsBack(data, GetText(data, i).value.next, n - 1);
      ts := [t] + rest;
      assert ts[1..] == rest;
      AtConcat(data, i, t.len + t.body, TextBytes(rest));
    }
  }

  lemma {:induction false} TextsForward(data: Bytes, i: nat, n: nat)
    requires GetTexts(data, i, n).Ok?
    ensures GetTexts(data, i, n).value.next >= i
    decreases n
  {
    if n > 0 { TextsForward(data, GetText(data, i).value.next, n - 1); }
  }

  lemma TextBack(data: Bytes, i: nat) returns (t: Text)
    requires GetText(data, i).Ok? && GetText(data, i).value.next < |data|
    ensures TextWf(t) && Utf8.Valid(t.body) && At(data, i, t.len + t.body)
    ensures GetText(data, i).value == Got(t.body, i + |t.len| + |t.body|)
  {
    hide ParseAt, TextWf, Utf8.Valid;
    t := TextParsed(data, i);
  }

  /** The field behind a read that ends inside the buffer. */
  ghost predicate FieldBehind(sh: Shape, data: Bytes, i: nat, next: nat, f: Field) {
    Fits(sh, f) && FieldWf(f) && At(data, i, FieldBytes(f)) && next == i + |FieldBytes(f)|
  }

  lemma WordBack(data: Bytes, i: nat) returns (f: Field)
    requires ReadWord(data, i).Ok? && ReadWord(data, i).value.next < |data|
    ensures FieldBehind(SWord, data, i, ReadWord(data, i).value.next, f)
  {
    f := Word(UINT, data[i + 1..i + 5]);
    AtConcat(data, i, [UINT], data[i + 1..i + 5]);
  }

  lemma StrBack(data: Bytes, i: nat) returns (f: Field)
    requires ReadText(data, i).Ok? && ReadText(data, i).value.next < |data|
    ensures FieldBehind(SText, data, i, ReadText(data, i).value.next, f)
  {
    hide ParseAt, GetText, Utf8.Valid;
    var t := TextBack(data, i + 1);
    AtConcat(data, i, [VARCHAR], t.len + t.body);
    f := Str(t);
  }

  lemma WordArrayBack(data: Bytes, i: nat) returns (f: Field)
    requires ReadWords(data, i).Ok? && ReadWords(data, i).value.next < |data|
    ensures FieldBehind(SWords, data, i, ReadWords(data, i).value.next, f)
  {
    hide Leb, LebValue, ParseAt, At, GetWords;
    var n := ParseAt(data, i + 2);
    WordsBack(data, i + 2 + n.len, n.value);
    var b := data[i + 2 + n.len..i + 2 + n.len + 4 * n.value];
    AtIsSlice(data, i + 2 + n.len, b);
    var count := CountDerived(data, i, b);
    f := WordArray(UINT, count, b);
  }

  lemma TextArrayBack(data: Bytes, i: nat) returns (f: Field)
    requires ReadTexts(data, i).Ok? && ReadTexts(data, i).value.next < |data|
    ensures FieldBehind(STexts, data, i, ReadTexts(data, i).value.next, f)
  {
    hide TextBytes, GetTexts;
    var n := ParseAt(data, i + 2);
    TextsForward(data, i + 2 + n.len, n.value);
    var ts := TextsBack(data, i + 2 + n.len, n.value);
    var count := CountDerived(data, i, TextBytes(ts));
    f := TextArray(count, ts);
  }

  lemma FieldBack(sh: Shape, data: Bytes, i: nat) returns (f: Field)
    requires ReadField(sh, data, i).Ok? && ReadField(sh, data, i).value.next < |data|
    ensures FieldBehind(sh, data, i, ReadField(sh, data, i).value.next, f)
  {
    match sh
    case SWord => f := WordBack(data, i);
    case SText => f := StrBack(data, i);
    case SWords => f := WordArrayBack(data, i);
    case STexts => f := TextArrayBack(data, i);
  }

  lemma FieldForward(sh: Shape, data: Bytes, i: nat)
    requires ReadField(sh, data, i).Ok?
    ensures ReadField(sh, data, i).value.next > i
  {
    var n := ParseAt(data, i + 2);
    if sh.SWords? { WordsBack(data, i + 2 + n.len, n.value); }
    if sh.STexts? { TextsForward(data, i + 2 + n.len, n.value); }
  }

  lemma {:induction false} FieldsForward(shapes: seq<Shape>, data: Bytes, i: nat)
    requires ReadFields(shapes, data, i).Ok?
    ensures ReadFields(shapes, data, i).value.next >= i
    decreases |shapes|
  {
    if shapes != [] {
      FieldForward(shapes[0], data, i);
      FieldsForward(shapes[1..], data, ReadField(shapes[0], data, i).value.next);
    }
  }

  lemma {:induction false} FieldsBack(shapes: seq<Shape>, data: Bytes, i: nat) returns (fs: seq<Field>)
    requires ReadFields(shapes, data, i).Ok? && ReadFields(shapes, data, i).value.next < |data|
    ensures AllFit(shapes, fs) && At(data, i, FieldsBytes(fs))
    decreases |shapes|
  {
    if shapes == [] {
      fs := [];
    } else {
      var j := ReadField(shapes[0], data, i).value.next;
      FieldsForward(shapes[1..], data, j);
      var f := FieldBack(shapes[0], data, i);
      var rest := FieldsBack(shapes[1..], data, j);
      fs := [f] + rest;
      assert fs[1..] == rest;
      AtConcat(data, i, FieldBytes(f), FieldsBytes(rest));
    }
  }

  /** A message read from `i` stands there as a well-formed one. */
  lemma PlainBack(kind: byte, data: Bytes, i: nat) returns (p: Plain)
    requires i < |data| && data[i] == kind && Fixed(kind) && ReadFixed(kind, data, i).Ok?
    ensures p.kind == kind && PlainWf(p) && At(data, i, PlainBytes(p))
    ensures ReadFixed(kind, data, i).value == Got(ValsOf(p.fields), i + |PlainBytes(p)|)
  {
    hide FieldBytes, FieldWf, ReadField, ValOf, Fits;
    var next := ReadFields(Shapes(kind), data, i + 1).value.next;
    var fs := FieldsBack(Shapes(kind), data, i + 1);
    FieldsRead(Shapes(kind), data, i + 1, fs);
    p := Plain(kind, fs);
    AtConcat(data, i + 1, FieldsBytes(fs), [END]);
    AtConcat(data, i, [kind], FieldsBytes(fs) + [END]);
    PlainRead(data, i, p);
  }
}
