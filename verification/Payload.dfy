// The schema-less scanner of generic messages and the field grammar it accepts:
// hyprwire-core/src/message/wire/generic_protocol_message.rs and
// hyprwire-core/src/types.rs:6-52.
module Payload {
  import opened Types
  import opened VarInt

  const END: byte := 0x00
  const UINT: byte := 0x10
  const INT: byte := 0x11
  const FLOAT: byte := 0x12
  const SEQ: byte := 0x13
  const OBJECT_ID: byte := 0x14
  const VARCHAR: byte := 0x20
  const ARRAY: byte := 0x21
  const OBJECT: byte := 0x22
  const FD: byte := 0x40

  const GENERIC: byte := 100

  datatype Error =
    | UnexpectedEof | InvalidMessageType | InvalidFieldType | MalformedMessage
    | TooManyVersions | TooManyProtocols | ArrayTooLong | InvalidVersion | InvalidMessage
    | VersionNegotiationFailed

  datatype Result<+T> = Ok(value: T) | Err(error: Error)

  /** `MessageMagic::try_from` succeeds. */
  predicate Known(m: byte) {
    m == END || IsWord(m) || m == OBJECT_ID || m == VARCHAR || m == ARRAY || m == FD
  }

  /** Fields that are four bytes after their magic. */
  predicate IsWord(m: byte) {
    m == UINT || m == FLOAT || m == INT || m == OBJECT || m == SEQ
  }

  /** A cursor into the bytes and a cursor into the received fds. */
  datatype Cursor = Cursor(pos: nat, fds: nat)

  /** The inner loop over `n` strings of an array; it may run past the end. */
  function SkipStrings(data: Bytes, p: nat, n: nat): (q: nat)
    ensures q >= p
    decreases n
  {
    if n == 0 then p
    else
      var v := ParseAt(data, p);
      SkipStrings(data, p + v.value + v.len, n - 1)
  }

  /** One turn of the scanning loop, at a byte that is not End. */
  function Skip(data: Bytes, c: Cursor, nfds: nat): (r: Result<Cursor>)
    requires c.pos < |data|
    ensures r.Ok? ==> r.value.pos > c.pos && r.value.fds >= c.fds
  {
    var m := data[c.pos];
    if IsWord(m) then Ok(Cursor(c.pos + 5, c.fds))
    else if m == VARCHAR then
      var v := ParseAt(data, c.pos + 1);
      Ok(Cursor(c.pos + v.value + v.len + 1, c.fds))
    else if m == ARRAY then SkipArray(data, c, nfds)
    else if m == FD then
      if c.fds < nfds then Ok(Cursor(c.pos + 1, c.fds + 1)) else Err(MalformedMessage)
    else Err(MalformedMessage)
  }

  function SkipArray(data: Bytes, c: Cursor, nfds: nat): (r: Result<Cursor>)
    requires c.pos < |data|
    ensures r.Ok? ==> r.value.pos > c.pos && r.value.fds >= c.fds
  {
    if c.pos + 1 >= |data| then Err(UnexpectedEof)
    else if !Known(data[c.pos + 1]) then Err(MalformedMessage)
    else
      var e := data[c.pos + 1];
      var n := ParseAt(data, c.pos + 2);
      var p := c.pos + 2 + n.len;
      if n.value >= MAX_ARRAY then Err(ArrayTooLong)
      else if IsWord(e) then Ok(Cursor(p + 4 * n.value, c.fds))
      else if e == VARCHAR then Ok(Cursor(SkipStrings(data, p, n.value), c.fds))
      else if e == FD then
        if c.fds + n.value <= nfds then Ok(Cursor(p, c.fds + n.value)) else Err(MalformedMessage)
      else Err(MalformedMessage)
  }

  /** The scanning loop: stops on the End byte. */
  function Scan(data: Bytes, c: Cursor, nfds: nat): (r: Result<Cursor>)
    ensures r.Ok? ==> c.pos <= r.value.pos < |data| && data[r.value.pos] == END && r.value.fds >= c.fds
    decreases |data| - c.pos
  {
    if c.pos >= |data| then Err(UnexpectedEof)
    else if data[c.pos] == END then Ok(c)
    else match Skip(data, c, nfds)
      case Err(e) => Err(e)
      case Ok(d) => Scan(data, d, nfds)
  }

  /** A parsed generic message: its header, the fds it took, and its whole frame. */
  datatype Generic = Generic(object_: nat, op: nat, fds: seq<int>, data: Bytes)

  function ReadU32(data: Bytes, i: nat): Result<nat> {
    if i + 4 > |data| then Err(UnexpectedEof) else Ok(U32At(data, i))
  }

  /** The eleven header bytes. */
  function Header(data: Bytes, offset: nat): Result<(nat, nat)> {
    if offset >= |data| then Err(UnexpectedEof)
    else if data[offset] != GENERIC then Err(InvalidMessageType)
    else if offset + 1 >= |data| then Err(UnexpectedEof)
    else if data[offset + 1] != OBJECT then Err(InvalidFieldType)
    else match ReadU32(data, offset + 2)
      case Err(e) => Err(e)
      case Ok(o) =>
        if offset + 6 >= |data| then Err(UnexpectedEof)
        else if data[offset + 6] != UINT then Err(InvalidFieldType)
        else match ReadU32(data, offset + 7)
          case Err(e) => Err(e)
          case Ok(m) => Ok((o, m))
  }

  /** `from_bytes`: the message at `offset` and the fds left for the next one. */
  function FromBytes(data: Bytes, fds: seq<int>, offset: nat): Result<(Generic, seq<int>)> {
    match Header(data, offset)
    case Err(e) => Err(e)
    case Ok((o, m)) =>
      match Scan(data, Cursor(offset + 11, 0), |fds|)
      case Err(e) => Err(e)
      case Ok(c) =>
        if c.fds > |fds| then Err(MalformedMessage)
        else Ok((Generic(o, m, fds[..c.fds], data[offset..c.pos + 1]), fds[c.fds..]))
  }

  /** The bytes after the header, End included: what handlers decode. */
  function DataSpan(g: Generic): Bytes {
    if |g.data| >= 11 then g.data[11..] else []
  }

  /** `from_bytes` as written: `i` walks the bytes, `cursor` the fds; the caller's fds are
      only drained when the whole message is accepted. */
  method ScanMessage(data: Bytes, fds: seq<int>, offset: nat) returns (r: Result<Generic>, left: seq<int>)
    ensures var s := FromBytes(data, fds, offset);
      if s.Ok? then r == Ok(s.value.0) && left == s.value.1 else r == Err(s.error) && left == fds
  {
    hide ParseAt, SkipArray, Header, IsWord;
    left := fds;
    var h := Header(data, offset);
    if h.Err? { return Err(h.error), fds; }
    var i: nat := offset + 11;
    var cursor: nat := 0;
    var consumed: seq<int> := [];
    while i < |data| && data[i] != END
      invariant cursor <= |fds| && consumed == fds[..cursor]
      invariant Scan(data, Cursor(offset + 11, 0), |fds|) == Scan(data, Cursor(i, cursor), |fds|)
      decreases |data| - i
    {
      var magic := data[i];
      var at := Cursor(i, cursor);
      if IsWord(magic) {
        i := i + 5;
      } else if magic == VARCHAR {
        var len, width := ParseVarInt(data, i + 1);
        i := i + len + width + 1;
      } else if magic == ARRAY {
        var step, taken := ScanArray(data, fds, i, cursor);
        if step.Err? { return Err(step.error), fds; }
        consumed := consumed + taken;
        cursor := cursor + |taken|;
        i := step.value;
      } else if magic == FD {
        if cursor >= |fds| { return Err(MalformedMessage), fds; }
        consumed := consumed + [fds[cursor]];
        cursor := cursor + 1;
        i := i + 1;
      } else {
        return Err(MalformedMessage), fds;
      }
      assert Skip(data, at, |fds|) == Ok(Cursor(i, cursor));
    }
    if i >= |data| { return Err(UnexpectedEof), fds; }
    left := fds[cursor..];
    r := Ok(Generic(h.value.0, h.value.1, consumed, data[offset..i + 1]));
  }

  method ScanArray(data: Bytes, fds: seq<int>, i: nat, cursor: nat)
    returns (end: Result<nat>, taken: seq<int>)
    requires i < |data| && cursor <= |fds|
    ensures var s := SkipArray(data, Cursor(i, cursor), |fds|);
      if s.Ok? then end == Ok(s.value.pos) && s.value.fds <= |fds| && taken == fds[cursor..s.value.fds]
      else end == Err(s.error)
  {
    hide ParseAt;
    taken := [];
    if i + 1 >= |data| { return Err(UnexpectedEof), taken; }
    var element := data[i + 1];
    if !Known(element) { return Err(MalformedMessage), taken; }
    var n, width := ParseVarInt(data, i + 2);
    var end': nat := i + 2 + width;
    if n >= MAX_ARRAY { return Err(ArrayTooLong), taken; }
    if IsWord(element) {
      return Ok(end' + 4 * n), taken;
    } else if element == VARCHAR {
      for k := 0 to n
        invariant SkipStrings(data, i + 2 + width, n) == SkipStrings(data, end', n - k)
      {
        var len, w := ParseVarInt(data, end');
        end' := end' + len + w;
      }
      return Ok(end'), taken;
    } else if element == FD {
      for k := 0 to n
        invariant cursor + k <= |fds| && taken == fds[cursor..cursor + k]
      {
        if cursor + k >= |fds| { return Err(MalformedMessage), taken; }
        taken := taken + [fds[cursor + k]];
      }
      return Ok(end'), taken;
    }
    return Err(MalformedMessage), taken;
  }

  // ---- the grammar ----------------------------------------------------------------------

  /** A counted byte string, with the length bytes it was written with. */
  datatype Text = Text(len: Bytes, body: Bytes)

  datatype Field =
    | Word(magic: byte, body: Bytes)
    | Str(text: Text)
    | Descriptor
    | WordArray(element: byte, count: Bytes, body: Bytes)
    | TextArray(count: Bytes, texts: seq<Text>)
    | DescriptorArray(count: Bytes)

  ghost predicate TextWf(t: Text) {
    Leb(t.len) && LebValue(t.len) == |t.body|
  }

  /** Length bytes are complete and tell the truth. */
  ghost predicate FieldWf(f: Field) {
    match f
    case Word(m, b) => IsWord(m) && |b| == 4
    case Str(t) => TextWf(t)
    case Descriptor => true
    case WordArray(e, n, b) => IsWord(e) && Leb(n) && |b| == 4 * LebValue(n)
    case TextArray(n, ts) => Leb(n) && LebValue(n) == |ts| && forall i :: 0 <= i < |ts| ==> TextWf(ts[i])
    case DescriptorArray(n) => Leb(n)
  }

  /** Arrays stay under the scanner's limit. */
  ghost predicate Small(f: Field) {
    match f
    case WordArray(_, n, _) => LebValue(n) < MAX_ARRAY
    case TextArray(n, _) => LebValue(n) < MAX_ARRAY
    case DescriptorArray(n) => LebValue(n) < MAX_ARRAY
    case _ => true
  }

  function TextBytes(ts: seq<Text>): Bytes {
    if ts == [] then [] else ts[0].len + ts[0].body + TextBytes(ts[1..])
  }

  function FieldBytes(f: Field): (b: Bytes)
    ensures |b| >= 1
  {
    match f
    case Word(m, b) => [m] + b
    case Str(t) => [VARCHAR] + (t.len + t.body)
    case Descriptor => [FD]
    case WordArray(e, n, b) => [ARRAY, e] + (n + b)
    case TextArray(n, ts) => [ARRAY, VARCHAR] + (n + TextBytes(ts))
    case DescriptorArray(n) => [ARRAY, FD] + n
  }

  /** How many fds a field takes from the side band. */
  ghost function Demand(f: Field): nat {
    match f
    case Descriptor => 1
    case DescriptorArray(n) => LebValue(n)
    case _ => 0
  }

  function FieldsBytes(fs: seq<Field>): Bytes {
    if fs == [] then [] else FieldBytes(fs[0]) + FieldsBytes(fs[1..])
  }

  ghost function FieldsDemand(fs: seq<Field>): nat {
    if fs == [] then 0 else Demand(fs[0]) + FieldsDemand(fs[1..])
  }

  ghost predicate AllWf(fs: seq<Field>) {
    forall i :: 0 <= i < |fs| ==> FieldWf(fs[i])
  }

  ghost predicate AllSmall(fs: seq<Field>) {
    forall i :: 0 <= i < |fs| ==> Small(fs[i])
  }

  // ---- every derivation is scanned -----------------------------------------------------

  lemma {:induction false} StringsScanned(data: Bytes, p: nat, ts: seq<Text>)
    requires At(data, p, TextBytes(ts)) && forall i :: 0 <= i < |ts| ==> TextWf(ts[i])
    ensures SkipStrings(data, p, |ts|) == p + |TextBytes(ts)|
    decreases |ts|
  {
    if ts != [] {
      var t := ts[0];
      var rest := TextBytes(ts[1..]);
      AtConcat(data, p, t.len + t.body, rest);
      AtConcat(data, p, t.len, t.body);
      ParseLeb(data, p, t.len);
      StringsScanned(data, p + |t.len| + |t.body|, ts[1..]);
    }
  }

  /** A field is skipped exactly, or refused because its array is too long. */
  ghost predicate Skipped(data: Bytes, c: Cursor, nfds: nat, f: Field)
    requires c.pos < |data|
  {
    Skip(data, c, nfds) ==
    if Small(f) then Ok(Cursor(c.pos + |FieldBytes(f)|, c.fds + Demand(f))) else Err(ArrayTooLong)
  }

  lemma CountScanned(data: Bytes, p: nat, e: byte, n: Bytes, rest: Bytes)
    requires Leb(n) && At(data, p, [ARRAY, e] + (n + rest))
    ensures p + 1 < |data| && data[p] == ARRAY && data[p + 1] == e
    ensures ParseAt(data, p + 2) == Parsed(LebValue(n), |n|) && At(data, p + 2 + |n|, rest)
  {
    AtByte(data, p, [ARRAY, e] + (n + rest), 0);
    AtByte(data, p, [ARRAY, e] + (n + rest), 1);
    AtConcat(data, p, [ARRAY, e], n + rest);
    AtConcat(data, p + 2, n, rest);
    ParseLeb(data, p + 2, n);
  }

  lemma WordArrayScanned(data: Bytes, c: Cursor, nfds: nat, f: Field)
    requires f.WordArray? && FieldWf(f) && At(data, c.pos, FieldBytes(f))
    ensures c.pos < |data| && data[c.pos] == ARRAY && Skipped(data, c, nfds, f)
  {
    CountScanned(data, c.pos, f.element, f.count, f.body);
    assert SkipArray(data, c, nfds) == Skip(data, c, nfds);
  }

  lemma TextArrayScanned(data: Bytes, c: Cursor, nfds: nat, f: Field)
    requires f.TextArray? && FieldWf(f) && At(data, c.pos, FieldBytes(f))
    ensures c.pos < |data| && data[c.pos] == ARRAY && Skipped(data, c, nfds, f)
  {
    hide ParseAt, SkipStrings, Leb, LebValue;
    CountScanned(data, c.pos, VARCHAR, f.count, TextBytes(f.texts));
    StringsScanned(data, c.pos + 2 + |f.count|, f.texts);
    assert SkipArray(data, c, nfds) == Skip(data, c, nfds);
  }

  lemma DescriptorArrayScanned(data: Bytes, c: Cursor, nfds: nat, f: Field)
    requires f.DescriptorArray? && FieldWf(f) && At(data, c.pos, FieldBytes(f))
    requires c.fds + Demand(f) <= nfds
    ensures c.pos < |data| && data[c.pos] == ARRAY && Skipped(data, c, nfds, f)
  {
    assert f.count + [] == f.count;
    CountScanned(data, c.pos, FD, f.count, []);
    assert SkipArray(data, c, nfds) == Skip(data, c, nfds);
  }

  lemma FieldScanned(data: Bytes, c: Cursor, nfds: nat, f: Field)
    requires FieldWf(f) && At(data, c.pos, FieldBytes(f)) && c.fds + Demand(f) <= nfds
    ensures c.pos < |data| && data[c.pos] != END && Skipped(data, c, nfds, f)
  {
    AtByte(data, c.pos, FieldBytes(f), 0);
    match f
    case Word(m, b) =>
    case Str(t) =>
      AtConcat(data, c.pos, [VARCHAR], t.len + t.body);
      AtConcat(data, c.pos + 1, t.len, t.body);
      ParseLeb(data, c.pos + 1, t.len);
    case Descriptor =>
    case WordArray(_, _, _) => WordArrayScanned(data, c, nfds, f);
    case TextArray(_, _) => TextArrayScanned(data, c, nfds, f);
    case DescriptorArray(_) => DescriptorArrayScanned(data, c, nfds, f);
  }

  /** The scan goes on behind the field, or fails on its array. */
  lemma ScanField(data: Bytes, c: Cursor, nfds: nat, f: Field)
    requires FieldWf(f) && At(data, c.pos, FieldBytes(f)) && c.fds + Demand(f) <= nfds
    ensures Scan(data, c, nfds) ==
            if Small(f) then Scan(data, Cursor(c.pos + |FieldBytes(f)|, c.fds + Demand(f)), nfds)
            else Err(ArrayTooLong)
  {
    FieldScanned(data, c, nfds, f);
  }

  /** Bytes of fields followed by an End byte, first field split off. */
  lemma FieldsSplit(data: Bytes, p: nat, fs: seq<Field>)
    requires fs != []
    ensures At(data, p, FieldsBytes(fs) + [END]) <==>
            At(data, p, FieldBytes(fs[0])) && At(data, p + |FieldBytes(fs[0])|, FieldsBytes(fs[1..]) + [END])
  {
    assert FieldsBytes(fs) + [END] == FieldBytes(fs[0]) + (FieldsBytes(fs[1..]) + [END]);
    AtConcat(data, p, FieldBytes(fs[0]), FieldsBytes(fs[1..]) + [END]);
  }

  /** What the scan of `fs` from `c` comes to. */
  ghost function Scanned(c: Cursor, fs: seq<Field>): Result<Cursor> {
    if AllSmall(fs) then Ok(Cursor(c.pos + |FieldsBytes(fs)|, c.fds + FieldsDemand(fs))) else Err(ArrayTooLong)
  }

  lemma ScannedStep(c: Cursor, fs: seq<Field>)
    requires fs != []
    ensures Scanned(c, fs) ==
            if Small(fs[0]) then Scanned(Cursor(c.pos + |FieldBytes(fs[0])|, c.fds + Demand(fs[0])), fs[1..])
            else Err(ArrayTooLong)
  {
    if Small(fs[0]) && AllSmall(fs[1..]) {
      assert forall i :: 0 < i < |fs| ==> fs[i] == fs[1..][i - 1];
    }
    if AllSmall(fs) {
      assert forall i :: 0 <= i < |fs| - 1 ==> fs[1..][i] == fs[i + 1];
    }
  }

  /** The bytes at `c` are those of `fs` and an End byte, and there are fds enough. */
  ghost predicate Stand(data: Bytes, c: Cursor, nfds: nat, fs: seq<Field>) {
    AllWf(fs) && At(data, c.pos, FieldsBytes(fs) + [END]) && c.fds + FieldsDemand(fs) <= nfds
  }

  lemma StandStep(data: Bytes, c: Cursor, nfds: nat, fs: seq<Field>)
    requires fs != [] && Stand(data, c, nfds, fs)
    ensures FieldWf(fs[0]) && At(data, c.pos, FieldBytes(fs[0])) && c.fds + Demand(fs[0]) <= nfds
    ensures Stand(data, Cursor(c.pos + |FieldBytes(fs[0])|, c.fds + Demand(fs[0])), nfds, fs[1..])
  {
    FieldsSplit(data, c.pos, fs);
    assert forall i :: 0 <= i < |fs| - 1 ==> fs[1..][i] == fs[i + 1];
  }

  lemma StandDone(data: Bytes, c: Cursor, nfds: nat)
    requires Stand(data, c, nfds, [])
    ensures Scan(data, c, nfds) == Scanned(c, [])
  {
    AtByte(data, c.pos, FieldsBytes([]) + [END], 0);
  }

  /** Well-formed fields with enough fds and an End byte behind them are scanned to that
      End, unless one of their arrays is too long; then that is the error. */
  lemma {:induction false} FieldsScanned(data: Bytes, c: Cursor, nfds: nat, fs: seq<Field>)
    requires Stand(data, c, nfds, fs)
    ensures Scan(data, c, nfds) == Scanned(c, fs)
    decreases |fs|
  {
    hide FieldBytes, FieldWf, Small, Demand, Skip, At, Scanned;
    if fs == [] {
      StandDone(data, c, nfds);
    } else {
      StandStep(data, c, nfds, fs);
      ScanField(data, c, nfds, fs[0]);
      ScannedStep(c, fs);
      if Small(fs[0]) {
        FieldsScanned(data, Cursor(c.pos + |FieldBytes(fs[0])|, c.fds + Demand(fs[0])), nfds, fs[1..]);
      }
    }
  }

  // ---- everything scanned is a derivation ------------------------------------------------

  /** A counted string that ends inside the buffer. */
  lemma TextParsed(data: Bytes, p: nat) returns (t: Text)
    requires p + ParseAt(data, p).value + ParseAt(data, p).len < |data|
    ensures TextWf(t) && At(data, p, t.len + t.body)
    ensures |t.len| == ParseAt(data, p).len && |t.body| == ParseAt(data, p).value
    ensures t.body == data[p + |t.len|..p + |t.len| + |t.body|]
  {
    hide ParseAt, LebValue, Leb;
    var v := ParseAt(data, p);
    ParseSound(data, p);
    t := Text(data[p..p + v.len], data[p + v.len..p + v.len + v.value]);
    AtConcat(data, p, t.len, t.body);
  }

  lemma {:induction false} StringsDerived(data: Bytes, p: nat, n: nat) returns (ts: seq<Text>)
    requires SkipStrings(data, p, n) < |data|
    ensures |ts| == n && forall i :: 0 <= i < n ==> TextWf(ts[i])
    ensures At(data, p, TextBytes(ts)) && SkipStrings(data, p, n) == p + |TextBytes(ts)|
    decreases n
  {
    hide Scanned, ParseAt, TextWf;
    if n == 0 {
      ts := [];
    } else {
      var v := ParseAt(data, p);
      var rest := StringsDerived(data, p + v.value + v.len, n - 1);
      var t := TextParsed(data, p);
      ts := [t] + rest;
      assert ts[1..] == rest;
      AtConcat(data, p, t.len + t.body, TextBytes(rest));
    }
  }

  /** The field `f` accounts for the move of the cursors from `c` to `d`. */
  ghost predicate Derives(data: Bytes, c: Cursor, d: Cursor, nfds: nat, f: Field) {
    && FieldWf(f) && Small(f) && At(data, c.pos, FieldBytes(f))
    && d == Cursor(c.pos + |FieldBytes(f)|, c.fds + Demand(f)) && d.fds <= nfds
  }

  /** A skip that stays inside the buffer read one small, well-formed field. */
  lemma FieldDerived(data: Bytes, c: Cursor, nfds: nat) returns (f: Field)
    requires c.pos < |data| && data[c.pos] != END && c.fds <= nfds
    requires Skip(data, c, nfds).Ok? && Skip(data, c, nfds).value.pos < |data|
    ensures Derives(data, c, Skip(data, c, nfds).value, nfds, f)
  {
    hide ParseAt, SkipArray, Leb, LebValue;
    var m := data[c.pos];
    if IsWord(m) {
      f := WordDerived(data, c, nfds);
    } else if m == VARCHAR {
      f := TextDerived(data, c, nfds);
    } else if m == FD {
      f := Descriptor;
    } else {
      f := ArrayDerived(data, c, nfds);
    }
  }

  lemma WordDerived(data: Bytes, c: Cursor, nfds: nat) returns (f: Field)
    requires c.pos < |data| && IsWord(data[c.pos]) && c.fds <= nfds && c.pos + 5 < |data|
    ensures Derives(data, c, Cursor(c.pos + 5, c.fds), nfds, f)
  {
    hide At;
    var body := data[c.pos + 1..c.pos + 5];
    AtIsSlice(data, c.pos, [data[c.pos]]);
    AtIsSlice(data, c.pos + 1, body);
    AtConcat(data, c.pos, [data[c.pos]], body);
    f := Word(data[c.pos], body);
  }

  lemma TextDerived(data: Bytes, c: Cursor, nfds: nat) returns (f: Field)
    requires c.pos < |data| && data[c.pos] == VARCHAR && c.fds <= nfds
    requires Skip(data, c, nfds).Ok? && Skip(data, c, nfds).value.pos < |data|
    ensures Derives(data, c, Skip(data, c, nfds).value, nfds, f)
  {
    hide ParseAt, TextWf, Skip, At;
    SkipsText(data, c, nfds);
    var t := TextParsed(data, c.pos + 1);
    AtConcat(data, c.pos, [VARCHAR], t.len + t.body);
    f := Str(t);
  }

  lemma SkipsText(data: Bytes, c: Cursor, nfds: nat)
    requires c.pos < |data| && data[c.pos] == VARCHAR
    ensures At(data, c.pos, [VARCHAR])
    ensures var v := ParseAt(data, c.pos + 1);
      Skip(data, c, nfds) == Ok(Cursor(c.pos + v.value + v.len + 1, c.fds))
  {
    hide ParseAt, SkipArray;
  }

  /** The count read after the element magic, and what precedes the elements. */
  lemma CountDerived(data: Bytes, p: nat, rest: Bytes) returns (count: Bytes)
    requires p + 2 <= |data| && data[p] == ARRAY && p + 2 + ParseAt(data, p + 2).len < |data|
    requires At(data, p + 2 + ParseAt(data, p + 2).len, rest)
    ensures Leb(count) && ParseAt(data, p + 2) == Parsed(LebValue(count), |count|)
    ensures At(data, p, [ARRAY, data[p + 1]] + (count + rest))
  {
    ParseSound(data, p + 2);
    count := data[p + 2..p + 2 + ParseAt(data, p + 2).len];
    AtConcat(data, p + 2, count, rest);
    assert data[p..p + 2] == [ARRAY, data[p + 1]];
    AtConcat(data, p, [ARRAY, data[p + 1]], count + rest);
  }

  lemma ArrayDerived(data: Bytes, c: Cursor, nfds: nat) returns (f: Field)
    requires c.pos < |data| && data[c.pos] == ARRAY && c.fds <= nfds
    requires SkipArray(data, c, nfds).Ok? && SkipArray(data, c, nfds).value.pos < |data|
    ensures Derives(data, c, SkipArray(data, c, nfds).value, nfds, f)
  {
    if IsWord(data[c.pos + 1]) {
      f := WordArrayDerived(data, c, nfds);
    } else if data[c.pos + 1] == VARCHAR {
      f := TextArrayDerived(data, c, nfds);
    } else {
      f := DescriptorArrayDerived(data, c, nfds);
    }
  }

  lemma WordArrayDerived(data: Bytes, c: Cursor, nfds: nat) returns (f: Field)
    requires c.pos + 1 < |data| && data[c.pos] == ARRAY && IsWord(data[c.pos + 1]) && c.fds <= nfds
    requires SkipArray(data, c, nfds).Ok? && SkipArray(data, c, nfds).value.pos < |data|
    ensures Derives(data, c, SkipArray(data, c, nfds).value, nfds, f)
  {
    var d := SkipArray(data, c, nfds).value;
    var p := c.pos + 2 + ParseAt(data, c.pos + 2).len;
    var count := CountDerived(data, c.pos, data[p..d.pos]);
    f := WordArray(data[c.pos + 1], count, data[p..d.pos]);
  }

  lemma TextArrayDerived(data: Bytes, c: Cursor, nfds: nat) returns (f: Field)
    requires c.pos + 1 < |data| && data[c.pos] == ARRAY && data[c.pos + 1] == VARCHAR && c.fds <= nfds
    requires SkipArray(data, c, nfds).Ok? && SkipArray(data, c, nfds).value.pos < |data|
    ensures Derives(data, c, SkipArray(data, c, nfds).value, nfds, f)
  {
    var n := ParseAt(data, c.pos + 2);
    var ts := StringsDerived(data, c.pos + 2 + n.len, n.value);
    var count := CountDerived(data, c.pos, TextBytes(ts));
    f := TextArray(count, ts);
  }

  lemma DescriptorArrayDerived(data: Bytes, c: Cursor, nfds: nat) returns (f: Field)
    requires c.pos + 1 < |data| && data[c.pos] == ARRAY && data[c.pos + 1] == FD && c.fds <= nfds
    requires SkipArray(data, c, nfds).Ok? && SkipArray(data, c, nfds).value.pos < |data|
    ensures Derives(data, c, SkipArray(data, c, nfds).value, nfds, f)
  {
    var count := CountDerived(data, c.pos, []);
    assert count + [] == count;
    f := DescriptorArray(count);
  }

  /** Whatever the scanner accepts is a sequence of small, well-formed fields lying wholly
      inside the buffer, and the fds it counts are exactly what they demand. */
  lemma {:induction false} FieldsDerived(data: Bytes, c: Cursor, nfds: nat) returns (fs: seq<Field>)
    requires Scan(data, c, nfds).Ok? && c.fds <= nfds
    ensures AllWf(fs) && AllSmall(fs) && At(data, c.pos, FieldsBytes(fs) + [END])
    ensures Scan(data, c, nfds).value == Cursor(c.pos + |FieldsBytes(fs)|, c.fds + FieldsDemand(fs))
    ensures c.fds + FieldsDemand(fs) <= nfds
    decreases |data| - c.pos
  {
    hide FieldWf, FieldBytes, Skip, Small, Demand;
    if data[c.pos] == END {
      fs := [];
      assert data[c.pos..c.pos + 1] == [END];
    } else {
      var f := FieldDerived(data, c, nfds);
      var d := Skip(data, c, nfds).value;
      var rest := FieldsDerived(data, d, nfds);
      fs := [f] + rest;
      assert fs[1..] == rest;
      FieldsSplit(data, c.pos, fs);
    }
  }
}
