// What acceptance by the schema-less scanner means:
// hyprwire-core/src/message/wire/generic_protocol_message.rs:33-158.
module Scanning {
  import opened Types
  import opened VarInt
  import opened Payload

  /** The bytes of a generic message. */
  function GenericBytes(target: nat, op: nat, fs: seq<Field>): Bytes {
    [GENERIC, OBJECT] + (U32Bytes(target) + ([UINT] + (U32Bytes(op) + (FieldsBytes(fs) + [END]))))
  }

  /** A generic message: header values, and small well-formed fields. */
  datatype Call = Call(target: nat, op: nat, fields: seq<Field>)

  ghost predicate CallWf(k: Call) {
    k.target < U32_LIMIT && k.op < U32_LIMIT && AllWf(k.fields)
  }

  function CallBytes(k: Call): Bytes {
    GenericBytes(k.target, k.op, k.fields)
  }

  /** The call stands at `offset` and the received fds suffice for it. */
  ghost predicate CallAt(data: Bytes, fds: seq<int>, offset: nat, k: Call) {
    CallWf(k) && At(data, offset, CallBytes(k)) && FieldsDemand(k.fields) <= |fds|
  }

  lemma HeaderParts(data: Bytes, i: nat, o: nat, m: nat, rest: Bytes)
    ensures At(data, i, [GENERIC, OBJECT] + (U32Bytes(o) + ([UINT] + (U32Bytes(m) + rest)))) <==>
            && At(data, i, [GENERIC, OBJECT]) && At(data, i + 2, U32Bytes(o))
            && At(data, i + 6, [UINT]) && At(data, i + 7, U32Bytes(m)) && At(data, i + 11, rest)
  {
    AtConcat(data, i + 7, U32Bytes(m), rest);
    AtConcat(data, i + 6, [UINT], U32Bytes(m) + rest);
    AtConcat(data, i + 2, U32Bytes(o), [UINT] + (U32Bytes(m) + rest));
    AtConcat(data, i, [GENERIC, OBJECT], U32Bytes(o) + ([UINT] + (U32Bytes(m) + rest)));
  }

  /** The parsed form of a call. */
  ghost function Accepted(k: Call, fds: seq<int>): Generic
    requires FieldsDemand(k.fields) <= |fds|
  {
    Generic(k.target, k.op, fds[..FieldsDemand(k.fields)], CallBytes(k))
  }

  lemma HeaderRead(data: Bytes, i: nat, o: nat, m: nat)
    requires At(data, i, [GENERIC, OBJECT]) && At(data, i + 2, U32Bytes(o))
    requires At(data, i + 6, [UINT]) && At(data, i + 7, U32Bytes(m))
    requires o < U32_LIMIT && m < U32_LIMIT
    ensures Header(data, i) == Ok((o, m))
  {
    U32RoundTrip(data, i + 2, o);
    U32RoundTrip(data, i + 7, m);
    AtByte(data, i, [GENERIC, OBJECT], 0);
    AtByte(data, i, [GENERIC, OBJECT], 1);
    AtByte(data, i + 6, [UINT], 0);
  }

  lemma HeaderBack(data: Bytes, i: nat)
    requires Header(data, i).Ok?
    ensures var (o, m) := Header(data, i).value;
      && o < U32_LIMIT && m < U32_LIMIT
      && At(data, i, [GENERIC, OBJECT]) && At(data, i + 2, U32Bytes(o))
      && At(data, i + 6, [UINT]) && At(data, i + 7, U32Bytes(m))
  {
    U32Back(data, i + 2);
    U32Back(data, i + 7);
  }

  /** `from_bytes` once its header and its scan are known. */
  lemma FromParts(data: Bytes, fds: seq<int>, offset: nat, o: nat, m: nat)
    requires Header(data, offset) == Ok((o, m))
    ensures var s := Scan(data, Cursor(offset + 11, 0), |fds|);
      FromBytes(data, fds, offset) ==
      if s.Err? then Err(s.error)
      else if s.value.fds > |fds| then Err(MalformedMessage)
      else Ok((Generic(o, m, fds[..s.value.fds], data[offset..s.value.pos + 1]), fds[s.value.fds..]))
  {
  }

  lemma CallSize(k: Call)
    ensures |CallBytes(k)| == 12 + |FieldsBytes(k.fields)| && CallBytes(k)[0] == GENERIC
  {
  }

  lemma CallScanned(data: Bytes, fds: seq<int>, offset: nat, k: Call)
    requires CallAt(data, fds, offset, k)
    ensures Header(data, offset) == Ok((k.target, k.op))
    ensures Scan(data, Cursor(offset + 11, 0), |fds|) == Scanned(Cursor(offset + 11, 0), k.fields)
    ensures var end := offset + 12 + |FieldsBytes(k.fields)|; end <= |data| && data[offset..end] == CallBytes(k)
  {
    HeaderParts(data, offset, k.target, k.op, FieldsBytes(k.fields) + [END]);
    HeaderRead(data, offset, k.target, k.op);
    FieldsScanned(data, Cursor(offset + 11, 0), |fds|, k.fields);
    AtIsSlice(data, offset, CallBytes(k));
  }

  /** A call at `offset` is accepted exactly as it was written, with the bytes and fds
      behind it untouched, unless one of its arrays has 10000 elements or more. */
  lemma CallAccepted(data: Bytes, fds: seq<int>, offset: nat, k: Call)
    requires CallAt(data, fds, offset, k)
    ensures FromBytes(data, fds, offset) ==
            if AllSmall(k.fields) then Ok((Accepted(k, fds), fds[FieldsDemand(k.fields)..])) else Err(ArrayTooLong)
  {
    hide FieldBytes, FieldWf, At, FromBytes, Header, CallBytes;
    CallScanned(data, fds, offset, k);
    FromParts(data, fds, offset, k.target, k.op);
  }

  /** Conversely every accepted message is a call standing wholly inside the buffer, whose
      fields demand exactly the fds that were taken. */
  lemma AcceptedCall(data: Bytes, fds: seq<int>, offset: nat) returns (k: Call)
    requires FromBytes(data, fds, offset).Ok?
    ensures CallAt(data, fds, offset, k) && AllSmall(k.fields)
    ensures FromBytes(data, fds, offset).value == (Accepted(k, fds), fds[FieldsDemand(k.fields)..])
  {
    HeaderBack(data, offset);
    var (o, m) := Header(data, offset).value;
    var fs := FieldsDerived(data, Cursor(offset + 11, 0), |fds|);
    HeaderParts(data, offset, o, m, FieldsBytes(fs) + [END]);
    k := Call(o, m, fs);
    CallAccepted(data, fds, offset, k);
  }

  /** Acceptance is being a derivation of the grammar. */
  lemma AcceptedIff(data: Bytes, fds: seq<int>, offset: nat)
    ensures FromBytes(data, fds, offset).Ok? <==> exists k :: CallAt(data, fds, offset, k) && AllSmall(k.fields)
  {
    if FromBytes(data, fds, offset).Ok? {
      var k := AcceptedCall(data, fds, offset);
      assert CallAt(data, fds, offset, k);
    }
    forall k | CallAt(data, fds, offset, k) && AllSmall(k.fields) ensures FromBytes(data, fds, offset).Ok? {
      CallAccepted(data, fds, offset, k);
    }
  }

  /** Bytes and fds that arrive later change nothing about a message already accepted. */
  lemma ExtensionStable(data: Bytes, fds: seq<int>, offset: nat, more: Bytes, moreFds: seq<int>)
    requires FromBytes(data, fds, offset).Ok?
    ensures var (g, rest) := FromBytes(data, fds, offset).value;
      FromBytes(data + more, fds + moreFds, offset) == Ok((g, rest + moreFds))
  {
    hide FieldBytes, FieldWf, Skip, SkipArray, TextWf;
    var k := AcceptedCall(data, fds, offset);
    AtConcat(data + more, 0, data, more);
    AtIsSlice(data + more, 0, data);
    assert At(data + more, offset, CallBytes(k)) by {
      forall i | 0 <= i < |CallBytes(k)| ensures CallBytes(k)[i] == (data + more)[offset + i] {
        AtByte(data, offset, CallBytes(k), i);
      }
    }
    CallAccepted(data + more, fds + moreFds, offset, k);
    var n := FieldsDemand(k.fields);
    assert (fds + moreFds)[..n] == fds[..n];
    assert (fds + moreFds)[n..] == fds[n..] + moreFds;
  }

  /** The stored frame parses to the same message on its own and anywhere else. */
  lemma FrameMoves(data: Bytes, fds: seq<int>, offset: nat, other: Bytes, at: nat, after: seq<int>)
    requires FromBytes(data, fds, offset).Ok?
    requires At(other, at, FromBytes(data, fds, offset).value.0.data)
    ensures var g := FromBytes(data, fds, offset).value.0;
      FromBytes(other, g.fds + after, at) == Ok((g, after))
  {
    var k := AcceptedCall(data, fds, offset);
    var g := FromBytes(data, fds, offset).value.0;
    CallAccepted(other, g.fds + after, at, k);
    assert (g.fds + after)[..|g.fds|] == g.fds;
    assert (g.fds + after)[|g.fds|..] == after;
  }

  /** Two calls at one place with small arrays are the same bytes: the grammar delimits itself. */
  lemma CallsDelimited(data: Bytes, fds: seq<int>, offset: nat, k: Call, l: Call)
    requires CallAt(data, fds, offset, k) && CallAt(data, fds, offset, l)
    requires AllSmall(k.fields) && AllSmall(l.fields)
    ensures CallBytes(k) == CallBytes(l) && FieldsDemand(k.fields) == FieldsDemand(l.fields)
  {
    CallAccepted(data, fds, offset, k);
    CallAccepted(data, fds, offset, l);
    assert |Accepted(k, fds).fds| == FieldsDemand(k.fields);
    assert |Accepted(l, fds).fds| == FieldsDemand(l.fields);
  }

  /** Handlers see the fields and the End byte, whatever the header was. */
  lemma SpanOfCall(k: Call, fds: seq<int>)
    requires FieldsDemand(k.fields) <= |fds|
    ensures DataSpan(Accepted(k, fds)) == FieldsBytes(k.fields) + [END]
  {
    var b := CallBytes(k);
    HeaderParts(b, 0, k.target, k.op, FieldsBytes(k.fields) + [END]);
    assert At(b, 0, b);
    AtIsSlice(b, 11, FieldsBytes(k.fields) + [END]);
  }
}
