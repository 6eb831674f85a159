// The spec-driven encoder: the body of `WireObject::call` from its header to its End byte
// (hyprwire/src/implementation/wire_object.rs:70-221), and the parameter lists that
// hyprwire-scanner/src/generate.rs:90-126 emits for it.
module Encoder {
  import opened Types
  import opened VarInt
  import opened Payload
  import opened Scanning

  /** What encoding comes to: bytes and fds, the `errd` exit of a mismatched array
      argument, or the index panic of a parameter list that ends in TypeArray. */
  datatype Encoded = Done(data: Bytes, fds: seq<int>) | Rejected | Panics

  function Prepend(b: Bytes, f: seq<int>, e: Encoded): Encoded {
    match e
    case Done(d, g) => Done(b + d, f + g)
    case _ => e
  }

  /** `i32::to_le_bytes`. */
  function IntBytes(n: int): Bytes {
    U32Bytes(n % U32_LIMIT)
  }

  function U32Words(us: seq<nat>): (ws: seq<Bytes>)
    ensures |ws| == |us|
  {
    seq(|us|, i requires 0 <= i < |us| => U32Bytes(us[i]))
  }

  function IntWords(ns: seq<int>): (ws: seq<Bytes>)
    ensures |ws| == |ns|
  {
    seq(|ns|, i requires 0 <= i < |ns| => IntBytes(ns[i]))
  }

  function CountedStrings(ss: seq<Bytes>): (ws: seq<Bytes>)
    ensures |ws| == |ss|
  {
    seq(|ss|, i requires 0 <= i < |ss| => Encode(|ss[i]|) + ss[i])
  }

  function Flat(ws: seq<Bytes>): Bytes {
    if ws == [] then [] else ws[0] + Flat(ws[1..])
  }

  function Arg(args: seq<CallArg>, k: nat): Option<CallArg> {
    if k < |args| then Some(args[k]) else None
  }

  predicate IsScalar(m: byte) {
    m == UINT || m == INT || m == OBJECT || m == FLOAT || m == VARCHAR || m == FD
  }

  /** A parameter whose argument is missing or of another kind leaves a bare magic. */
  function ScalarBytes(m: byte, a: Option<CallArg>): Bytes {
    [m] + match a
          case Some(Uint(u)) => if m == UINT then U32Bytes(u) else []
          case Some(Int(i)) => if m == INT then IntBytes(i) else []
          case Some(Object(o)) => if m == OBJECT then U32Bytes(o) else []
          case Some(F32(f)) => if m == FLOAT then f else []
          case Some(Varchar(s)) => if m == VARCHAR then Encode(|s|) + s else []
          case _ => []
  }

  function ScalarFds(m: byte, a: Option<CallArg>): seq<int> {
    match a
    case Some(Fd(fd)) => if m == FD then [fd] else []
    case _ => []
  }

  /** Count and elements of an array argument; the element magic is not consulted. */
  function ArrayBytes(a: Option<CallArg>): Option<Bytes> {
    match a
    case Some(UintArray(us)) => Some(Encode(|us|) + Flat(U32Words(us)))
    case Some(ObjectArray(os)) => Some(Encode(|os|) + Flat(U32Words(os)))
    case Some(IntArray(ns)) => Some(Encode(|ns|) + Flat(IntWords(ns)))
    case Some(F32Array(fs)) => Some(Encode(|fs|) + Flat(fs))
    case Some(FdArray(fds)) => Some(Encode(|fds|))
    case Some(VarcharArray(ss)) => Some(Encode(|ss|) + Flat(CountedStrings(ss)))
    case _ => None
  }

  function ArrayFds(a: Option<CallArg>): seq<int> {
    match a
    case Some(FdArray(fds)) => fds
    case _ => []
  }

  /** The parameter loop from parameter `i` and argument `k` on. */
  function EncodeFrom(params: Bytes, args: seq<CallArg>, i: nat, k: nat): Encoded
    decreases |params| - i
  {
    if i >= |params| || !Known(params[i]) then Done([], [])
    else if IsScalar(params[i]) then
      Prepend(ScalarBytes(params[i], Arg(args, k)), ScalarFds(params[i], Arg(args, k)),
              EncodeFrom(params, args, i + 1, k + 1))
    else if params[i] != ARRAY then Done([], [])
    else if i + 1 >= |params| then Panics
    else if !Known(params[i + 1]) then Done([], [])
    else if ArrayBytes(Arg(args, k)).None? then Rejected
    else
      Prepend([ARRAY, params[i + 1]] + ArrayBytes(Arg(args, k)).value, ArrayFds(Arg(args, k)),
              EncodeFrom(params, args, i + 2, k + 1))
  }

  /** Header, and the sequence number of the returned object if the method has one. */
  function Head(target: nat, op: nat, ret: Option<nat>): Bytes {
    [GENERIC, OBJECT] + U32Bytes(target) + [UINT] + U32Bytes(op) +
    if ret.Some? then [SEQ] + U32Bytes(ret.value) else []
  }

  function Finished(e: Encoded): Encoded {
    match e
    case Done(d, f) => Done(d + [END], f)
    case _ => e
  }

  function EncodeCall(target: nat, op: nat, ret: Option<nat>, params: Bytes, args: seq<CallArg>): Encoded {
    Finished(Prepend(Head(target, op, ret), [], EncodeFrom(params, args, 0, 0)))
  }

  // ---- the loop as written ---------------------------------------------------------------

  lemma PrependTwice(a: Bytes, f: seq<int>, b: Bytes, g: seq<int>, e: Encoded)
    ensures Prepend(a, f, Prepend(b, g, e)) == Prepend(a + b, f + g, e)
  {
    if e.Done? {
      assert a + (b + e.data) == a + b + e.data;
      assert f + (g + e.fds) == f + g + e.fds;
    }
  }

  predicate MachineSized(a: CallArg) {
    && (a.Varchar? ==> UsizeFits(|a.s|))
    && (a.UintArray? ==> UsizeFits(|a.us|))
    && (a.ObjectArray? ==> UsizeFits(|a.os|))
    && (a.IntArray? ==> UsizeFits(|a.ns|))
    && (a.F32Array? ==> UsizeFits(|a.fs|))
    && (a.FdArray? ==> UsizeFits(|a.fds|))
    && (a.VarcharArray? ==> UsizeFits(|a.ss|) && forall i :: 0 <= i < |a.ss| ==> UsizeFits(|a.ss[i]|))
  }

  predicate UsizeFits(n: nat) {
    n < 0x1_0000_0000_0000_0000
  }

  method VarIntBytes(n: nat) returns (b: Bytes)
    requires UsizeFits(n)
    ensures b == Encode(n)
  {
    var buffer := new byte[10];
    var len := EncodeVarInt(n, buffer);
    b := buffer[..len];
  }

  /** `for val in arr { data.extend_from_slice(..) }`. */
  method ExtendAll(data: Bytes, ws: seq<Bytes>) returns (r: Bytes)
    ensures r == data + Flat(ws)
  {
    r := data;
    for i := 0 to |ws|
      invariant r + Flat(ws[i..]) == data + Flat(ws)
    {
      assert ws[i..][1..] == ws[i + 1..];
      r := r + ws[i];
    }
  }

  method MarshalStrings(data: Bytes, ss: seq<Bytes>) returns (r: Bytes)
    requires forall i :: 0 <= i < |ss| ==> UsizeFits(|ss[i]|)
    ensures r == data + Flat(CountedStrings(ss))
  {
    r := data;
    ghost var ws := CountedStrings(ss);
    for i := 0 to |ss|
      invariant r + Flat(ws[i..]) == data + Flat(ws)
    {
      assert ws[i..][1..] == ws[i + 1..];
      var len := VarIntBytes(|ss[i]|);
      r := r + len + ss[i];
      assert r + Flat(ws[i + 1..]) == r + Flat(ws[i..][1..]);
    }
  }

  method MarshalScalar(data: Bytes, fds: seq<int>, m: byte, a: Option<CallArg>) returns (d: Bytes, f: seq<int>)
    requires IsScalar(m) && (a.Some? ==> MachineSized(a.value))
    ensures d == data + ScalarBytes(m, a) && f == fds + ScalarFds(m, a)
  {
    d, f := data + [m], fds;
    match a
    case Some(Uint(u)) => if m == UINT { d := d + U32Bytes(u); }
    case Some(Int(n)) => if m == INT { d := d + IntBytes(n); }
    case Some(Object(o)) => if m == OBJECT { d := d + U32Bytes(o); }
    case Some(F32(b)) => if m == FLOAT { d := d + b; }
    case Some(Fd(fd)) => if m == FD { f := f + [fd]; }
    case Some(Varchar(s)) =>
      if m == VARCHAR {
        var len := VarIntBytes(|s|);
        d := d + (len + s);
      }
    case _ =>
  }

  method MarshalArray(data: Bytes, fds: seq<int>, a: Option<CallArg>) returns (ok: bool, d: Bytes, f: seq<int>)
    requires a.Some? ==> MachineSized(a.value)
    ensures ok == ArrayBytes(a).Some?
    ensures ok ==> d == data + ArrayBytes(a).value && f == fds + ArrayFds(a)
  {
    ok, d, f := true, data, fds;
    var len;
    match a
    case Some(UintArray(us)) => len := VarIntBytes(|us|); d := ExtendAll(d + len, U32Words(us));
    case Some(ObjectArray(os)) => len := VarIntBytes(|os|); d := ExtendAll(d + len, U32Words(os));
    case Some(IntArray(ns)) => len := VarIntBytes(|ns|); d := ExtendAll(d + len, IntWords(ns));
    case Some(F32Array(fs)) => len := VarIntBytes(|fs|); d := ExtendAll(d + len, fs);
    case Some(FdArray(more)) => len := VarIntBytes(|more|); d := d + len; f := f + more;
    case Some(VarcharArray(ss)) => len := VarIntBytes(|ss|); d := MarshalStrings(d + len, ss);
    case _ => ok := false;
  }

  /** The encoding half of `call`; a parameter list cut off after TypeArray would panic. */
  method MarshalCall(target: nat, op: nat, ret: Option<nat>, params: Bytes, args: seq<CallArg>)
    returns (r: Encoded)
    requires forall k :: 0 <= k < |args| ==> MachineSized(args[k])
    ensures r == EncodeCall(target, op, ret, params, args)
  {
    hide FieldBytes, FieldWf, Skip, SkipArray, TextWf;
    var data := [GENERIC, OBJECT] + U32Bytes(target) + [UINT] + U32Bytes(op);
    var fds: seq<int> := [];
    if ret.Some? { data := data + ([SEQ] + U32Bytes(ret.value)); }
    assert data == Head(target, op, ret);
    ghost var whole := Prepend(data, fds, EncodeFrom(params, args, 0, 0));
    var k: nat := 0;
    var i: nat := 0;
    var more := true;
    while more && i < |params|
      invariant more ==> whole == Prepend(data, fds, EncodeFrom(params, args, i, k))
      invariant !more ==> whole == Done(data, fds)
      decreases |params| - i, more
    {
      if !Known(params[i]) {
        more := false;
      } else if IsScalar(params[i]) {
        ghost var d, f := data, fds;
        data, fds := MarshalScalar(data, fds, params[i], Arg(args, k));
        PrependTwice(d, f, ScalarBytes(params[i], Arg(args, k)), ScalarFds(params[i], Arg(args, k)),
                     EncodeFrom(params, args, i + 1, k + 1));
        i, k := i + 1, k + 1;
      } else if params[i] != ARRAY {
        more := false;
      } else if i + 1 >= |params| {
        return Panics;
      } else if !Known(params[i + 1]) {
        more := false;
      } else {
        ghost var d, f := data, fds;
        var ok;
        ok, data, fds := MarshalArray(data + [ARRAY, params[i + 1]], fds, Arg(args, k));
        if !ok { return Rejected; }
        PrependTwice(d, f, [ARRAY, params[i + 1]] + ArrayBytes(Arg(args, k)).value, ArrayFds(Arg(args, k)),
                     EncodeFrom(params, args, i + 2, k + 1));
        assert data == d + ([ARRAY, params[i + 1]] + ArrayBytes(Arg(args, k)).value);
        i, k := i + 2, k + 1;
      }
    }
    return Done(data + [END], fds);
  }
}
