// Encoder, scanner and decoder agree: what a generated call site encodes, the scanner
// frames at any offset and the generated handler decodes to the same arguments.
module EndToEnd {
  import opened Types
  import opened VarInt
  import opened Payload
  import opened Scanning
  import opened Encoder
  import opened Decoder

  // ---- the encoder writes one field per argument -------------------------------------------

  lemma {:induction false} FlatLength(ws: seq<Bytes>)
    requires forall i :: 0 <= i < |ws| ==> |ws[i]| == 4
    ensures |Flat(ws)| == 4 * |ws|
  {
    if ws != [] { FlatLength(ws[1..]); }
  }

  lemma {:induction false} TextsFlat(ss: seq<Bytes>)
    ensures TextBytes(Texts(ss)) == Flat(CountedStrings(ss))
  {
    if ss != [] {
      assert Texts(ss)[1..] == Texts(ss[1..]);
      assert CountedStrings(ss)[1..] == CountedStrings(ss[1..]);
      TextsFlat(ss[1..]);
    }
  }

  /** A typed argument is written as a well-formed field that demands exactly its fds, and
      that the scanner accepts just when the argument has fewer than 10000 elements. */
  lemma FieldOfTyped(t: ArgType, a: CallArg)
    requires Typed(t, a)
    ensures FieldWf(FieldOf(a)) && Demand(FieldOf(a)) == |ArgFds(a)|
    ensures Small(FieldOf(a)) <==> Elements(a) < MAX_ARRAY
  {
    EncodeIsLeb(Elements(a));
    match a
    case UintArray(us) => FlatLength(U32Words(us));
    case IntArray(ns) => FlatLength(IntWords(ns));
    case F32Array(fs) => FlatLength(fs);
    case Varchar(s) => EncodeIsLeb(|s|);
    case VarcharArray(ss) =>
      forall i | 0 <= i < |ss| ensures TextWf(Texts(ss)[i]) { EncodeIsLeb(|ss[i]|); }
    case _ =>
  }

  lemma ScalarEncoded(t: ArgType, a: CallArg)
    requires Typed(t, a) && IsScalar(Magics(t)[0])
    ensures Magics(t) == [Magics(t)[0]] && Known(Magics(t)[0])
    ensures ScalarBytes(Magics(t)[0], Some(a)) == FieldBytes(FieldOf(a))
    ensures ScalarFds(Magics(t)[0], Some(a)) == ArgFds(a)
  {
  }

  lemma ArrayEncoded(t: ArgType, a: CallArg)
    requires Typed(t, a) && !IsScalar(Magics(t)[0])
    ensures |Magics(t)| == 2 && Magics(t)[0] == ARRAY && Known(Magics(t)[1]) && ArrayBytes(Some(a)).Some?
    ensures [ARRAY, Magics(t)[1]] + ArrayBytes(Some(a)).value == FieldBytes(FieldOf(a))
    ensures ArrayFds(Some(a)) == ArgFds(a)
  {
    if a.VarcharArray? { TextsFlat(a.ss); }
  }

  /** The turn of the parameter loop that handles one typed argument. */
  lemma ArgEncoded(params: Bytes, args: seq<CallArg>, i: nat, k: nat, t: ArgType)
    requires k < |args| && Typed(t, args[k]) && At(params, i, Magics(t))
    ensures EncodeFrom(params, args, i, k) ==
            Prepend(FieldBytes(FieldOf(args[k])), ArgFds(args[k]), EncodeFrom(params, args, i + |Magics(t)|, k + 1))
  {
    AtByte(params, i, Magics(t), 0);
    if IsScalar(Magics(t)[0]) {
      ScalarEncoded(t, args[k]);
    } else {
      ArrayEncoded(t, args[k]);
      AtByte(params, i, Magics(t), 1);
    }
  }

  /** The fields and fds of the arguments from `k` on. */
  function Rest(args: seq<CallArg>, k: nat): Encoded
    requires k <= |args|
  {
    Done(FieldsBytes(FieldsOf(args[k..])), AllFds(args[k..]))
  }

  lemma RestStep(args: seq<CallArg>, k: nat)
    requires k < |args|
    ensures Rest(args, k) == Prepend(FieldBytes(FieldOf(args[k])), ArgFds(args[k]), Rest(args, k + 1))
  {
    assert args[k..][1..] == args[k + 1..];
    assert FieldsOf(args[k..])[1..] == FieldsOf(args[k + 1..]);
  }

  lemma NoneLeft(params: Bytes, tys: seq<ArgType>, args: seq<CallArg>)
    requires AllTyped(tys, args)
    ensures EncodeFrom(params, args, |params|, |tys|) == Rest(args, |tys|)
  {
  }

  lemma ParamsStep(tys: seq<ArgType>, k: nat)
    requires k < |tys|
    ensures ParamsOf(tys[k..]) == Magics(tys[k]) + ParamsOf(tys[k + 1..])
  {
    assert tys[k..][1..] == tys[k + 1..];
  }

  lemma {:induction false} ArgsEncoded(params: Bytes, tys: seq<ArgType>, args: seq<CallArg>, i: nat, k: nat)
    requires AllTyped(tys, args) && k <= |tys| && i + |ParamsOf(tys[k..])| == |params|
    requires At(params, i, ParamsOf(tys[k..]))
    ensures EncodeFrom(params, args, i, k) == Rest(args, k)
    decreases |tys| - k
  {
    hide FieldBytes, Prepend, EncodeFrom, Rest, At, Typed, Magics;
    if k == |tys| {
      NoneLeft(params, tys, args);
    } else {
      ParamsStep(tys, k);
      AtConcat(params, i, Magics(tys[k]), ParamsOf(tys[k + 1..]));
      ArgEncoded(params, args, i, k, tys[k]);
      ArgsEncoded(params, tys, args, i + |Magics(tys[k])|, k + 1);
      RestStep(args, k);
    }
  }

  // ---- arguments that do not match ---------------------------------------------------------

  predicate IsArrayType(t: ArgType) {
    t.TArrayVarchar? || t.TArrayFd? || t.TArrayUint? || t.TArrayInt? || t.TArrayF32?
  }

  predicate IsArrayArg(a: CallArg) {
    a.UintArray? || a.IntArray? || a.F32Array? || a.ObjectArray? || a.FdArray? || a.VarcharArray?
  }

  /** Parameter `k` is an array and its argument is none, or missing. */
  predicate LacksArray(tys: seq<ArgType>, args: seq<CallArg>, k: nat) {
    k < |tys| && IsArrayType(tys[k]) && !(k < |args| && IsArrayArg(args[k]))
  }

  /** The turn of the parameter loop for one parameter, whatever its argument. */
  lemma ParamTurn(params: Bytes, args: seq<CallArg>, i: nat, k: nat, t: ArgType) returns (b: Bytes, f: seq<int>)
    requires At(params, i, Magics(t))
    ensures if IsArrayType(t) && !(k < |args| && IsArrayArg(args[k])) then EncodeFrom(params, args, i, k) == Rejected
            else EncodeFrom(params, args, i, k) == Prepend(b, f, EncodeFrom(params, args, i + |Magics(t)|, k + 1))
  {
    AtByte(params, i, Magics(t), 0);
    b, f := [], [];
    if IsArrayType(t) {
      AtByte(params, i, Magics(t), 1);
      if k < |args| && IsArrayArg(args[k]) {
        b, f := [ARRAY, params[i + 1]] + ArrayBytes(Arg(args, k)).value, ArrayFds(Arg(args, k));
      }
    } else {
      b, f := ScalarBytes(params[i], Arg(args, k)), ScalarFds(params[i], Arg(args, k));
    }
  }

  lemma {:induction false} RejectedFrom(params: Bytes, tys: seq<ArgType>, args: seq<CallArg>, i: nat, k: nat)
    requires k <= |tys| && i + |ParamsOf(tys[k..])| == |params| && At(params, i, ParamsOf(tys[k..]))
    ensures var e := EncodeFrom(params, args, i, k);
      !e.Panics? && (e.Rejected? <==> exists j: nat :: k <= j && LacksArray(tys, args, j))
    decreases |tys| - k
  {
    hide EncodeFrom;
    if k == |tys| {
      NoParams(params, args, i, k);
    } else {
      assert tys[k..][1..] == tys[k + 1..];
      AtConcat(params, i, Magics(tys[k]), ParamsOf(tys[k + 1..]));
      var b, f := ParamTurn(params, args, i, k, tys[k]);
      RejectedFrom(params, tys, args, i + |Magics(tys[k])|, k + 1);
      assert LacksArray(tys, args, k) <==> IsArrayType(tys[k]) && !(k < |args| && IsArrayArg(args[k]));
    }
  }

  lemma NoParams(params: Bytes, args: seq<CallArg>, i: nat, k: nat)
    requires i >= |params|
    ensures EncodeFrom(params, args, i, k) == Done([], [])
  {
  }

  /** For the parameter list of any method, encoding fails if and only if an array parameter
      has no array for its argument; it never runs past the list.  Any other argument that is
      missing or of another kind leaves a bare magic. */
  lemma RejectedIff(target: nat, op: nat, ret: Option<nat>, tys: seq<ArgType>, args: seq<CallArg>)
    ensures var e := EncodeCall(target, op, ret, ParamsOf(tys), args);
      !e.Panics? && (e.Rejected? <==> exists k: nat :: LacksArray(tys, args, k))
  {
    hide EncodeFrom;
    assert tys[0..] == tys;
    RejectedFrom(ParamsOf(tys), tys, args, 0, 0);
  }

  /** A scalar argument of the parameter's kind. */
  predicate OfKind(m: byte, a: CallArg) {
    || (m == UINT && a.Uint?) || (m == INT && a.Int?) || (m == OBJECT && a.Object?)
    || (m == FLOAT && a.F32?) || (m == VARCHAR && a.Varchar?) || (m == FD && a.Fd?)
  }

  lemma BareMagic(m: byte, a: Option<CallArg>)
    requires IsScalar(m) && (a.Some? ==> !OfKind(m, a.value))
    ensures ScalarBytes(m, a) == [m] && ScalarFds(m, a) == []
  {
  }

  /** The fields of a whole call: the sequence number of the returned object comes first. */
  function CallFields(ret: Option<nat>, args: seq<CallArg>): seq<Field> {
    (if ret.Some? then [Word(SEQ, U32Bytes(ret.value))] else []) + FieldsOf(args)
  }

  function TheCall(target: nat, op: nat, ret: Option<nat>, args: seq<CallArg>): Call {
    Call(target, op, CallFields(ret, args))
  }

  /** A generated call: header values in range and arguments of the declared types. */
  ghost predicate WellTyped(target: nat, op: nat, ret: Option<nat>, tys: seq<ArgType>, args: seq<CallArg>) {
    && target < U32_LIMIT && op < U32_LIMIT && (ret.Some? ==> ret.value < U32_LIMIT)
    && AllTyped(tys, args)
  }

  lemma CallFieldsBytes(ret: Option<nat>, args: seq<CallArg>)
    ensures FieldsBytes(CallFields(ret, args)) ==
            (if ret.Some? then [SEQ] + U32Bytes(ret.value) else []) + FieldsBytes(FieldsOf(args))
  {
    hide FieldsOf;
    if ret.Some? {
      assert CallFields(ret, args)[1..] == FieldsOf(args);
    } else {
      assert CallFields(ret, args) == FieldsOf(args);
    }
  }

  lemma HeadAssoc(target: nat, op: nat, ret: Option<nat>, fields: Bytes)
    ensures Head(target, op, ret) + fields + [END] ==
            [GENERIC, OBJECT] + (U32Bytes(target) + ([UINT] + (U32Bytes(op) +
            ((if ret.Some? then [SEQ] + U32Bytes(ret.value) else []) + fields + [END]))))
  {
  }

  /** The encoder's output is a derivation of the scanner's grammar, one field per argument. */
  lemma TypedEncoding(target: nat, op: nat, ret: Option<nat>, tys: seq<ArgType>, args: seq<CallArg>)
    requires AllTyped(tys, args)
    ensures EncodeCall(target, op, ret, ParamsOf(tys), args) ==
            Done(CallBytes(TheCall(target, op, ret, args)), AllFds(args))
  {
    assert tys[0..] == tys && args[0..] == args;
    ArgsEncoded(ParamsOf(tys), tys, args, 0, 0);
    CallFieldsBytes(ret, args);
    HeadAssoc(target, op, ret, FieldsBytes(FieldsOf(args)));
  }

  // ---- and the decoder reads them back -------------------------------------------------------

  /** `s` stands at position `k` of `fds`. */
  ghost predicate FdsAt(fds: seq<int>, k: nat, s: seq<int>) {
    k + |s| <= |fds| && fds[k..k + |s|] == s
  }

  lemma FdsConcat(fds: seq<int>, k: nat, s: seq<int>, t: seq<int>)
    requires FdsAt(fds, k, s + t)
    ensures FdsAt(fds, k, s) && FdsAt(fds, k + |s|, t)
  {
    assert fds[k..k + |s|] == fds[k..k + |s + t|][..|s|];
    assert fds[k + |s|..k + |s| + |t|] == fds[k..k + |s + t|][|s|..];
  }

  lemma IntRoundTrip(data: Bytes, i: nat, n: int)
    requires I32(n) && At(data, i, IntBytes(n))
    ensures IntAt(data, i) == n
  {
    U32RoundTrip(data, i, n % U32_LIMIT);
  }

  lemma {:induction false} U32sDecoded(data: Bytes, i: nat, us: seq<nat>)
    requires At(data, i, Flat(U32Words(us))) && forall j :: 0 <= j < |us| ==> us[j] < U32_LIMIT
    ensures U32sAt(data, i, |us|) == Some(us)
    decreases |us|
  {
    if us != [] {
      assert us == [us[0]] + us[1..];
      assert U32Words(us)[1..] == U32Words(us[1..]);
      AtConcat(data, i, U32Bytes(us[0]), Flat(U32Words(us[1..])));
      U32RoundTrip(data, i, us[0]);
      U32sDecoded(data, i + 4, us[1..]);
    }
  }

  lemma {:induction false} IntsDecoded(data: Bytes, i: nat, ns: seq<int>)
    requires At(data, i, Flat(IntWords(ns))) && forall j :: 0 <= j < |ns| ==> I32(ns[j])
    ensures IntsAt(data, i, |ns|) == Some(ns)
    decreases |ns|
  {
    if ns != [] {
      assert ns == [ns[0]] + ns[1..];
      assert IntWords(ns)[1..] == IntWords(ns[1..]);
      AtConcat(data, i, IntBytes(ns[0]), Flat(IntWords(ns[1..])));
      IntRoundTrip(data, i, ns[0]);
      IntsDecoded(data, i + 4, ns[1..]);
    }
  }

  lemma {:induction false} F32sDecoded(data: Bytes, i: nat, fs: seq<Bytes>)
    requires At(data, i, Flat(fs)) && forall j :: 0 <= j < |fs| ==> |fs[j]| == 4
    ensures F32sAt(data, i, |fs|) == Some(fs)
    decreases |fs|
  {
    if fs != [] {
      assert fs == [fs[0]] + fs[1..];
      AtConcat(data, i, fs[0], Flat(fs[1..]));
      AtIsSlice(data, i, fs[0]);
      F32sDecoded(data, i + 4, fs[1..]);
    }
  }

  lemma StringDecoded(data: Bytes, i: nat, s: Bytes)
    requires At(data, i, Encode(|s|) + s)
    ensures StringAt(data, i) == Some((s, i + |Encode(|s|)| + |s|))
  {
    hide FieldBytes, FieldWf, FieldOf;
    EncodeIsLeb(|s|);
    AtConcat(data, i, Encode(|s|), s);
    ParseLeb(data, i, Encode(|s|));
    AtIsSlice(data, i + |Encode(|s|)|, s);
  }

  lemma {:induction false} StringsDecoded(data: Bytes, i: nat, ss: seq<Bytes>)
    requires At(data, i, Flat(CountedStrings(ss)))
    ensures StringsAt(data, i, |ss|) == Some((ss, i + |Flat(CountedStrings(ss))|))
    decreases |ss|
  {
    if ss != [] {
      assert ss == [ss[0]] + ss[1..];
      assert CountedStrings(ss)[1..] == CountedStrings(ss[1..]);
      var first := Encode(|ss[0]|) + ss[0];
      AtConcat(data, i, first, Flat(CountedStrings(ss[1..])));
      StringDecoded(data, i, ss[0]);
      StringsDecoded(data, i + |first|, ss[1..]);
    }
  }

  /** Argument `a` is read back from `needle` and `taken`, leaving both cursors behind it. */
  ghost predicate ReadsBack(t: ArgType, a: CallArg, data: Bytes, fds: seq<int>, needle: nat, taken: nat) {
    ParseArg(t, data, fds, needle, taken) ==
    Some(Read(a, needle + |FieldBytes(FieldOf(a))|, taken + |ArgFds(a)|))
  }

  lemma WordDecoded(t: ArgType, a: CallArg, data: Bytes, fds: seq<int>, needle: nat, taken: nat)
    requires Typed(t, a) && IsWordType(t) && At(data, needle, FieldBytes(FieldOf(a)))
    ensures ReadsBack(t, a, data, fds, needle, taken)
  {
    match a
    case Uint(u) => AtConcat(data, needle, [UINT], U32Bytes(u)); U32RoundTrip(data, needle + 1, u);
    case Int(n) => AtConcat(data, needle, [INT], IntBytes(n)); IntRoundTrip(data, needle + 1, n);
    case F32(f) => AtConcat(data, needle, [FLOAT], f); AtIsSlice(data, needle + 1, f);
    case _ =>
  }

  /** The count of an array field, and where its elements stand. */
  lemma CountDecoded(data: Bytes, p: nat, e: byte, n: nat, rest: Bytes)
    requires At(data, p, [ARRAY, e] + (Encode(n) + rest))
    ensures ParseAt(data, p + 2) == Parsed(n, |Encode(n)|) && At(data, p + 2 + |Encode(n)|, rest)
  {
    EncodeIsLeb(n);
    CountScanned(data, p, e, Encode(n), rest);
  }

  lemma WordArrayDecoded(t: ArgType, a: CallArg, data: Bytes, fds: seq<int>, needle: nat, taken: nat)
    requires Typed(t, a) && (t.TArrayUint? || t.TArrayInt? || t.TArrayF32?)
    requires At(data, needle, FieldBytes(FieldOf(a)))
    ensures ReadsBack(t, a, data, fds, needle, taken)
  {
    var f := FieldOf(a);
    CountDecoded(data, needle, f.element, Elements(a), f.body);
    var p := needle + 2 + |f.count|;
    match a
    case UintArray(us) => U32sDecoded(data, p, us); FlatLength(U32Words(us));
    case IntArray(ns) => IntsDecoded(data, p, ns); FlatLength(IntWords(ns));
    case F32Array(fs) => F32sDecoded(data, p, fs); FlatLength(fs);
    case _ =>
  }

  lemma TextArrayDecoded(a: CallArg, data: Bytes, fds: seq<int>, needle: nat, taken: nat)
    requires a.VarcharArray? && At(data, needle, FieldBytes(FieldOf(a)))
    ensures ReadsBack(TArrayVarchar, a, data, fds, needle, taken)
  {
    hide Encode, ParseAt, CountedStrings;
    TextsFlat(a.ss);
    CountDecoded(data, needle, VARCHAR, |a.ss|, Flat(CountedStrings(a.ss)));
    StringsDecoded(data, needle + 2 + |Encode(|a.ss|)|, a.ss);
  }

  lemma FdArrayDecoded(a: CallArg, data: Bytes, fds: seq<int>, needle: nat, taken: nat)
    requires a.FdArray? && At(data, needle, FieldBytes(FieldOf(a))) && FdsAt(fds, taken, a.fds)
    ensures ReadsBack(TArrayFd, a, data, fds, needle, taken)
  {
    assert Encode(|a.fds|) + [] == Encode(|a.fds|);
    CountDecoded(data, needle, FD, |a.fds|, []);
    if taken == |fds| { assert a.fds == []; }
  }

  lemma VarcharDecoded(a: CallArg, data: Bytes, fds: seq<int>, needle: nat, taken: nat)
    requires Typed(TVarchar, a) && At(data, needle, FieldBytes(FieldOf(a)))
    ensures ReadsBack(TVarchar, a, data, fds, needle, taken)
  {
    AtConcat(data, needle, [VARCHAR], Encode(|a.s|) + a.s);
    StringDecoded(data, needle + 1, a.s);
  }

  lemma FdDecoded(a: CallArg, data: Bytes, fds: seq<int>, needle: nat, taken: nat)
    requires Typed(TFd, a) && At(data, needle, FieldBytes(FieldOf(a))) && FdsAt(fds, taken, ArgFds(a))
    ensures ReadsBack(TFd, a, data, fds, needle, taken)
  {
    assert fds[taken..taken + 1] == [a.fd];
  }

  lemma ArgDecoded(t: ArgType, a: CallArg, data: Bytes, fds: seq<int>, needle: nat, taken: nat)
    requires Typed(t, a) && At(data, needle, FieldBytes(FieldOf(a))) && FdsAt(fds, taken, ArgFds(a))
    ensures ReadsBack(t, a, data, fds, needle, taken)
  {
    hide FieldBytes, FieldOf, At, ReadsBack, FdsAt;
    if IsWordType(t) {
      WordDecoded(t, a, data, fds, needle, taken);
    } else if t.TVarchar? {
      VarcharDecoded(a, data, fds, needle, taken);
    } else if t.TFd? {
      FdDecoded(a, data, fds, needle, taken);
    } else if t.TArrayVarchar? {
      TextArrayDecoded(a, data, fds, needle, taken);
    } else if t.TArrayFd? {
      FdArrayDecoded(a, data, fds, needle, taken);
    } else {
      WordArrayDecoded(t, a, data, fds, needle, taken);
    }
  }

  lemma ParseArgsStep(tys: seq<ArgType>, data: Bytes, fds: seq<int>, needle: nat, taken: nat,
                      r: Read<CallArg>, rest: Read<seq<CallArg>>)
    requires tys != [] && ParseArg(tys[0], data, fds, needle, taken) == Some(r)
    requires ParseArgs(tys[1..], data, fds, r.needle, r.taken) == Some(rest)
    ensures ParseArgs(tys, data, fds, needle, taken) == Some(Read([r.value] + rest.value, rest.needle, rest.taken))
  {
  }

  /** The arguments stand at the two cursors. */
  ghost predicate ArgsAt(args: seq<CallArg>, data: Bytes, fds: seq<int>, needle: nat, taken: nat) {
    At(data, needle, FieldsBytes(FieldsOf(args))) && FdsAt(fds, taken, AllFds(args))
  }

  lemma ArgsAtStep(args: seq<CallArg>, data: Bytes, fds: seq<int>, needle: nat, taken: nat)
    requires args != [] && ArgsAt(args, data, fds, needle, taken)
    ensures At(data, needle, FieldBytes(FieldOf(args[0]))) && FdsAt(fds, taken, ArgFds(args[0]))
    ensures ArgsAt(args[1..], data, fds, needle + |FieldBytes(FieldOf(args[0]))|, taken + |ArgFds(args[0])|)
    ensures |FieldsBytes(FieldsOf(args))| == |FieldBytes(FieldOf(args[0]))| + |FieldsBytes(FieldsOf(args[1..]))|
    ensures |AllFds(args)| == |ArgFds(args[0])| + |AllFds(args[1..])|
  {
    hide FieldBytes, FieldOf, ArgFds, At, FdsAt;
    assert FieldsOf(args)[1..] == FieldsOf(args[1..]);
    AtConcat(data, needle, FieldBytes(FieldOf(args[0])), FieldsBytes(FieldsOf(args[1..])));
    FdsConcat(fds, taken, ArgFds(args[0]), AllFds(args[1..]));
  }

  /** Where the arguments end. */
  function After(args: seq<CallArg>, needle: nat, taken: nat): Read<seq<CallArg>> {
    Read(args, needle + |FieldsBytes(FieldsOf(args))|, taken + |AllFds(args)|)
  }

  /** Reading the first argument leaves the cursors at the others. */
  lemma FirstDecoded(t: ArgType, args: seq<CallArg>, data: Bytes, fds: seq<int>, needle: nat, taken: nat)
    returns (r: Read<CallArg>)
    requires args != [] && Typed(t, args[0]) && ArgsAt(args, data, fds, needle, taken)
    ensures ParseArg(t, data, fds, needle, taken) == Some(r) && r.value == args[0]
    ensures ArgsAt(args[1..], data, fds, r.needle, r.taken)
    ensures After(args, needle, taken) == After(args[1..], r.needle, r.taken).(value := args)
  {
    r := ArgRead(t, args, data, fds, needle, taken);
    RestAt(args, data, fds, needle, taken, r);
  }

  lemma ArgRead(t: ArgType, args: seq<CallArg>, data: Bytes, fds: seq<int>, needle: nat, taken: nat)
    returns (r: Read<CallArg>)
    requires args != [] && Typed(t, args[0]) && ArgsAt(args, data, fds, needle, taken)
    ensures ParseArg(t, data, fds, needle, taken) == Some(r)
    ensures r == Read(args[0], needle + |FieldBytes(FieldOf(args[0]))|, taken + |ArgFds(args[0])|)
  {
    ArgsAtStep(args, data, fds, needle, taken);
    ArgDecoded(t, args[0], data, fds, needle, taken);
    r := Read(args[0], needle + |FieldBytes(FieldOf(args[0]))|, taken + |ArgFds(args[0])|);
  }

  lemma RestAt(args: seq<CallArg>, data: Bytes, fds: seq<int>, needle: nat, taken: nat, r: Read<CallArg>)
    requires args != [] && ArgsAt(args, data, fds, needle, taken)
    requires r == Read(args[0], needle + |FieldBytes(FieldOf(args[0]))|, taken + |ArgFds(args[0])|)
    ensures ArgsAt(args[1..], data, fds, r.needle, r.taken)
    ensures After(args, needle, taken) == After(args[1..], r.needle, r.taken).(value := args)
  {
    hide FieldBytes, FieldWf, FieldOf, At, FdsAt;
    ArgsAtStep(args, data, fds, needle, taken);
  }

  lemma {:induction false} ArgsDecoded(tys: seq<ArgType>, args: seq<CallArg>, data: Bytes, fds: seq<int>, needle: nat, taken: nat)
    requires AllTyped(tys, args) && ArgsAt(args, data, fds, needle, taken)
    ensures ParseArgs(tys, data, fds, needle, taken) == Some(After(args, needle, taken))
    decreases |tys|
  {
    if tys == [] {
      assert args == [];
    } else {
      var r := FirstDecoded(tys[0], args, data, fds, needle, taken);
      ArgsDecoded(tys[1..], args[1..], data, fds, r.needle, r.taken);
      ParseArgsStep(tys, data, fds, needle, taken, r, After(args[1..], r.needle, r.taken));
      assert args == [args[0]] + args[1..];
    }
  }

  // ---- the theorem -----------------------------------------------------------------------------

  lemma {:induction false} DemandIsFds(tys: seq<ArgType>, args: seq<CallArg>)
    requires AllTyped(tys, args)
    ensures AllWf(FieldsOf(args)) && FieldsDemand(FieldsOf(args)) == |AllFds(args)|
  {
    if args != [] {
      assert FieldsOf(args)[1..] == FieldsOf(args[1..]);
      DemandIsFds(tys[1..], args[1..]);
      FieldOfTyped(tys[0], args[0]);
      forall i | 0 <= i < |args| ensures FieldWf(FieldsOf(args)[i]) { FieldOfTyped(tys[i], args[i]); }
    }
  }

  lemma CallIsWf(target: nat, op: nat, ret: Option<nat>, tys: seq<ArgType>, args: seq<CallArg>)
    requires WellTyped(target, op, ret, tys, args)
    ensures var k := TheCall(target, op, ret, args);
      && CallWf(k) && FieldsDemand(k.fields) == |AllFds(args)|
      && (AllSmall(k.fields) <==> Sendable(args))
  {
    DemandIsFds(tys, args);
    var fs := FieldsOf(args);
    forall i | 0 <= i < |args| ensures Small(fs[i]) <==> Elements(args[i]) < MAX_ARRAY {
      FieldOfTyped(tys[i], args[i]);
    }
    var all := CallFields(ret, args);
    if ret.Some? {
      assert all[1..] == fs && all[0] == Word(SEQ, U32Bytes(ret.value));
      assert forall i :: 0 <= i < |fs| ==> all[i + 1] == fs[i];
    } else {
      assert all == fs;
    }
  }

  /** The span a handler sees. */
  function Span(ret: Option<nat>, args: seq<CallArg>): Bytes {
    FieldsBytes(CallFields(ret, args)) + [END]
  }

  lemma SpanParts(ret: Option<nat>, args: seq<CallArg>)
    ensures var lead := if ret.Some? then 5 else 0;
      && |Span(ret, args)| == lead + |FieldsBytes(FieldsOf(args))| + 1
      && At(Span(ret, args), lead, FieldsBytes(FieldsOf(args)))
      && (ret.Some? ==> At(Span(ret, args), 1, U32Bytes(ret.value)))
  {
    hide FieldsBytes, FieldsOf, CallFields;
    CallFieldsBytes(ret, args);
    var fields := FieldsBytes(FieldsOf(args));
    var span := Span(ret, args);
    assert At(span, 0, span);
    if ret.Some? {
      assert span == [SEQ] + (U32Bytes(ret.value) + (fields + [END]));
      AtConcat(span, 0, [SEQ], U32Bytes(ret.value) + (fields + [END]));
      AtConcat(span, 1, U32Bytes(ret.value), fields + [END]);
      AtConcat(span, 5, fields, [END]);
    } else {
      assert span == fields + [END];
      AtConcat(span, 0, fields, [END]);
    }
  }

  /** The handler's view of a call decodes to what was passed, and its cursor ends on End. */
  lemma SpanDecoded(target: nat, op: nat, ret: Option<nat>, tys: seq<ArgType>, args: seq<CallArg>)
    requires WellTyped(target, op, ret, tys, args)
    ensures Decode(ret.Some?, tys, Span(ret, args), AllFds(args)) ==
            Some((ret, Read(args, |Span(ret, args)| - 1, |AllFds(args)|)))
  {
    SpanParts(ret, args);
    ArgsDecoded(tys, args, Span(ret, args), AllFds(args), if ret.Some? then 5 else 0, 0);
    if ret.Some? { U32RoundTrip(Span(ret, args), 1, ret.value); }
  }

  /** What the receiver makes of the frame at `offset`: the parsed message, the decoded
      sequence number and arguments, and the fds left over. */
  ghost predicate Received(data: Bytes, fds: seq<int>, offset: nat, target: nat, op: nat, ret: Option<nat>,
                           tys: seq<ArgType>, args: seq<CallArg>, after: seq<int>) {
    match FromBytes(data, fds, offset)
    case Err(_) => false
    case Ok((g, rest)) =>
      && g.object_ == target && g.op == op && rest == after
      && var span := DataSpan(g);
      && span != [] && span[|span| - 1] == END
      && Decode(ret.Some?, tys, span, g.fds) == Some((ret, Read(args, |span| - 1, |g.fds|)))
  }

  /** For every well-typed call, at every offset, with any bytes and fds behind it: the
      receiver gets target, method, sequence number, arguments and fds back in order and
      its cursor stops on End, if and only if every array has fewer than 10000 elements;
      otherwise the frame is refused with ArrayTooLong. */
  lemma EndToEnd(target: nat, op: nat, ret: Option<nat>, tys: seq<ArgType>, args: seq<CallArg>,
                 data: Bytes, offset: nat, after: seq<int>)
    requires WellTyped(target, op, ret, tys, args)
    ensures var e := EncodeCall(target, op, ret, ParamsOf(tys), args);
      e.Done? &&
      (At(data, offset, e.data) ==>
         if Sendable(args) then Received(data, e.fds + after, offset, target, op, ret, tys, args, after)
         else FromBytes(data, e.fds + after, offset) == Err(ArrayTooLong))
  {
    hide EncodeCall, ParamsOf, AllTyped, CallBytes, CallFields, Sendable, CallWf, AllSmall, FieldsDemand, Decode, At, FromBytes;
    TypedEncoding(target, op, ret, tys, args);
    var k := TheCall(target, op, ret, args);
    var fds := AllFds(args) + after;
    CallIsWf(target, op, ret, tys, args);
    if At(data, offset, CallBytes(k)) {
      CallAccepted(data, fds, offset, k);
      if Sendable(args) {
        assert fds[..|AllFds(args)|] == AllFds(args) && fds[|AllFds(args)|..] == after;
        SpanOfCall(k, fds);
        SpanDecoded(target, op, ret, tys, args);
      }
    }
  }
}
