// The decoding statements the generator emits for a method:
// hyprwire-scanner/src/generate.rs:90-126, 150-314, 428-466.
module Decoder {
  import opened Types
  import opened VarInt
  import opened Payload
  import opened Scanning
  import opened Encoder
  import Utf8

  /** `magic_for_arg`. */
  function Magics(t: ArgType): (m: Bytes)
    ensures |m| >= 1
  {
    match t
    case TVarchar => [VARCHAR]
    case TFd => [FD]
    case TUint => [UINT]
    case TEnum => [UINT]
    case TInt => [INT]
    case TF32 => [FLOAT]
    case TArrayVarchar => [ARRAY, VARCHAR]
    case TArrayFd => [ARRAY, FD]
    case TArrayUint => [ARRAY, UINT]
    case TArrayInt => [ARRAY, INT]
    case TArrayF32 => [ARRAY, FLOAT]
  }

  function ParamsOf(tys: seq<ArgType>): Bytes {
    if tys == [] then [] else Magics(tys[0]) + ParamsOf(tys[1..])
  }

  // ---- the emitted statements --------------------------------------------------------------

  /** Where a decoder stands: `__needle` and the position of `__fds_iter`. */
  datatype Read<+T> = Read(value: T, needle: nat, taken: nat)

  function IntAt(data: Bytes, i: nat): int
    requires i + 4 <= |data|
  {
    var n := U32At(data, i);
    if n >= 0x8000_0000 then n - U32_LIMIT else n
  }

  /** `n` consecutive little-endian words; None is the slice panic. */
  function U32sAt(data: Bytes, i: nat, n: nat): Option<seq<nat>>
    decreases n
  {
    if n == 0 then Some([])
    else if i + 4 > |data| then None
    else match U32sAt(data, i + 4, n - 1)
      case None => None
      case Some(us) => Some([U32At(data, i)] + us)
  }

  function IntsAt(data: Bytes, i: nat, n: nat): Option<seq<int>>
    decreases n
  {
    if n == 0 then Some([])
    else if i + 4 > |data| then None
    else match IntsAt(data, i + 4, n - 1)
      case None => None
      case Some(ns) => Some([IntAt(data, i)] + ns)
  }

  function F32sAt(data: Bytes, i: nat, n: nat): Option<seq<Bytes>>
    decreases n
  {
    if n == 0 then Some([])
    else if i + 4 > |data| then None
    else match F32sAt(data, i + 4, n - 1)
      case None => None
      case Some(fs) => Some([data[i..i + 4]] + fs)
  }

  /** A counted string at `i`, and where it ends. */
  function StringAt(data: Bytes, i: nat): Option<(Bytes, nat)> {
    var v := ParseAt(data, i);
    if i + v.len + v.value > |data| then None
    else Some((data[i + v.len..i + v.len + v.value], i + v.len + v.value))
  }

  function StringsAt(data: Bytes, i: nat, n: nat): Option<(seq<Bytes>, nat)>
    decreases n
  {
    if n == 0 then Some(([], i))
    else match StringAt(data, i)
      case None => None
      case Some((s, j)) =>
        match StringsAt(data, j, n - 1)
        case None => None
        case Some((ss, e)) => Some(([s] + ss, e))
  }

  /** `write_parse_arg`: the statements for one argument.  The magic bytes are stepped
      over unread; None is a panic of the emitted code. */
  function ParseArg(t: ArgType, data: Bytes, fds: seq<int>, needle: nat, taken: nat): Option<Read<CallArg>> {
    match t
    case TVarchar =>
      (match StringAt(data, needle + 1)
       case None => None
       case Some((s, e)) => Some(Read(Varchar(s), e, taken)))
    case TFd => if taken < |fds| then Some(Read(Fd(fds[taken]), needle + 1, taken + 1)) else None
    case _ =>
      if IsWordType(t) then
        if needle + 5 > |data| then None else Some(Read(WordArg(t, data, needle + 1), needle + 5, taken))
      else ParseArrayArg(t, data, fds, needle, taken)
  }

  predicate IsWordType(t: ArgType) {
    t.TUint? || t.TEnum? || t.TInt? || t.TF32?
  }

  function WordArg(t: ArgType, data: Bytes, i: nat): CallArg
    requires i + 4 <= |data|
  {
    if t.TInt? then Int(IntAt(data, i)) else if t.TF32? then F32(data[i..i + 4]) else Uint(U32At(data, i))
  }

  function ParseArrayArg(t: ArgType, data: Bytes, fds: seq<int>, needle: nat, taken: nat): Option<Read<CallArg>> {
    var v := ParseAt(data, needle + 2);
    var p := needle + 2 + v.len;
    match t
    case TArrayUint =>
      var us := U32sAt(data, p, v.value);
      if us.None? then None else Some(Read(UintArray(us.value), p + 4 * v.value, taken))
    case TArrayInt =>
      var ns := IntsAt(data, p, v.value);
      if ns.None? then None else Some(Read(IntArray(ns.value), p + 4 * v.value, taken))
    case TArrayF32 =>
      var fs := F32sAt(data, p, v.value);
      if fs.None? then None else Some(Read(F32Array(fs.value), p + 4 * v.value, taken))
    case TArrayVarchar =>
      var ss := StringsAt(data, p, v.value);
      if ss.None? then None else Some(Read(VarcharArray(ss.value.0), ss.value.1, taken))
    case TArrayFd =>
      // `take` stops early when the iterator runs dry
      var end := if taken >= |fds| then taken else if taken + v.value < |fds| then taken + v.value else |fds|;
      Some(Read(FdArray(if taken <= |fds| then fds[taken..end] else []), p, end))
    case _ => None
  }

  /** The statements for a whole argument list. */
  function ParseArgs(tys: seq<ArgType>, data: Bytes, fds: seq<int>, needle: nat, taken: nat): Option<Read<seq<CallArg>>>
    decreases tys
  {
    if tys == [] then Some(Read([], needle, taken))
    else
      var r := ParseArg(tys[0], data, fds, needle, taken);
      if r.None? then None
      else
        var rest := ParseArgs(tys[1..], data, fds, r.value.needle, r.value.taken);
        if rest.None? then None
        else Some(Read([r.value.value] + rest.value.value, rest.value.needle, rest.value.taken))
  }

  /** The body of one `match __method` arm: the sequence number of a returned object first,
      then the arguments. */
  function Decode(returned: bool, tys: seq<ArgType>, data: Bytes, fds: seq<int>): Option<(Option<nat>, Read<seq<CallArg>>)> {
    if !returned then
      match ParseArgs(tys, data, fds, 0, 0)
      case None => None
      case Some(r) => Some((None, r))
    else if 5 > |data| then None
    else
      match ParseArgs(tys, data, fds, 5, 0)
      case None => None
      case Some(r) => Some((Some(U32At(data, 1)), r))
  }

  // ---- typed calls -------------------------------------------------------------------------

  /** The argument the generated call site builds for a parameter of type `t`; strings
      come from `str`, so they are UTF-8. */
  ghost predicate Typed(t: ArgType, a: CallArg) {
    match t
    case TUint => a.Uint? && a.u < U32_LIMIT
    case TEnum => a.Uint? && a.u < U32_LIMIT
    case TInt => a.Int? && I32(a.i)
    case TF32 => a.F32? && |a.f| == 4
    case TVarchar => a.Varchar? && Utf8.Valid(a.s)
    case TFd => a.Fd?
    case TArrayUint => a.UintArray? && forall i :: 0 <= i < |a.us| ==> a.us[i] < U32_LIMIT
    case TArrayInt => a.IntArray? && forall i :: 0 <= i < |a.ns| ==> I32(a.ns[i])
    case TArrayF32 => a.F32Array? && forall i :: 0 <= i < |a.fs| ==> |a.fs[i]| == 4
    case TArrayVarchar => a.VarcharArray? && forall i :: 0 <= i < |a.ss| ==> Utf8.Valid(a.ss[i])
    case TArrayFd => a.FdArray?
  }

  predicate I32(n: int) {
    -0x8000_0000 <= n < 0x8000_0000
  }

  ghost predicate AllTyped(tys: seq<ArgType>, args: seq<CallArg>) {
    |args| == |tys| && forall i :: 0 <= i < |tys| ==> Typed(tys[i], args[i])
  }

  function ArgFds(a: CallArg): seq<int> {
    match a
    case Fd(fd) => [fd]
    case FdArray(fds) => fds
    case _ => []
  }

  function AllFds(args: seq<CallArg>): seq<int> {
    if args == [] then [] else ArgFds(args[0]) + AllFds(args[1..])
  }

  function Texts(ss: seq<Bytes>): (ts: seq<Text>)
    ensures |ts| == |ss|
  {
    seq(|ss|, i requires 0 <= i < |ss| => Text(Encode(|ss[i]|), ss[i]))
  }

  /** The field a typed argument is written as. */
  function FieldOf(a: CallArg): Field {
    match a
    case Uint(u) => Word(UINT, U32Bytes(u))
    case Object(o) => Word(OBJECT, U32Bytes(o))
    case Int(n) => Word(INT, IntBytes(n))
    case F32(f) => Word(FLOAT, f)
    case Varchar(s) => Str(Text(Encode(|s|), s))
    case Fd(_) => Descriptor
    case UintArray(us) => WordArray(UINT, Encode(|us|), Flat(U32Words(us)))
    case ObjectArray(os) => WordArray(OBJECT, Encode(|os|), Flat(U32Words(os)))
    case IntArray(ns) => WordArray(INT, Encode(|ns|), Flat(IntWords(ns)))
    case F32Array(fs) => WordArray(FLOAT, Encode(|fs|), Flat(fs))
    case FdArray(fds) => DescriptorArray(Encode(|fds|))
    case VarcharArray(ss) => TextArray(Encode(|ss|), Texts(ss))
  }

  function FieldsOf(args: seq<CallArg>): (fs: seq<Field>)
    ensures |fs| == |args|
  {
    seq(|args|, i requires 0 <= i < |args| => FieldOf(args[i]))
  }
}
