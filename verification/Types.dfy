// Shared vocabulary: bytes, names, and the argument and method descriptions of
// hyprwire-core/src/types.rs and hyprwire-scanner/src/parse.rs.
module Types {
  type byte = b: int | 0 <= b < 256
  type Bytes = seq<byte>

  /** Protocol and interface names; the empty name stands for "no returned interface". */
  type Name = Bytes

  datatype Option<+T> = None | Some(value: T)

  /** The argument types a protocol description may use. */
  datatype ArgType =
    | TVarchar | TFd | TUint | TInt | TF32 | TEnum
    | TArrayVarchar | TArrayFd | TArrayUint | TArrayInt | TArrayF32

  /** Argument values.  An f32 is its four bytes, an fd its descriptor number. */
  datatype CallArg =
    | Uint(u: nat)
    | Int(i: int)
    | F32(f: Bytes)
    | Object(o: nat)
    | Varchar(s: Bytes)
    | Fd(fd: int)
    | UintArray(us: seq<nat>)
    | IntArray(ns: seq<int>)
    | F32Array(fs: seq<Bytes>)
    | ObjectArray(os: seq<nat>)
    | FdArray(fds: seq<int>)
    | VarcharArray(ss: seq<Bytes>)

  const U32_LIMIT: int := 0x1_0000_0000

  // ---- what a receiver takes -------------------------------------------------------------

  /** An array of this many elements, or a list of this many protocols or versions, is
      refused: hyprwire-core/src/message/wire/generic_protocol_message.rs,
      handshake_protocols.rs:71-74 and handshake_begin.rs. */
  const MAX_ARRAY: nat := 10000
  const MAX_PROTOCOLS: nat := 2048
  const MAX_VERSIONS: nat := 256

  /** Elements of an array argument; 0 for the others. */
  function Elements(a: CallArg): nat {
    match a
    case UintArray(us) => |us|
    case IntArray(ns) => |ns|
    case F32Array(fs) => |fs|
    case ObjectArray(os) => |os|
    case FdArray(fds) => |fds|
    case VarcharArray(ss) => |ss|
    case _ => 0
  }

  /** Whether the scanner will take the arguments. */
  predicate Sendable(args: seq<CallArg>) {
    forall i :: 0 <= i < |args| ==> Elements(args[i]) < MAX_ARRAY
  }

  // ---- protocol descriptions ---------------------------------------------------------------

  datatype Method = Method(params: seq<ArgType>, creates: Name, since: nat, destructor: bool)

  /** A protocol object description: requests go client to server, events come back. */
  datatype Iface = Iface(name: Name, c2s: seq<Method>, s2c: seq<Method>)

  /** The protocol descriptions both peers were generated from, by protocol name. */
  type Catalog = map<Name, seq<Iface>>

  /** `name@version` as registered by the server and advertised to the client. */
  datatype Advert = Advert(name: Name, version: nat)

  /** The first element of `table` that belongs to `want`: every `iter().find` of the sources. */
  function First(table: seq<nat>, want: set<nat>): (r: Option<nat>)
    ensures r.Some? ==> r.value in table && r.value in want
    ensures r.None? ==> forall i :: i in table ==> i !in want
  {
    if table == [] then None
    else if table[0] in want then Some(table[0])
    else First(table[1..], want)
  }

  /** `Vec::retain` of everything outside `gone`. */
  function Retain(table: seq<nat>, gone: set<nat>): (r: seq<nat>)
    ensures forall i :: i in r <==> i in table && i !in gone
    ensures |r| <= |table|
  {
    if table == [] then []
    else if table[0] in gone then Retain(table[1..], gone)
    else [table[0]] + Retain(table[1..], gone)
  }

  lemma {:induction false} FirstIsFirst(table: seq<nat>, want: set<nat>) returns (k: nat)
    requires First(table, want).Some?
    ensures k < |table| && table[k] == First(table, want).value
    ensures forall j :: 0 <= j < k ==> table[j] !in want
  {
    if table[0] in want {
      k := 0;
    } else {
      var l := FirstIsFirst(table[1..], want);
      k := l + 1;
      forall j | 0 <= j < k ensures table[j] !in want {
        if j > 0 { assert table[j] == table[1..][j - 1]; }
      }
    }
  }

  lemma RetainNext(kept: seq<nat>, t: seq<nat>, gone: set<nat>)
    requires t != []
    ensures kept + Retain(t, gone) == (if t[0] in gone then kept else kept + [t[0]]) + Retain(t[1..], gone)
  {
  }

  lemma RetainOne(x: nat, gone: set<nat>)
    ensures Retain([x], gone) == if x in gone then [] else [x]
  {
    assert [x][1..] == [];
  }

  /** Retaining decides entry by entry and keeps their order and number. */
  lemma {:induction false} RetainIsFilter(t: seq<nat>, u: seq<nat>, gone: set<nat>)
    ensures Retain(t + u, gone) == Retain(t, gone) + Retain(u, gone)
    ensures forall x: nat :: Retain([x], gone) == if x in gone then [] else [x]
  {
    forall x: nat ensures Retain([x], gone) == if x in gone then [] else [x] { RetainOne(x, gone); }
    if t == [] {
      assert t + u == u;
    } else {
      assert (t + u)[1..] == t[1..] + u;
      RetainIsFilter(t[1..], u, gone);
    }
  }

  function SetOf<T(==)>(s: seq<T>): set<T> {
    set x | x in s
  }

  ghost predicate NoDuplicates<T>(s: seq<T>) {
    forall i, j :: 0 <= i < j < |s| ==> s[i] != s[j]
  }

  ghost predicate Increasing(t: seq<nat>) {
    forall i, j :: 0 <= i < j < |t| ==> t[i] < t[j]
  }

  lemma {:induction false} RetainIncreasing(t: seq<nat>, gone: set<nat>)
    requires Increasing(t)
    ensures Increasing(Retain(t, gone))
  {
    if t != [] {
      RetainIncreasing(t[1..], gone);
      var r := Retain(t[1..], gone);
      forall j | 0 <= j < |r| ensures t[0] < r[j] {
        assert r[j] in t[1..];
      }
    }
  }

  lemma {:induction false} RetainNone(t: seq<nat>)
    ensures Retain(t, {}) == t
  {
    if t != [] { RetainNone(t[1..]); }
  }

  lemma {:induction false} RetainTwice(t: seq<nat>, a: set<nat>, b: set<nat>)
    ensures Retain(Retain(t, a), b) == Retain(t, a + b)
  {
    if t != [] { RetainTwice(t[1..], a, b); }
  }

  lemma PushIncreasing(t: seq<nat>, n: nat)
    requires Increasing(t) && forall i :: i in t ==> i < n
    ensures Increasing(t + [n])
  {
    forall i, j | 0 <= i < j < |t| + 1 ensures (t + [n])[i] < (t + [n])[j] {
      assert t[i] in t;
    }
  }

  function FindIface(ifaces: seq<Iface>, name: Name): (r: Option<Iface>)
    ensures r.Some? ==> r.value in ifaces && r.value.name == name
    ensures r.None? ==> forall f :: f in ifaces ==> f.name != name
  {
    if ifaces == [] then None
    else if ifaces[0].name == name then Some(ifaces[0])
    else FindIface(ifaces[1..], name)
  }

  function FindAdvert(specs: seq<Advert>, name: Name): (r: Option<Advert>)
    ensures r.Some? ==> r.value in specs && r.value.name == name
    ensures r.None? ==> forall a :: a in specs ==> a.name != name
  {
    if specs == [] then None
    else if specs[0].name == name then Some(specs[0])
    else FindAdvert(specs[1..], name)
  }

  /** Of several interfaces or adverts of one name the first is found. */
  lemma {:induction false} FirstOfName(ifaces: seq<Iface>, name: Name) returns (k: nat)
    requires FindIface(ifaces, name).Some?
    ensures k < |ifaces| && FindIface(ifaces, name) == Some(ifaces[k])
    ensures forall j :: 0 <= j < k ==> ifaces[j].name != name
  {
    k := 0;
    if ifaces[0].name != name {
      var l := FirstOfName(ifaces[1..], name);
      k := l + 1;
    }
  }

  lemma {:induction false} FirstAdvertised(specs: seq<Advert>, name: Name) returns (k: nat)
    requires FindAdvert(specs, name).Some?
    ensures k < |specs| && FindAdvert(specs, name) == Some(specs[k])
    ensures forall j :: 0 <= j < k ==> specs[j].name != name
  {
    k := 0;
    if specs[0].name != name {
      var l := FirstAdvertised(specs[1..], name);
      k := l + 1;
    }
  }
}
