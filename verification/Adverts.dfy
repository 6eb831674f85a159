// How the server advertises its protocols and how the client reads the list:
// hyprwire/src/message.rs:237-254 and hyprwire/src/client/client_socket.rs:204-223.
module Adverts {
  import opened Types

  const AT: byte := 64
  const PLUS: byte := 43
  const ZERO: byte := 48

  /** Decimal digits without leading zeros, as `{}` prints an unsigned integer. */
  function Digits(n: nat): (r: Bytes)
    ensures r != []
    ensures forall i :: 0 <= i < |r| ==> ZERO <= r[i] <= ZERO + 9
  {
    if n < 10 then [ZERO + n] else Digits(n / 10) + [ZERO + n % 10]
  }

  /** The value of a digit string; None as soon as a byte is not a digit or the value
      leaves the u32 range. */
  function DigitsValue(s: Bytes): (r: Option<nat>)
    ensures r.Some? ==> r.value < U32_LIMIT
  {
    if s == [] then Some(0)
    else
      var last := s[|s| - 1];
      match DigitsValue(s[..|s| - 1])
      case None => None
      case Some(v) =>
        if ZERO <= last <= ZERO + 9 && 10 * v + (last - ZERO) < U32_LIMIT then Some(10 * v + (last - ZERO))
        else None
  }

  /** `str::parse::<u32>`: an optional plus sign and at least one digit. */
  function ParseU32(s: Bytes): Option<nat> {
    var d := if s != [] && s[0] == PLUS then s[1..] else s;
    if d == [] then None else DigitsValue(d)
  }

  /** `rfind('@')`; the length of the string when there is none. */
  function LastAt(s: Bytes): (r: nat)
    ensures r <= |s|
    ensures r < |s| ==> s[r] == AT && forall i :: r < i < |s| ==> s[i] != AT
    ensures r == |s| ==> forall i :: 0 <= i < |s| ==> s[i] != AT
  {
    if s == [] then 0
    else if s[|s| - 1] == AT then |s| - 1
    else
      var r := LastAt(s[..|s| - 1]);
      if r == |s| - 1 then |s| else r
  }

  function Format(a: Advert): Bytes {
    a.name + [AT] + Digits(a.version)
  }

  function FormatAll(specs: seq<Advert>): (r: seq<Bytes>)
    ensures |r| == |specs|
  {
    if specs == [] then [] else [Format(specs[0])] + FormatAll(specs[1..])
  }

  function Parse(s: Bytes): Option<Advert> {
    var at := LastAt(s);
    if at == |s| then None
    else match ParseU32(s[at + 1..])
      case None => None
      case Some(v) => Some(Advert(s[..at], v))
  }

  /** Malformed entries are skipped. */
  function ParseAll(ps: seq<Bytes>): seq<Advert> {
    if ps == [] then []
    else match Parse(ps[0])
      case None => ParseAll(ps[1..])
      case Some(a) => [a] + ParseAll(ps[1..])
  }

  // ---- what parses ----------------------------------------------------------------------

  function Decimal(d: Bytes): int {
    if d == [] then 0 else 10 * Decimal(d[..|d| - 1]) + (d[|d| - 1] - ZERO)
  }

  predicate IsDigits(d: Bytes) {
    forall i :: 0 <= i < |d| ==> ZERO <= d[i] <= ZERO + 9
  }

  lemma {:induction false} DigitsValueIs(d: Bytes)
    ensures IsDigits(d) ==> Decimal(d) >= 0
    ensures DigitsValue(d) == if IsDigits(d) && Decimal(d) < U32_LIMIT then Some(Decimal(d)) else None
  {
    if d != [] {
      var front := d[..|d| - 1];
      DigitsValueIs(front);
      assert d == front + [d[|d| - 1]];
      assert IsDigits(d) <==> IsDigits(front) && ZERO <= d[|d| - 1] <= ZERO + 9;
    }
  }

  /** `s` is the name, an at-sign, and the digits `d` of the version, possibly behind a plus
      sign; no at-sign stands behind that one. */
  ghost predicate Reads(s: Bytes, a: Advert, d: Bytes) {
    && (s == a.name + [AT] + d || s == a.name + [AT] + [PLUS] + d)
    && d != [] && IsDigits(d) && a.version == Decimal(d) < U32_LIMIT
  }

  lemma TailParses(s: Bytes, a: Advert, d: Bytes)
    requires Reads(s, a, d)
    ensures |a.name| < |s| && s[|a.name|] == AT && s[..|a.name|] == a.name
    ensures s[|a.name| + 1..] == d || s[|a.name| + 1..] == [PLUS] + d
  {
    hide IsDigits, Decimal;
  }

  lemma ReadingParses(s: Bytes, a: Advert, d: Bytes)
    requires Reads(s, a, d)
    ensures Parse(s) == Some(a)
  {
    hide Decimal, DigitsValue;
    TailParses(s, a, d);
    var tail := s[|a.name| + 1..];
    assert forall i :: |a.name| < i < |s| ==> s[i] == tail[i - |a.name| - 1];
    assert LastAt(s) == |a.name|;
    assert tail == [PLUS] + d ==> tail[1..] == d;
    DigitsValueIs(d);
  }

  lemma ParsingReads(s: Bytes, a: Advert) returns (d: Bytes)
    requires Parse(s) == Some(a)
    ensures Reads(s, a, d)
  {
    hide DigitsValue, Decimal, IsDigits, LastAt;
    var at := LastAt(s);
    var tail := s[at + 1..];
    d := if tail != [] && tail[0] == PLUS then tail[1..] else tail;
    DigitsValueIs(d);
    assert s == s[..at] + [AT] + tail;
    if d != tail { assert s == s[..at] + [AT] + [PLUS] + d; }
  }

  /** An entry parses exactly if it reads so, and the reading is the only one. */
  lemma ParsedIff(s: Bytes, a: Advert)
    ensures Parse(s) == Some(a) <==> exists d :: Reads(s, a, d)
  {
    hide Reads, Parse;
    if d :| Reads(s, a, d) { ReadingParses(s, a, d); }
    if Parse(s) == Some(a) { var d := ParsingReads(s, a); }
  }

  /** A list is parsed entry by entry; those that do not parse are skipped. */
  lemma {:induction false} ParseAllIsFilter(ps: seq<Bytes>, qs: seq<Bytes>)
    ensures ParseAll(ps + qs) == ParseAll(ps) + ParseAll(qs)
    ensures forall s: Bytes :: ParseAll([s]) == if Parse(s).Some? then [Parse(s).value] else []
  {
    hide Parse;
    forall s: Bytes ensures ParseAll([s]) == if Parse(s).Some? then [Parse(s).value] else [] {
      assert [s][1..] == [];
    }
    if ps == [] {
      assert ps + qs == qs;
    } else {
      assert (ps + qs)[1..] == ps[1..] + qs;
      ParseAllIsFilter(ps[1..], qs);
    }
  }

  lemma {:induction false} DigitsRoundTrip(n: nat)
    requires n < U32_LIMIT
    ensures DigitsValue(Digits(n)) == Some(n)
  {
    if n < 10 {
      assert Digits(n)[..0] == [];
    } else {
      DigitsRoundTrip(n / 10);
      var d := Digits(n);
      assert d[..|d| - 1] == Digits(n / 10);
    }
  }

  /** Formatting and splitting at the last `@` are inverse, whatever the name contains. */
  lemma FormatRoundTrip(a: Advert)
    requires a.version < U32_LIMIT
    ensures Parse(Format(a)) == Some(a)
  {
    hide Digits, DigitsValue, LastAt, Decimal, IsDigits, Reads;
    var s := Format(a);
    var d := Digits(a.version);
    assert s[|a.name|] == AT && s[|a.name| + 1..] == d;
    assert forall i :: |a.name| < i < |s| ==> s[i] == d[i - |a.name| - 1];
    assert LastAt(s) == |a.name|;
    assert s[..|a.name|] == a.name;
    DigitsRoundTrip(a.version);
  }

  lemma {:induction false} AdvertisedRoundTrip(specs: seq<Advert>)
    requires forall a :: a in specs ==> a.version < U32_LIMIT
    ensures ParseAll(FormatAll(specs)) == specs
  {
    if specs != [] {
      FormatRoundTrip(specs[0]);
      AdvertisedRoundTrip(specs[1..]);
      assert FormatAll(specs)[1..] == FormatAll(specs[1..]);
    }
  }
}
