// Well-formed UTF-8, as `str::from_utf8` decides it (The Unicode Standard, table 3-7,
// "Well-Formed UTF-8 Byte Sequences").
module Utf8 {
  import opened Types

  predicate Tail(b: byte) {
    0x80 <= b <= 0xBF
  }

  /** The second byte a lead byte allows: overlong forms, surrogates and values above
      U+10FFFF are excluded here. */
  predicate Second(lead: byte, b: byte) {
    if lead == 0xE0 then 0xA0 <= b <= 0xBF
    else if lead == 0xED then 0x80 <= b <= 0x9F
    else if lead == 0xF0 then 0x90 <= b <= 0xBF
    else if lead == 0xF4 then 0x80 <= b <= 0x8F
    else Tail(b)
  }

  /** Bytes of a character with this lead byte; 0 for a byte that leads none. */
  function Width(lead: byte): (n: nat)
    ensures n <= 4
  {
    if lead < 0x80 then 1
    else if 0xC2 <= lead <= 0xDF then 2
    else if 0xE0 <= lead <= 0xEF then 3
    else if 0xF0 <= lead <= 0xF4 then 4
    else 0
  }

  /** A well-formed character starts the string. */
  predicate CharAt(s: Bytes)
    requires s != []
  {
    var n := Width(s[0]);
    && 0 < n <= |s| && (n > 1 ==> Second(s[0], s[1]))
    && (n > 2 ==> Tail(s[2])) && (n > 3 ==> Tail(s[3]))
  }

  predicate Valid(s: Bytes)
    decreases |s|
  {
    s == [] || (CharAt(s) && Valid(s[Width(s[0])..]))
  }

  lemma {:induction false} ValidJoins(a: Bytes, b: Bytes)
    requires Valid(a) && Valid(b)
    ensures Valid(a + b)
    decreases |a|
  {
    if a == [] {
      assert a + b == b;
    } else {
      var n := Width(a[0]);
      assert (a + b)[n..] == a[n..] + b;
      ValidJoins(a[n..], b);
    }
  }

  lemma {:induction false} AsciiValid(s: Bytes)
    requires forall i :: 0 <= i < |s| ==> s[i] < 0x80
    ensures Valid(s)
  {
    if s != [] { AsciiValid(s[1..]); }
  }
}
