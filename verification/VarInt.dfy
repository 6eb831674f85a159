// Length integers: hyprwire-core/src/message/mod.rs:66-113.  The encoding is unsigned
// LEB128 (DWARF Version 4, section 7.6).
module VarInt {
  import opened Types

  /** `s` stands at position `i` of `data`. */
  ghost predicate At(data: Bytes, i: nat, s: Bytes) {
    i + |s| <= |data| && forall k :: 0 <= k < |s| ==> s[k] == data[i + k]
  }

  lemma AtConcat(data: Bytes, i: nat, s: Bytes, t: Bytes)
    ensures At(data, i, s + t) <==> At(data, i, s) && At(data, i + |s|, t)
  {
    if At(data, i, s + t) {
      assert forall k :: 0 <= k < |s| ==> s[k] == (s + t)[k];
      assert forall k :: 0 <= k < |t| ==> t[k] == (s + t)[|s| + k];
    }
    if At(data, i, s) && At(data, i + |s|, t) {
      forall k | 0 <= k < |s + t| ensures (s + t)[k] == data[i + k] {
        if k >= |s| { assert t[k - |s|] == data[i + |s| + (k - |s|)]; }
      }
    }
  }

  lemma AtByte(data: Bytes, i: nat, s: Bytes, k: nat)
    requires At(data, i, s) && k < |s|
    ensures data[i + k] == s[k]
  {
    assert s[k] == data[i + k];
  }

  /** Standing at a position is being the slice there. */
  lemma AtIsSlice(data: Bytes, i: nat, s: Bytes)
    ensures At(data, i, s) <==> i + |s| <= |data| && data[i..i + |s|] == s
  {
    if i + |s| <= |data| && data[i..i + |s|] == s {
      forall k | 0 <= k < |s| ensures s[k] == data[i + k] {
        assert data[i..i + |s|][k] == data[i + k];
      }
    }
  }

  function Encode(n: nat): (r: Bytes)
    ensures r != []
  {
    if n < 128 then [n] else [n % 128 + 128] + Encode(n / 128)
  }

  datatype Parsed = Parsed(value: nat, len: nat)

  /** What a parse at `off` yields; a parse that runs off the end stops there. */
  function ParseAt(data: Bytes, off: nat): (r: Parsed)
    ensures off + r.len <= |data| || r == Parsed(0, 0)
    decreases |data| - off
  {
    if off >= |data| then Parsed(0, 0)
    else if data[off] < 128 then Parsed(data[off], 1)
    else
      var r := ParseAt(data, off + 1);
      Parsed(data[off] - 128 + 128 * r.value, 1 + r.len)
  }

  /** A complete LEB128 string: every byte but the last has its high bit set. */
  ghost predicate Leb(b: Bytes) {
    b != [] && b[|b| - 1] < 128 && forall i :: 0 <= i < |b| - 1 ==> b[i] >= 128
  }

  ghost function LebValue(b: Bytes): nat {
    ParseAt(b, 0).value
  }

  // ---- the algorithms as written -----------------------------------------------------

  function Pow128(k: nat): (p: nat)
    ensures p >= 1
  {
    if k == 0 then 1 else 128 * Pow128(k - 1)
  }

  lemma {:induction false} EncodeLength(n: nat, k: nat)
    requires 1 <= k && n < Pow128(k)
    ensures |Encode(n)| <= k
  {
    if n >= 128 {
      assert Pow128(k) == 128 * Pow128(k - 1);
      EncodeLength(n / 128, k - 1);
    }
  }

  /** Every `usize` fits the ten-byte buffer its callers pass. */
  lemma FitsTenBytes(n: nat)
    requires n < 0x1_0000_0000_0000_0000
    ensures |Encode(n)| <= 10
  {
    assert Pow128(10) == 128 * 128 * 128 * 128 * 128 * 128 * 128 * 128 * 128 * 128 by {
      assert Pow128(4) == 128 * 128 * 128 * 128;
      assert Pow128(7) == 128 * 128 * 128 * Pow128(4);
      assert Pow128(10) == 128 * 128 * 128 * Pow128(7);
    }
    EncodeLength(n, 10);
  }

  /** `encode_var_int`: writes the encoding into the caller's buffer, whole and nothing else. */
  method EncodeVarInt(num: nat, buffer: array<byte>) returns (i: nat)
    requires num < 0x1_0000_0000_0000_0000 && buffer.Length >= 10
    modifies buffer
    ensures i <= buffer.Length && buffer[..i] == Encode(num)
    ensures buffer[i..] == old(buffer[i..])
  {
    FitsTenBytes(num);
    var n := num;
    i := 0;
    var done := false;
    while !done
      invariant i <= buffer.Length
      invariant done ==> buffer[..i] == Encode(num)
      invariant !done ==> buffer[..i] + Encode(n) == Encode(num)
      invariant forall j :: i <= j < buffer.Length ==> buffer[j] == old(buffer[j])
      decreases !done, n
    {
      var chunk := n % 128;
      ghost var front := buffer[..i];
      n := n / 128;
      buffer[i] := if n == 0 then chunk else chunk + 128;
      i := i + 1;
      done := n == 0;
      assert buffer[..i] == front + [buffer[i - 1]];
    }
  }

  lemma Shifted(p: nat, b: nat, v: nat)
    ensures p * (b - 128) + (128 * p) * v == p * (b - 128 + 128 * v)
  {
  }

  /** `parse_var_int_span`: accumulates seven bits a byte, least significant first. */
  method ParseVarIntSpan(data: Bytes) returns (rolling: nat, i: nat)
    ensures Parsed(rolling, i) == ParseAt(data, 0)
  {
    rolling, i := 0, 0;
    var more := true;
    while more && i < |data|
      invariant i <= |data|
      invariant more ==> ParseAt(data, 0).value == rolling + Pow128(i) * ParseAt(data, i).value
      invariant more ==> ParseAt(data, 0).len == i + ParseAt(data, i).len
      invariant !more ==> ParseAt(data, 0) == Parsed(rolling, i)
      decreases |data| - i
    {
      var b := data[i];
      if b >= 128 { Shifted(Pow128(i), b, ParseAt(data, i + 1).value); }
      rolling := rolling + Pow128(i) * (b % 128);
      i := i + 1;
      more := b >= 128;
    }
  }

  lemma {:induction false} ParseSlice(data: Bytes, off: nat, i: nat)
    requires off <= |data|
    ensures ParseAt(data[off..], i) == ParseAt(data, off + i)
    decreases |data| - i
  {
    if i < |data[off..]| { ParseSlice(data, off, i + 1); }
  }

  method ParseVarInt(data: Bytes, offset: nat) returns (value: nat, len: nat)
    ensures Parsed(value, len) == ParseAt(data, offset)
  {
    if offset >= |data| { return 0, 0; }
    value, len := ParseVarIntSpan(data[offset..]);
    ParseSlice(data, offset, 0);
  }

  // ---- what they guarantee -----------------------------------------------------------

  /** A complete string is parsed whole, whatever stands around it. */
  lemma {:induction false} ParseLeb(data: Bytes, i: nat, b: Bytes)
    requires Leb(b) && At(data, i, b)
    ensures ParseAt(data, i) == Parsed(LebValue(b), |b|)
    decreases |b|
  {
    AtByte(data, i, b, 0);
    if |b| > 1 {
      assert b == b[..1] + b[1..];
      AtConcat(data, i, b[..1], b[1..]);
      ParseLeb(data, i + 1, b[1..]);
      ParseSlice(b, 1, 0);
    }
  }

  /** Conversely, a parse that stops before the end of the buffer read a complete string. */
  lemma {:induction false} ParseSound(data: Bytes, i: nat)
    requires i + ParseAt(data, i).len < |data|
    ensures var r := ParseAt(data, i); var b := data[i..i + r.len];
      Leb(b) && LebValue(b) == r.value
    decreases |data| - i
  {
    var r := ParseAt(data, i);
    var b := data[i..i + r.len];
    if data[i] >= 128 {
      ParseSound(data, i + 1);
      var c := data[i + 1..i + 1 + ParseAt(data, i + 1).len];
      assert b == [data[i]] + c;
      assert b[1..] == c;
      ParseSlice(b, 1, 0);
    }
  }

  lemma {:induction false} EncodeIsLeb(n: nat)
    ensures Leb(Encode(n)) && LebValue(Encode(n)) == n
  {
    if n >= 128 {
      EncodeIsLeb(n / 128);
      var b := Encode(n);
      assert b[1..] == Encode(n / 128);
      ParseSlice(b, 1, 0);
    }
  }

  /** Parsing at the position of an encoding gives back the number and the length, with
      any bytes before and after. */
  lemma RoundTrip(pre: Bytes, n: nat, post: Bytes)
    ensures ParseAt(pre + Encode(n) + post, |pre|) == Parsed(n, |Encode(n)|)
  {
    EncodeIsLeb(n);
    assert At(pre + Encode(n) + post, |pre|, Encode(n));
    ParseLeb(pre + Encode(n) + post, |pre|, Encode(n));
  }

  /** No complete string for a number is shorter than its encoding. */
  lemma {:induction false} Shortest(b: Bytes)
    requires Leb(b)
    ensures |Encode(LebValue(b))| <= |b|
    decreases |b|
  {
    if |b| > 1 {
      Shortest(b[1..]);
      ParseSlice(b, 1, 0);
      var v := LebValue(b[1..]);
      assert LebValue(b) == b[0] - 128 + 128 * v;
      assert (b[0] - 128 + 128 * v) / 128 == v;
    }
  }

  /** No encoding is a proper prefix of another. */
  lemma PrefixFree(m: nat, n: nat)
    requires Encode(m) <= Encode(n)
    ensures m == n
  {
    EncodeIsLeb(m);
    EncodeIsLeb(n);
    assert At(Encode(n), 0, Encode(m));
    ParseLeb(Encode(n), 0, Encode(m));
  }

  /** A parse depends only on the bytes it consumes. */
  lemma ParseLocal(data: Bytes, i: nat, other: Bytes, j: nat)
    requires i + ParseAt(data, i).len < |data|
    requires At(other, j, data[i..i + ParseAt(data, i).len])
    ensures ParseAt(other, j) == ParseAt(data, i)
  {
    ParseSound(data, i);
    ParseLeb(other, j, data[i..i + ParseAt(data, i).len]);
  }

  // ---- fixed-width words ---------------------------------------------------------------

  /** `u32::to_le_bytes`. */
  function U32Bytes(n: nat): (r: Bytes)
    ensures |r| == 4
  {
    [n % 256, n / 256 % 256, n / 65536 % 256, n / 16777216 % 256]
  }

  /** `u32::from_le_bytes` of the four bytes at `i`. */
  function U32At(data: Bytes, i: nat): (n: nat)
    requires i + 4 <= |data|
    ensures n < U32_LIMIT
  {
    data[i] as int + 256 * (data[i + 1] as int) + 65536 * (data[i + 2] as int) + 16777216 * (data[i + 3] as int)
  }

  lemma U32RoundTrip(data: Bytes, i: nat, n: nat)
    requires At(data, i, U32Bytes(n)) && n < U32_LIMIT
    ensures U32At(data, i) == n
  {
    AtByte(data, i, U32Bytes(n), 0);
    AtByte(data, i, U32Bytes(n), 1);
    AtByte(data, i, U32Bytes(n), 2);
    AtByte(data, i, U32Bytes(n), 3);
    assert n / 65536 == n / 256 / 256 && n / 16777216 == n / 65536 / 256;
    assert n / 16777216 < 256;
  }

  lemma U32Back(data: Bytes, i: nat)
    requires i + 4 <= |data|
    ensures At(data, i, U32Bytes(U32At(data, i)))
  {
    var a, b, c, d: int := data[i], data[i + 1], data[i + 2], data[i + 3];
    var n := U32At(data, i);
    assert n == a + 256 * (b + 256 * (c + 256 * d));
    assert n / 256 == b + 256 * (c + 256 * d) && n / 256 % 256 == b;
    assert n / 65536 == c + 256 * d && n / 65536 % 256 == c;
    assert n / 16777216 == d;
  }
}
