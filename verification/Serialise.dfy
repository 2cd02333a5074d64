/** The wire primitives of src/libutil/serialise.cc: 64-bit little-endian
    integers, and strings padded with zeros to a multiple of eight bytes. Each
    reader is proved to be the exact inverse of its writer. */
module Serialise {
  import opened Bytes

  const TWO64: nat := 0x1_0000_0000_0000_0000

  /** What is left of the input after a successful read. */
  datatype Parsed<+T> = Bad | Ok(value: T, rest: bytes) {
    predicate IsFailure() { Bad? }

    function PropagateFailure<U>(): Parsed<U>
      requires Bad?
    {
      Bad
    }

    function Extract(): (T, bytes)
      requires Ok?
    {
      (value, rest)
    }
  }

  function LittleEndian(n: nat, width: nat): (r: bytes)
    ensures |r| == width
  {
    if width == 0 then [] else [n % 256] + LittleEndian(n / 256, width - 1)
  }

  function FromLittleEndian(b: bytes): nat {
    if b == [] then 0 else b[0] + 256 * FromLittleEndian(b[1..])
  }

  function Pow256(width: nat): nat {
    if width == 0 then 1 else 256 * Pow256(width - 1)
  }

  /** The byte at place `i` is the digit of that weight: `low` is what the places
      before it say, `high` what it and those after it say. */
  lemma {:induction false} LittleEndianDigit(low: nat, high: nat, width: nat, i: nat)
    requires i < width && low < Pow256(i)
    ensures LittleEndian(low + Pow256(i) * high, width)[i] == high % 256
  {
    if i > 0 {
      var n, rest := low + Pow256(i) * high, Pow256(i - 1) * high;
      assert Pow256(i) * high == 256 * rest;
      assert n / 256 == low / 256 + rest;
      LittleEndianDigit(low / 256, high, width - 1, i - 1);
    }
  }

  lemma {:induction false} LittleEndianRoundTrip(n: nat, width: nat)
    requires n < Pow256(width)
    ensures FromLittleEndian(LittleEndian(n, width)) == n
  {
    if width > 0 {
      LittleEndianRoundTrip(n / 256, width - 1);
      assert LittleEndian(n, width)[1..] == LittleEndian(n / 256, width - 1);
    }
  }

  lemma {:induction false} FromLittleEndianRoundTrip(b: bytes)
    ensures FromLittleEndian(b) < Pow256(|b|)
    ensures LittleEndian(FromLittleEndian(b), |b|) == b
  {
    if b != [] {
      FromLittleEndianRoundTrip(b[1..]);
      var n := FromLittleEndian(b);
      assert n % 256 == b[0] && n / 256 == FromLittleEndian(b[1..]);
    }
  }

  lemma Pow256Eight()
    ensures Pow256(8) == TWO64
  {
    assert Pow256(2) == 0x1_0000;
    assert Pow256(4) == 0x1_0000_0000;
    assert Pow256(6) == 0x1_0000_0000_0000;
  }

  /** `sink << n`. */
  function EncodeNum(n: nat): (r: bytes)
    ensures |r| == 8
  {
    LittleEndian(n, 8)
  }

  function PadLength(len: nat): (r: nat)
    ensures r < 8 && (len + r) % 8 == 0
  {
    if len % 8 == 0 then 0 else 8 - len % 8
  }

  /** `sink << s`, followed by `k`. */
  function EncodeString(s: bytes, k: bytes): (r: bytes)
    ensures |r| == 8 + |s| + PadLength(|s|) + |k|
  {
    EncodeNum(|s|) + (s + (Zeros(PadLength(|s|)) + k))
  }

  lemma EncodeThen(s: bytes, j: bytes, k: bytes)
    ensures EncodeString(s, j) + k == EncodeString(s, j + k)
  {
    assert Zeros(PadLength(|s|)) + (j + k) == (Zeros(PadLength(|s|)) + j) + k;
  }

  /** `readNum<uint64_t>`. */
  function ReadNum(b: bytes): (r: Parsed<nat>)
    ensures r.Ok? ==> |r.rest| == |b| - 8
  {
    if |b| < 8 then Bad else Ok(FromLittleEndian(b[..8]), b[8..])
  }

  /** `source(buf, len)`. */
  function ReadBytes(b: bytes, len: nat): (r: Parsed<bytes>)
    ensures r.Ok? ==> |r.value| == len && |r.rest| == |b| - len && b == r.value + r.rest
  {
    if |b| < len then Bad else Ok(b[..len], b[len..])
  }

  function ReadPadding(b: bytes, len: nat): (r: Parsed<bytes>)
    ensures r.Ok? ==> |r.rest| == |b| - PadLength(len)
    ensures r.Ok? ==> b == Zeros(PadLength(len)) + r.rest
  {
    var (zeros, b1) :- ReadBytes(b, PadLength(len));
    if zeros == Zeros(PadLength(len)) then Ok(zeros, b1) else Bad
  }

  /** `readString(source, max)`. */
  function ReadString(b: bytes, max: nat): (r: Parsed<bytes>)
    ensures r.Ok? ==> |r.value| <= max && |r.rest| + 8 + |r.value| <= |b|
  {
    var (len, b1) :- ReadNum(b);
    if len > max then Bad else
    var (s, b2) :- ReadBytes(b1, len);
    var (_, b3) :- ReadPadding(b2, len);
    Ok(s, b3)
  }

  lemma ReadNumIffEncoded(b: bytes, n: nat, k: bytes)
    ensures ReadNum(b) == Ok(n, k) <==> n < TWO64 && b == EncodeNum(n) + k
  {
    Pow256Eight();
    if |b| >= 8 {
      assert b == b[..8] + b[8..];
      FromLittleEndianRoundTrip(b[..8]);
    }
    if n < TWO64 && b == EncodeNum(n) + k {
      LittleEndianRoundTrip(n, 8);
      assert b[..8] == EncodeNum(n) && b[8..] == k;
    }
  }

  /** Reading accepts exactly what writing produces. */
  lemma ReadStringIffEncoded(b: bytes, max: nat, s: bytes, k: bytes)
    requires max < TWO64
    ensures ReadString(b, max) == Ok(s, k) <==> |s| <= max && b == EncodeString(s, k)
  {
    if ReadString(b, max) == Ok(s, k) {
      ReadNumIffEncoded(b, ReadNum(b).value, ReadNum(b).rest);
    }
    if |s| <= max && b == EncodeString(s, k) {
      var b2 := Zeros(PadLength(|s|)) + k;
      ReadNumIffEncoded(b, |s|, s + b2);
      assert (s + b2)[..|s|] == s && (s + b2)[|s|..] == b2;
      assert b2[..PadLength(|s|)] == Zeros(PadLength(|s|)) && b2[PadLength(|s|)..] == k;
    }
  }

  lemma EncodeStringInjective(s1: bytes, k1: bytes, s2: bytes, k2: bytes)
    requires |s1| < TWO64 && |s2| < TWO64
    requires EncodeString(s1, k1) == EncodeString(s2, k2)
    ensures s1 == s2 && k1 == k2
  {
    ReadStringIffEncoded(EncodeString(s1, k1), TWO64 - 1, s1, k1);
    ReadStringIffEncoded(EncodeString(s1, k1), TWO64 - 1, s2, k2);
  }
}
