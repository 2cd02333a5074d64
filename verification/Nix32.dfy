/** The base-32 spelling of hashes (src/libutil/base-nix-32.cc), on machine
    bytes. Digits are groups of five bits of the bytes read as one little-endian
    number; the most significant digit comes first. */
module Nix32 {
  import opened Bytes

  const ALPHABET: string := "0123456789abcdfghijklmnpqrsvwxyz"

  /** `x >> j` and `x << j` on eight bits, for shifts up to eight. */
  function Shr(x: bv8, j: nat): bv8 {
    match j
    case 0 => x
    case 1 => x >> 1
    case 2 => x >> 2
    case 3 => x >> 3
    case 4 => x >> 4
    case 5 => x >> 5
    case 6 => x >> 6
    case 7 => x >> 7
    case _ => 0
  }

  function Shl(x: bv8, j: nat): bv8 {
    match j
    case 0 => x
    case 1 => x << 1
    case 2 => x << 2
    case 3 => x << 3
    case 4 => x << 4
    case 5 => x << 5
    case 6 => x << 6
    case 7 => x << 7
    case _ => 0
  }

  function Mask(k: nat): bv8 {
    match k
    case 0 => 1
    case 1 => 2
    case 2 => 4
    case 3 => 8
    case 4 => 16
    case 5 => 32
    case 6 => 64
    case 7 => 128
    case _ => 0
  }

  predicate Bit(x: bv8, k: nat) {
    x & Mask(k) != 0
  }

  lemma ShrBit(x: bv8, j: nat, k: nat)
    requires j <= 8 && k < 8
    ensures Bit(Shr(x, j), k) <==> Bit(x, j + k)
  {
  }

  lemma ShlBit(x: bv8, j: nat, k: nat)
    requires j <= 8 && k < 8
    ensures Bit(Shl(x, j), k) <==> k >= j && Bit(x, k - j)
  {
  }

  lemma OrBit(x: bv8, y: bv8, k: nat)
    ensures Bit(x | y, k) <==> Bit(x, k) || Bit(y, k)
  {
  }

  lemma LowFive(x: bv8, k: nat)
    ensures Bit(x & 0x1f, k) <==> k < 5 && Bit(x, k)
    ensures x & 0x1f < 32
    ensures x < 32 && k >= 5 ==> !Bit(x, k)
  {
  }

  lemma SameBits(x: bv8, y: bv8)
    requires forall k: nat | k < 8 :: Bit(x, k) == Bit(y, k)
    ensures x == y
  {
    assert forall k: nat | k < 8 :: Bit(x, k) == Bit(y, k);
    assert Bit(x, 0) == Bit(y, 0) && Bit(x, 1) == Bit(y, 1) && Bit(x, 2) == Bit(y, 2) && Bit(x, 3) == Bit(y, 3);
    assert Bit(x, 4) == Bit(y, 4) && Bit(x, 5) == Bit(y, 5) && Bit(x, 6) == Bit(y, 6) && Bit(x, 7) == Bit(y, 7);
  }

  // ---------------------------------------------------------------------
  // Digits and characters.

  predicate BitAt(bs: seq<bv8>, k: nat) {
    k / 8 < |bs| && Bit(bs[k / 8], k % 8)
  }

  function EncodedLength(size: nat): nat {
    if size == 0 then 0 else (size * 8 - 1) / 5 + 1
  }

  /** The digit number `n`, the least significant being number 0. */
  function Digit(bs: seq<bv8>, n: nat): bv8
    requires 5 * n < 8 * |bs|
  {
    var i, j := 5 * n / 8, 5 * n % 8;
    (Shr(bs[i], j) | if i >= |bs| - 1 then 0 else Shl(bs[i + 1], 8 - j)) & 0x1f
  }

  lemma DigitBits(bs: seq<bv8>, n: nat, k: nat)
    requires 5 * n < 8 * |bs|
    ensures Digit(bs, n) < 32
    ensures Bit(Digit(bs, n), k) <==> k < 5 && BitAt(bs, 5 * n + k)
  {
    var i, j := 5 * n / 8, 5 * n % 8;
    var high: bv8 := if i >= |bs| - 1 then 0 else Shl(bs[i + 1], 8 - j);
    LowFive(Shr(bs[i], j) | high, k);
    if k < 5 {
      OrBit(Shr(bs[i], j), high, k);
      ShrBit(bs[i], j, k);
      if i < |bs| - 1 { ShlBit(bs[i + 1], 8 - j, k); }
      hide Shr, Shl;
      if j + k < 8 {
        assert (5 * n + k) / 8 == i && (5 * n + k) % 8 == j + k;
      } else {
        assert (5 * n + k) / 8 == i + 1 && (5 * n + k) % 8 == j + k - 8;
      }
    }
  }

  function Char(digit: bv8): char
    requires digit < 32
  {
    ALPHABET[digit as int]
  }

  /** `lookupReverse`. */
  function Lookup(c: char): (r: Option<bv8>)
    ensures r.Some? ==> r.value < 32 && Char(r.value) == c
  {
    LookupFrom(c, 0)
  }

  function LookupFrom(c: char, i: nat): (r: Option<bv8>)
    requires i <= 32
    ensures r.Some? ==> r.value < 32 && Char(r.value) == c
    ensures r.None? ==> forall j | i <= j < 32 :: ALPHABET[j] != c
    decreases 32 - i
  {
    if i == 32 then None else if ALPHABET[i] == c then Some(i as bv8) else LookupFrom(c, i + 1)
  }

  /** The characters are in ascending order. */
  lemma {:induction false} Ascending(i: nat, j: nat)
    requires i < j < 32
    ensures ALPHABET[i] < ALPHABET[j]
    decreases j
  {
    if i < j - 1 {
      Ascending(i, j - 1);
    }
  }

  lemma LookupChar(d: bv8)
    requires d < 32
    ensures Lookup(Char(d)) == Some(d)
  {
    var i := d as int;
    assert ALPHABET[i] == Char(d);
    var e := Lookup(Char(d));
    var j := e.value as int;
    if i < j {
      Ascending(i, j);
    } else if j < i {
      Ascending(j, i);
    }
    assert (i as bv8) == (j as bv8);
  }

  // ---------------------------------------------------------------------
  // Encoding.

  method Encode(bs: seq<bv8>) returns (s: string)
    ensures |s| == EncodedLength(|bs|)
    ensures forall n | 0 <= n < |s| :: DigitFits(bs, n) && s[|s| - 1 - n] == Char(Digit(bs, n))
  {
    s := "";
    if |bs| == 0 {
      return;
    }
    var len := EncodedLength(|bs|);
    var n: int := len - 1;
    while n >= 0
      invariant -1 <= n < len && |s| == len - 1 - n
      invariant forall m | n < m < len :: DigitFits(bs, m) && s[len - 1 - m] == Char(Digit(bs, m))
    {
      DigitBits(bs, n, 0);
      s := s + [Char(Digit(bs, n))];
      n := n - 1;
    }
  }

  ghost predicate DigitFits(bs: seq<bv8>, n: int) {
    n >= 0 && 5 * n < 8 * |bs| && Digit(bs, n) < 32
  }

  // ---------------------------------------------------------------------
  // Decoding.

  /** The digit number `n` of a string. */
  function DigitOf(s: string, n: nat): Option<bv8> {
    if n < |s| then Lookup(s[|s| - 1 - n]) else None
  }

  /** Bit `k` of the number a string of digits spells. */
  predicate StringBit(s: string, k: nat) {
    var d := DigitOf(s, k / 5);
    d.Some? && Bit(d.value, k % 5)
  }

  /** `res.resize(size)`, which only ever grows the result. */
  function Resize(res: seq<bv8>, size: nat): (r: seq<bv8>)
    requires |res| <= size
    ensures |r| == size && forall k | 0 <= k < size :: r[k] == if k < |res| then res[k] else 0
  {
    res + seq(size - |res|, _ => 0)
  }

  lemma ResizeBits(res: seq<bv8>, size: nat, k: nat)
    requires |res| <= size
    ensures BitAt(Resize(res, size), k) <==> BitAt(res, k)
  {
    assert !Bit(0, k % 8);
  }

  lemma OrIntoBits(res: seq<bv8>, i: nat, x: bv8, k: nat)
    requires i < |res|
    ensures BitAt(res[i := res[i] | x], k) <==> BitAt(res, k) || (k / 8 == i && Bit(x, k % 8))
  {
    OrBit(res[i], x, k % 8);
    hide Bit;
  }

  /** The five bits of digit `n` lie in one byte or in two. */
  lemma DigitPlaces(d: bv8, n: nat, k: nat)
    requires d < 32
    ensures
      var i, j := 5 * n / 8, 5 * n % 8;
      ((k / 8 == i && Bit(Shl(d, j), k % 8)) || (k / 8 == i + 1 && Bit(Shr(d, 8 - j), k % 8)))
      == (k >= 5 * n && Bit(d, k - 5 * n))
  {
    var i, j := 5 * n / 8, 5 * n % 8;
    ShlBit(d, j, k % 8);
    ShrBit(d, 8 - j, k % 8);
    if k >= 5 * n { LowFive(d, k - 5 * n); }
    hide Bit, Shl, Shr;
    assert k == 8 * (k / 8) + k % 8 && 5 * n == 8 * i + j;
    if k / 8 == i {
      assert k - 5 * n == k % 8 - j;
    } else if k / 8 == i + 1 {
      assert k - 5 * n == 8 - j + k % 8;
    }
  }

  /** Makes room for byte `i` and ors `x` into it. */
  function OrAt(res: seq<bv8>, i: nat, x: bv8): (r: seq<bv8>)
    requires |res| <= i + 1
    ensures |r| == i + 1
  {
    var grown := Resize(res, i + 1);
    grown[i := grown[i] | x]
  }

  lemma OrAtBits(res: seq<bv8>, i: nat, x: bv8, k: nat)
    requires |res| <= i + 1
    ensures BitAt(OrAt(res, i, x), k) <==> BitAt(res, k) || (k / 8 == i && Bit(x, k % 8))
  {
    ResizeBits(res, i + 1, k);
    OrIntoBits(Resize(res, i + 1), i, x, k);
    hide BitAt, Bit;
  }

  /** `res` with digit `n` added, as one round of `decode` leaves it. */
  function AddDigit(res: seq<bv8>, d: bv8, n: nat): seq<bv8>
    requires |res| <= 5 * n / 8 + 1
  {
    var i, j := 5 * n / 8, 5 * n % 8;
    var low := OrAt(res, i, Shl(d, j));
    if Shr(d, 8 - j) == 0 then low else OrAt(low, i + 1, Shr(d, 8 - j))
  }

  /** Adding digit `n` sets exactly its five bits. */
  lemma DigitAdded(res: seq<bv8>, d: bv8, n: nat, k: nat)
    requires |res| <= 5 * n / 8 + 1 && d < 32
    ensures BitAt(AddDigit(res, d, n), k) <==> BitAt(res, k) || (k >= 5 * n && Bit(d, k - 5 * n))
  {
    var i, j := 5 * n / 8, 5 * n % 8;
    DigitPlaces(d, n, k);
    assert !Bit(0, k % 8);
    hide Bit, Shl, Shr, BitAt, OrAt;
    OrAtBits(res, i, Shl(d, j), k);
    OrAtBits(OrAt(res, i, Shl(d, j)), i + 1, Shr(d, 8 - j), k);
  }

  /** How long the result is after `n` digits: a byte for the last digit, and one
      more if that digit spills over with a set bit. */
  predicate LengthAfter(s: string, n: nat, size: nat) {
    if n == 0 then size == 0
    else
      var i := 5 * (n - 1) / 8;
      var d := DigitOf(s, n - 1);
      size == if d.Some? && Shr(d.value, 8 - 5 * (n - 1) % 8) != 0 then i + 2 else i + 1
  }

  /** A digit that spills over is followed by one that starts in the next byte,
      so `resize` never drops anything. */
  lemma NeverShrinks(s: string, n: nat, size: nat)
    requires LengthAfter(s, n, size)
    ensures size <= 5 * n / 8 + 1
  {
    if n > 0 {
      var j := 5 * (n - 1) % 8;
      var d := DigitOf(s, n - 1);
      if j <= 3 && d.Some? {
        assert Shr(d.value, 8 - j) == 0;
      }
      assert 5 * n == 8 * (5 * (n - 1) / 8) + j + 5;
    }
  }

  method Decode(s: string) returns (r: Option<seq<bv8>>)
    ensures r.None? <==> exists n: nat :: n < |s| && DigitOf(s, n).None?
    ensures r.Some? ==> forall k: nat :: BitAt(r.value, k) <==> StringBit(s, k)
    ensures r.Some? ==> LengthAfter(s, |s|, |r.value|)
  {
    var res: seq<bv8> := [];
    NoBits(s);
    hide BitAt, StringBit, Lookup;
    for n := 0 to |s|
      invariant LengthAfter(s, n, |res|)
      invariant forall m: nat | m < n :: DigitOf(s, m).Some?
      invariant forall k: nat :: BitAt(res, k) <==> k < 5 * n && StringBit(s, k)
    {
      var digit := Lookup(s[|s| - n - 1]);
      if digit.None? {
        assert DigitOf(s, n).None?;
        return None;
      }
      NeverShrinks(s, n, |res|);
      RoundBits(s, res, n);
      res := Round(res, digit.value, n);
    }
    BitsEnd(s);
    return Some(res);
  }

  /** One round of the loop. */
  method Round(res: seq<bv8>, digit: bv8, n: nat) returns (res': seq<bv8>)
    requires |res| <= 5 * n / 8 + 1
    ensures res' == AddDigit(res, digit, n)
    ensures |res'| == 5 * n / 8 + if Shr(digit, 8 - 5 * n % 8) == 0 then 1 else 2
  {
    hide Shl, Shr;
    var b := n * 5;
    var i := b / 8;
    var j := b % 8;
    res' := Resize(res, i + 1);
    res' := res'[i := res'[i] | Shl(digit, j)];
    if Shr(digit, 8 - j) != 0 {
      res' := Resize(res', i + 2);
      res' := res'[i + 1 := res'[i + 1] | Shr(digit, 8 - j)];
    }
  }

  lemma NoBits(s: string)
    ensures forall k: nat :: !BitAt([], k)
  {
  }

  lemma BitsEnd(s: string)
    ensures forall k: nat | StringBit(s, k) :: k < 5 * |s|
  {
  }

  lemma RoundBits(s: string, res: seq<bv8>, n: nat)
    requires n < |s| && DigitOf(s, n).Some? && |res| <= 5 * n / 8 + 1
    requires forall k: nat :: BitAt(res, k) <==> k < 5 * n && StringBit(s, k)
    ensures forall k: nat :: BitAt(AddDigit(res, DigitOf(s, n).value, n), k) <==> k < 5 * (n + 1) && StringBit(s, k)
  {
    hide Bit, BitAt, StringBit, AddDigit, Lookup;
    forall k: nat ensures BitAt(AddDigit(res, DigitOf(s, n).value, n), k) <==> k < 5 * (n + 1) && StringBit(s, k) {
      DigitAdded(res, DigitOf(s, n).value, n, k);
      DigitBit(s, n, k);
    }
  }

  lemma DigitBit(s: string, n: nat, k: nat)
    requires n < |s| && DigitOf(s, n).Some?
    ensures 5 * n <= k < 5 * n + 5 ==> (StringBit(s, k) <==> Bit(DigitOf(s, n).value, k - 5 * n))
    ensures k >= 5 * n + 5 ==> !Bit(DigitOf(s, n).value, k - 5 * n)
  {
    if k >= 5 * n { LowFive(DigitOf(s, n).value, k - 5 * n); }
    hide Bit;
    if 5 * n <= k < 5 * n + 5 {
      assert k / 5 == n && k % 5 == k - 5 * n;
    }
  }

  // ---------------------------------------------------------------------
  // A bijection on canonical spellings.

  /** What `Encode` promises of its result. */
  ghost predicate Spells(s: string, bs: seq<bv8>) {
    && |s| == EncodedLength(|bs|)
    && forall n | 0 <= n < |s| :: DigitFits(bs, n) && s[|s| - 1 - n] == Char(Digit(bs, n))
  }

  lemma SpelledDigit(s: string, bs: seq<bv8>, n: nat)
    requires Spells(s, bs) && n < |s|
    ensures 5 * n < 8 * |bs| && DigitOf(s, n) == Some(Digit(bs, n))
  {
    assert DigitFits(bs, n);
    LookupChar(Digit(bs, n));
  }

  lemma EncodedLengthIsCeiling(size: nat)
    ensures 5 * EncodedLength(size) >= 8 * size > 5 * EncodedLength(size) - 5 || size == EncodedLength(size) == 0
  {
  }

  lemma SpelledBit(s: string, bs: seq<bv8>, k: nat)
    requires Spells(s, bs)
    ensures StringBit(s, k) <==> BitAt(bs, k)
  {
    EncodedLengthIsCeiling(|bs|);
    if k < 5 * |s| {
      SpelledDigit(s, bs, k / 5);
      DigitBits(bs, k / 5, k % 5);
      assert 5 * (k / 5) + k % 5 == k;
    } else {
      assert k / 5 >= |s| && k / 8 >= |bs|;
    }
  }

  /** The last digit of a spelling does not spill over. */
  lemma SpelledLength(s: string, bs: seq<bv8>, size: nat)
    requires Spells(s, bs) && LengthAfter(s, |s|, size)
    ensures size == |bs|
  {
    EncodedLengthIsCeiling(|bs|);
    if bs != [] {
      var n := |s| - 1;
      var j := 5 * n % 8;
      SpelledDigit(s, bs, n);
      var d := Digit(bs, n);
      assert 5 * n / 8 == |bs| - 1;
      forall k: nat | k < 8 ensures Bit(Shr(d, 8 - j), k) == Bit(0, k) {
        ShrBit(d, 8 - j, k);
        DigitBits(bs, n, 8 - j + k);
        assert (5 * n + (8 - j + k)) / 8 == |bs|;
      }
      SameBits(Shr(d, 8 - j), 0);
    }
  }

  lemma SameBytes(a: seq<bv8>, b: seq<bv8>)
    requires |a| == |b| && forall k: nat :: BitAt(a, k) <==> BitAt(b, k)
    ensures a == b
  {
    forall i | 0 <= i < |a| ensures a[i] == b[i] {
      forall k: nat | k < 8 ensures Bit(a[i], k) == Bit(b[i], k) {
        assert (8 * i + k) / 8 == i && (8 * i + k) % 8 == k;
        assert BitAt(a, 8 * i + k) <==> BitAt(b, 8 * i + k);
      }
      SameBits(a[i], b[i]);
    }
  }

  /** Decoding a spelling gives back the bytes. */
  lemma SpellingDecodes(s: string, bs: seq<bv8>, r: seq<bv8>)
    requires Spells(s, bs) && LengthAfter(s, |s|, |r|)
    requires forall k: nat :: BitAt(r, k) <==> StringBit(s, k)
    ensures r == bs
  {
    SpelledLength(s, bs, |r|);
    forall k: nat ensures BitAt(r, k) <==> BitAt(bs, k) {
      SpelledBit(s, bs, k);
    }
    SameBytes(r, bs);
  }

  /** A string of the right length is the spelling of what it decodes to. */
  lemma DecodedIsSpelled(s: string, r: seq<bv8>)
    requires |s| == EncodedLength(|r|) && (forall n: nat | n < |s| :: DigitOf(s, n).Some?)
    requires forall k: nat :: BitAt(r, k) <==> StringBit(s, k)
    ensures Spells(s, r)
  {
    EncodedLengthIsCeiling(|r|);
    forall n: nat | n < |s| ensures DigitFits(r, n) && s[|s| - 1 - n] == Char(Digit(r, n)) {
      var d := DigitOf(s, n).value;
      DigitBits(r, n, 0);
      forall k: nat | k < 8 ensures Bit(Digit(r, n), k) == Bit(d, k) {
        DigitBits(r, n, k);
        LowFive(d, k);
        if k < 5 {
          assert (5 * n + k) / 5 == n && (5 * n + k) % 5 == k;
          assert BitAt(r, 5 * n + k) <==> StringBit(s, 5 * n + k);
        }
      }
      SameBits(Digit(r, n), d);
    }
  }

  lemma SpellingIsUnique(s: string, t: string, bs: seq<bv8>)
    requires Spells(s, bs) && Spells(t, bs)
    ensures s == t
  {
    forall i | 0 <= i < |s| ensures s[i] == t[i] {
      assert s[|s| - 1 - (|s| - 1 - i)] == Char(Digit(bs, |s| - 1 - i));
      assert t[|t| - 1 - (|s| - 1 - i)] == Char(Digit(bs, |s| - 1 - i));
    }
  }

  method DecodeEncoded(bs: seq<bv8>) returns (r: Option<seq<bv8>>)
    ensures r == Some(bs)
  {
    var s := Encode(bs);
    r := Decode(s);
    assert Spells(s, bs);
    forall n: nat | n < |s| ensures DigitOf(s, n).Some? {
      SpelledDigit(s, bs, n);
    }
    SpellingDecodes(s, bs, r.value);
  }

  method EncodeDecoded(s: string) returns (r: Option<seq<bv8>>, t: string)
    ensures r.None? <==> exists n: nat :: n < |s| && DigitOf(s, n).None?
    ensures r.Some? && |s| == EncodedLength(|r.value|) ==> t == s
  {
    r := Decode(s);
    t := "";
    if r.Some? {
      t := Encode(r.value);
      if |s| == EncodedLength(|r.value|) {
        DecodedIsSpelled(s, r.value);
        SpellingIsUnique(s, t, r.value);
      }
    }
  }

  /** Digits and small letters without e, o, t and u, in their order. */
  lemma AlphabetIs(c: char, i: nat, j: nat)
    ensures c in ALPHABET <==> '0' <= c <= '9' || ('a' <= c <= 'z' && c != 'e' && c != 'o' && c != 't' && c != 'u')
    ensures i < j < |ALPHABET| ==> ALPHABET[i] < ALPHABET[j]
  {
    if c in ALPHABET {
      var k :| 0 <= k < 32 && ALPHABET[k] == c;
      CharAt(k);
    }
    if '0' <= c <= '9' || ('a' <= c <= 'z' && c != 'e' && c != 'o' && c != 't' && c != 'u') {
      var n := c as int;
      var k := if n < 58 then n - 48 else if n < 101 then n - 87 else if n < 111 then n - 88
               else if n < 116 then n - 89 else n - 91;
      CharAt(k);
    }
    if i < j < |ALPHABET| {
      Ascending(i, j);
    }
  }

  lemma CharAt(k: nat)
    requires k < 32
    ensures ALPHABET[k] as int ==
            if k < 10 then k + 48 else if k < 14 then k + 87 else if k < 23 then k + 88
            else if k < 27 then k + 89 else k + 91
  {
  }
}
