/** The hashed pre-image of `HashModuloSink` (src/libstore/references.cc:58-83)
    and the proof its source comment asks for: content with self-references and
    content with some of them already zeroed are never fed to the hash as the
    same bytes. */
module SelfReferences {
  import opened Bytes
  import opened Rewriting
  import opened HashModulo
  import opened Streams

  const BAR: byte := 124
  const DIGIT_ZERO: byte := 48

  /** `fmt("%d", n)`. */
  function Decimal(n: nat): (r: bytes)
    ensures r != []
    ensures forall i | 0 <= i < |r| :: DIGIT_ZERO <= r[i] < DIGIT_ZERO + 10
  {
    if n < 10 then [DIGIT_ZERO + n] else Decimal(n / 10) + [DIGIT_ZERO + n % 10]
  }

  /** `|<pos>` for every position in ascending order. */
  function Trailer(ms: seq<nat>): bytes {
    if ms == [] then [] else [BAR] + Decimal(ms[0]) + Trailer(ms[1..])
  }

  /** Everything that is fed to the hash for the content `s`. */
  function PreImage(s: bytes, modulus: bytes): bytes {
    var r := Rewrite(s, modulus, Zeros(|modulus|));
    r.bytes + Trailer(r.matches)
  }

  class HashModuloSink {
    const hashSink: Sink
    const rewritingSink: RewritingSink
    ghost var input: bytes

    ghost predicate Valid()
      reads this, hashSink, rewritingSink
    {
      && rewritingSink.nextSink == hashSink
      && rewritingSink.Valid()
      && rewritingSink.to == Zeros(|rewritingSink.from|)
      && rewritingSink.flushed == [] && rewritingSink.flushedMatches == []
      && rewritingSink.segment == input
    }

    constructor (modulus: bytes)
      ensures Valid() && fresh(hashSink) && fresh(rewritingSink)
      ensures rewritingSink.from == modulus && input == []
    {
      var sink := new Sink();
      hashSink := sink;
      rewritingSink := new RewritingSink(modulus, Zeros(|modulus|), sink);
      input := [];
    }

    method Write(data: bytes)
      requires Valid()
      modifies this, hashSink, rewritingSink
      ensures Valid() && input == old(input) + data
    {
      rewritingSink.Write(data);
      input := input + data;
    }

    /** `finish`: however the input was split, the hash has seen exactly its
        pre-image, and `numBytesDigested` is the length of the input. */
    method Finish() returns (hashed: bytes, numBytesDigested: nat)
      requires Valid()
      modifies this, hashSink, rewritingSink
      ensures hashed == PreImage(old(input), rewritingSink.from)
      ensures numBytesDigested == |old(input)| <= |hashed|
      ensures rewritingSink.from != [] && NUL !in rewritingSink.from ==>
                var n := numBytesDigested;
                Reports(old(input), rewritingSink.from, hashed[..n], Positions(hashed[n..]))
    {
      hide Reports, Positions;
      ghost var r := Rewrite(input, rewritingSink.from, rewritingSink.to);
      ghost var left := r.matches;
      RewriteAscends(input, rewritingSink.from, rewritingSink.to);
      rewritingSink.Flush();
      var rest := rewritingSink.matches;
      assert rest == SetOf(left) by {
        assert Shift(r.matches, 0) == r.matches;
        assert [] + r.matches == r.matches;
        assert Shift(Rewrite([], rewritingSink.from, rewritingSink.to).matches, |r.bytes|) == [];
        assert r.matches + [] == r.matches;
      }
      assert hashSink.data == [] + r.bytes == r.bytes;
      ghost var lo: nat := 0;
      assert left != [] ==> left[0] in rest;
      while rest != {}
        invariant rewritingSink.nextSink == hashSink
        invariant AscendingFrom(left, lo) && rest == SetOf(left) && (rest == {} ==> left == [])
        invariant hashSink.data + Trailer(left) == r.bytes + Trailer(r.matches)
        invariant rewritingSink.pos == |old(input)|
        decreases rest
      {
        LeastIsFirst(left, lo);
        var m: nat :| m in rest && forall k | k in rest :: m <= k;
        assert m == left[0];
        assert hashSink.data + Trailer(left) == (hashSink.data + ([BAR] + Decimal(m))) + Trailer(left[1..]);
        hashSink.Write([BAR] + Decimal(m));
        rest := rest - {m};
        left, lo := left[1..], m + 1;
        assert left != [] ==> left[0] in rest;
      }
      hashed := hashSink.data;
      numBytesDigested := rewritingSink.pos;
      PreImageReports(old(input), rewritingSink.from);
    }
  }

  lemma RewriteAscends(s: bytes, from: bytes, to: bytes)
    requires |from| == |to|
    ensures AscendingFrom(Rewrite(s, from, to).matches, 0)
  {
    MatchesAscend(s, from, to, 0);
  }

  lemma {:induction false} AscendingBounds(ms: seq<nat>, lo: nat)
    requires AscendingFrom(ms, lo)
    ensures forall m | m in ms :: lo <= m
  {
    if ms != [] {
      AscendingBounds(ms[1..], ms[0] + 1);
      assert ms == [ms[0]] + ms[1..];
    }
  }

  lemma LeastIsFirst(ms: seq<nat>, lo: nat)
    requires AscendingFrom(ms, lo) && SetOf(ms) != {}
    ensures ms != [] && ms[0] in SetOf(ms)
    ensures forall k | k in SetOf(ms) :: ms[0] <= k
    ensures SetOf(ms[1..]) == SetOf(ms) - {ms[0]}
  {
    var k :| k in SetOf(ms);
    assert ms != [];
    AscendingBounds(ms[1..], ms[0] + 1);
    assert ms == [ms[0]] + ms[1..];
  }

  // ---------------------------------------------------------------------
  // The trailer determines the positions.

  function DecimalValue(d: bytes): int {
    if d == [] then 0 else DecimalValue(d[..|d| - 1]) * 10 + (d[|d| - 1] - DIGIT_ZERO)
  }

  lemma {:induction false} DecimalRoundTrip(n: nat)
    ensures DecimalValue(Decimal(n)) == n
  {
    if n >= 10 {
      var d := Decimal(n);
      DecimalRoundTrip(n / 10);
      assert d[..|d| - 1] == Decimal(n / 10);
    } else {
      assert Decimal(n)[..0] == [];
    }
  }

  /** A run of digits ends where the first bar (or the end) comes. */
  lemma SplitAtBar(d1: bytes, t1: bytes, d2: bytes, t2: bytes)
    requires d1 + t1 == d2 + t2
    requires BAR !in d1 && BAR !in d2
    requires t1 == [] || t1[0] == BAR
    requires t2 == [] || t2[0] == BAR
    ensures d1 == d2 && t1 == t2
  {
    var w := d1 + t1;
    assert |d1| < |w| ==> w[|d1|] == BAR;
    assert |d2| < |w| ==> w[|d2|] == BAR;
    assert forall i | 0 <= i < |d1| :: w[i] in d1;
    assert forall i | 0 <= i < |d2| :: w[i] in d2;
    assert d1 == (d1 + t1)[..|d1|] && d2 == (d2 + t2)[..|d2|];
    assert t1 == (d1 + t1)[|d1|..] && t2 == (d2 + t2)[|d2|..];
  }

  lemma {:induction false} TrailerInjective(a: seq<nat>, b: seq<nat>)
    requires Trailer(a) == Trailer(b)
    ensures a == b
  {
    if a != [] && b != [] {
      var ta, tb := Trailer(a[1..]), Trailer(b[1..]);
      assert Decimal(a[0]) + ta == Trailer(a)[1..];
      assert Decimal(b[0]) + tb == Trailer(b)[1..];
      SplitAtBar(Decimal(a[0]), ta, Decimal(b[0]), tb);
      DecimalRoundTrip(a[0]);
      DecimalRoundTrip(b[0]);
      TrailerInjective(a[1..], b[1..]);
      assert a == [a[0]] + a[1..] && b == [b[0]] + b[1..];
    }
  }

  // ---------------------------------------------------------------------
  // What the trailer says, read back.

  /** The length of what comes before the first bar. */
  function ToBar(b: bytes): (n: nat)
    ensures n <= |b| && BAR !in b[..n] && (n < |b| ==> b[n] == BAR)
  {
    if b == [] || b[0] == BAR then 0
    else
      assert b[..1 + ToBar(b[1..])] == [b[0]] + b[1..][..ToBar(b[1..])];
      1 + ToBar(b[1..])
  }

  /** The number after each bar. */
  function Positions(b: bytes): seq<int> {
    if b == [] || b[0] != BAR then []
    else
      var n := ToBar(b[1..]);
      [DecimalValue(b[1..][..n])] + Positions(b[1..][n..])
  }

  lemma FirstPosition(d: bytes, rest: bytes)
    requires BAR !in d && (rest == [] || rest[0] == BAR)
    ensures Positions([BAR] + (d + rest)) == [DecimalValue(d)] + Positions(rest)
  {
    hide ToBar, DecimalValue;
    var b := d + rest;
    assert b == b[..ToBar(b)] + b[ToBar(b)..];
    SplitAtBar(b[..ToBar(b)], b[ToBar(b)..], d, rest);
    assert ([BAR] + b)[1..] == b;
  }

  lemma TrailerFirst(ms: seq<nat>)
    requires ms != []
    ensures var rest := Trailer(ms[1..]);
            Trailer(ms) == [BAR] + (Decimal(ms[0]) + rest) && (rest == [] || rest[0] == BAR)
  {
    hide Decimal;
  }

  lemma NextPosition(m: nat, rest: bytes)
    requires rest == [] || rest[0] == BAR
    ensures Positions([BAR] + (Decimal(m) + rest)) == [m] + Positions(rest)
  {
    DecimalRoundTrip(m);
    hide Decimal, DecimalValue, Positions;
    FirstPosition(Decimal(m), rest);
  }

  lemma {:induction false} PositionsOfTrailer(ms: seq<nat>)
    ensures Positions(Trailer(ms)) == ms
  {
    if ms != [] {
      hide Trailer, Decimal, Positions;
      TrailerFirst(ms);
      NextPosition(ms[0], Trailer(ms[1..]));
      PositionsOfTrailer(ms[1..]);
      assert [ms[0]] + ms[1..] == ms;
    }
  }

  /** The positions ascend, each is that of a self-reference of `s`, and a byte
      of `r` differs from `s` exactly where one of them covers it, and is zero. */
  ghost predicate Reports(s: bytes, m: bytes, r: bytes, positions: seq<int>) {
    && |r| == |s|
    && (forall i, j | 0 <= i < j < |positions| :: positions[i] < positions[j])
    && (forall i | 0 <= i < |positions| :: positions[i] >= 0 && OccursAt(s, m, positions[i]))
    && (forall k | 0 <= k < |s| ::
          if exists i :: 0 <= i < |positions| && positions[i] <= k < positions[i] + |m|
          then s[k] != r[k] == NUL else r[k] == s[k])
    && (forall i | 0 <= i <= |s| - |m| :: !OccursAt(r, m, i))
  }

  lemma {:induction false} AscendingInOrder(ms: seq<nat>, lo: nat)
    requires AscendingFrom(ms, lo)
    ensures forall i, j | 0 <= i < j < |ms| :: ms[i] < ms[j]
  {
    if ms != [] {
      AscendingInOrder(ms[1..], ms[0] + 1);
      AscendingBounds(ms[1..], ms[0] + 1);
      assert forall j | 0 < j < |ms| :: ms[j] == ms[1..][j - 1] && ms[1..][j - 1] in ms[1..];
    }
  }

  /** The hash input is the content with its self-references zeroed, followed by
      their positions. */
  lemma PreImageReports(s: bytes, m: bytes)
    ensures |PreImage(s, m)| >= |s| && Positions(PreImage(s, m)[|s|..]) == Rewrite(s, m, Zeros(|m|)).matches
    ensures m != [] && NUL !in m ==> Reports(s, m, PreImage(s, m)[..|s|], Positions(PreImage(s, m)[|s|..]))
  {
    var r := Rewrite(s, m, Zeros(|m|));
    var p := PreImage(s, m);
    assert p[..|s|] == r.bytes && p[|s|..] == Trailer(r.matches);
    PositionsOfTrailer(r.matches);
    if m != [] && NUL !in m {
      assert m[0] in m && m != Zeros(|m|);
      RewriteMeaning(s, m, Zeros(|m|), 0);
      RewriteAscends(s, m, Zeros(|m|));
      AscendingInOrder(r.matches, 0);
      forall i | 0 <= i <= |s| - |m| ensures !OccursAt(r.bytes, m, i) {
        RewriteLeavesNone(s, m, Zeros(|m|), 0, i);
      }
      forall k | 0 <= k < |s|
        ensures if exists i :: 0 <= i < |r.matches| && r.matches[i] <= k < r.matches[i] + |m|
                then s[k] != r.bytes[k] == NUL else r.bytes[k] == s[k]
      {
        assert Covered(r.matches, |m|, k) <==>
            exists i :: 0 <= i < |r.matches| && r.matches[i] <= k < r.matches[i] + |m|;
      }
    }
  }

  lemma {:induction false} TrailerHasNoNul(ms: seq<nat>)
    ensures NUL !in Trailer(ms)
  {
    if ms != [] {
      TrailerHasNoNul(ms[1..]);
    }
  }

  // ---------------------------------------------------------------------
  // The pre-image is injective.

  predicate EndsInNul(s: bytes) {
    s != [] && s[|s| - 1] == NUL
  }

  /** Zeroing keeps a final NUL a NUL. */
  lemma {:induction false} ZeroingKeepsFinalNul(s: bytes, from: bytes, j: nat)
    requires EndsInNul(s)
    ensures EndsInNul(RewriteFrom(s, from, Zeros(|from|), j).bytes)
    decreases |s| - j
  {
    var to := Zeros(|from|);
    if from == [] || j + |from| > |s| {
    } else if OccursAt(s, from, j) {
      ZeroingKeepsFinalNul(Overwrite(s, j, to), from, j + 1);
    } else {
      ZeroingKeepsFinalNul(s, from, j + 1);
    }
  }

  lemma LastNulSplits(r1: bytes, t1: bytes, r2: bytes, t2: bytes)
    requires r1 + t1 == r2 + t2
    requires EndsInNul(r1) && EndsInNul(r2)
    requires NUL !in t1 && NUL !in t2
    ensures |r1| == |r2|
  {
    var w := r1 + t1;
    assert w[|r1| - 1] == NUL && w[|r2| - 1] == NUL;
    assert forall i | |r1| <= i < |w| :: w[i] in t1;
    assert forall i | |r2| <= i < |w| :: w[i] in t2;
  }

  /** For every modulus: contents of equal length, or contents that both end
      in NUL, are equal when their pre-images are. */
  lemma PreImageInjective(s1: bytes, s2: bytes, modulus: bytes)
    requires |s1| == |s2| || (EndsInNul(s1) && EndsInNul(s2))
    requires PreImage(s1, modulus) == PreImage(s2, modulus)
    ensures s1 == s2
  {
    var to := Zeros(|modulus|);
    var r1, r2 := Rewrite(s1, modulus, to), Rewrite(s2, modulus, to);
    if |s1| != |s2| {
      ZeroingKeepsFinalNul(s1, modulus, 0);
      ZeroingKeepsFinalNul(s2, modulus, 0);
      TrailerHasNoNul(r1.matches);
      TrailerHasNoNul(r2.matches);
      LastNulSplits(r1.bytes, Trailer(r1.matches), r2.bytes, Trailer(r2.matches));
    }
    var p1, p2 := PreImage(s1, modulus), PreImage(s2, modulus);
    assert r1.bytes == p1[..|s1|] && r2.bytes == p2[..|s2|];
    assert Trailer(r1.matches) == p1[|s1|..] && Trailer(r2.matches) == p2[|s2|..];
    TrailerInjective(r1.matches, r2.matches);
    RewriteInjective(s1, s2, modulus, to);
  }

  // ---------------------------------------------------------------------
  // Which contents of other lengths share their pre-image.

  predicate Absent(s: bytes, m: bytes) {
    forall i | 0 <= i < |s| :: !OccursAt(s, m, i)
  }

  lemma {:induction false} NoMatches(s: bytes, from: bytes, to: bytes, j: nat)
    requires |from| == |to| && from != []
    ensures RewriteFrom(s, from, to, j).matches == [] <==> forall i: nat | i >= j :: !OccursAt(s, from, i)
    ensures RewriteFrom(s, from, to, j).matches == [] ==> RewriteFrom(s, from, to, j).bytes == s
    decreases |s| - j
  {
    if j + |from| <= |s| && !OccursAt(s, from, j) {
      NoMatches(s, from, to, j + 1);
    }
  }

  /** Content without self-references is hashed as it is. */
  lemma AbsentIsItself(s: bytes, m: bytes)
    requires m != [] && NUL !in m
    ensures Absent(s, m) <==> Rewrite(s, m, Zeros(|m|)).matches == []
    ensures Absent(s, m) ==> PreImage(s, m) == s
    ensures !Absent(s, m) ==> |PreImage(s, m)| > |s|
  {
    assert m[0] in m && m != Zeros(|m|);
    NoMatches(s, m, Zeros(|m|), 0);
    assert forall i: nat | OccursAt(s, m, i) :: i < |s|;
  }

  lemma {:induction false} TrailerBytes(ms: seq<nat>)
    ensures forall b | b in Trailer(ms) :: b == BAR || DIGIT_ZERO <= b < DIGIT_ZERO + 10
  {
    if ms != [] {
      TrailerBytes(ms[1..]);
    }
  }

  /** No NUL, no bar, and not only digits: any hash part that is not a number. */
  predicate Ordinary(m: bytes) {
    NUL !in m && BAR !in m && exists i :: 0 <= i < |m| && !(DIGIT_ZERO <= m[i] < DIGIT_ZERO + 10)
  }

  /** What occurs in a string and a trailer lies in the string. */
  lemma AppendedOccurrence(r: bytes, ms: seq<nat>, m: bytes, i: nat)
    requires Ordinary(m)
    ensures OccursAt(r + Trailer(ms), m, i) ==> OccursAt(r, m, i)
  {
    var t := Trailer(ms);
    var p := r + t;
    TrailerBytes(ms);
    OccursPointwise(p, m, i);
    OccursPointwise(r, m, i);
    assert t != [] ==> t[0] == BAR && p[|r|] == t[0];
    hide OccursAt, Trailer;
    var d :| 0 <= d < |m| && !(DIGIT_ZERO <= m[d] < DIGIT_ZERO + 10);
    assert m[d] in m;
    assert |r| <= i + d < |p| ==> p[i + d] == t[i + d - |r|] && p[i + d] in t;
    assert i <= |r| < i + |m| ==> m[|r| - i] in m;
  }

  /** A pre-image holds no self-reference any more. */
  lemma PreImageHasNone(s: bytes, m: bytes)
    requires Ordinary(m)
    ensures Absent(PreImage(s, m), m)
  {
    var r := Rewrite(s, m, Zeros(|m|));
    assert m[0] in m && m != Zeros(|m|);
    forall i: nat ensures !OccursAt(PreImage(s, m), m, i) {
      RewriteLeavesNone(s, m, Zeros(|m|), 0, i);
      AppendedOccurrence(r.bytes, r.matches, m, i);
    }
  }

  ghost predicate Collides(s: bytes, m: bytes) {
    exists other :: other != s && PreImage(other, m) == PreImage(s, m)
  }

  /** The content is another one's zeroed bytes and trailer. */
  ghost predicate SpelledOut(s: bytes, m: bytes) {
    exists r, ms ::
      && ms != [] && s == r + Trailer(ms) && Fits(ms, |m|, |r|)
      && Rewrite(Undo(r, m, ms), m, Zeros(|m|)) == Rewritten(r, ms)
  }

  lemma PreImageIsSpelledOut(s: bytes, m: bytes)
    requires m != [] && NUL !in m && !Absent(s, m)
    ensures SpelledOut(PreImage(s, m), m)
  {
    AbsentIsItself(s, m);
    var r := Rewrite(s, m, Zeros(|m|));
    assert m[0] in m && m != Zeros(|m|);
    UndoRewriteFrom(s, m, Zeros(|m|), 0);
    assert Rewrite(Undo(r.bytes, m, r.matches), m, Zeros(|m|)) == Rewritten(r.bytes, r.matches);
  }

  /** Every content with a self-reference shares its pre-image with the content
      that spells it out, whenever no self-reference shows up in the spelling. */
  lemma SpellingCollides(s: bytes, m: bytes)
    requires m != [] && NUL !in m && !Absent(s, m) && Absent(PreImage(s, m), m)
    ensures PreImage(PreImage(s, m), m) == PreImage(s, m) && PreImage(s, m) != s
  {
    AbsentIsItself(s, m);
    AbsentIsItself(PreImage(s, m), m);
  }

  /** Exactly the contents with a self-reference, and those that spell one out,
      share their pre-image with another content. */
  lemma CollidesIff(s: bytes, m: bytes)
    requires Ordinary(m)
    ensures Collides(s, m) <==> !Absent(s, m) || SpelledOut(s, m)
  {
    AbsentIsItself(s, m);
    if !Absent(s, m) {
      PreImageHasNone(s, m);
      SpellingCollides(s, m);
    } else {
      if SpelledOut(s, m) {
        var r, ms :| ms != [] && s == r + Trailer(ms) && Fits(ms, |m|, |r|)
                     && Rewrite(Undo(r, m, ms), m, Zeros(|m|)) == Rewritten(r, ms);
        assert PreImage(Undo(r, m, ms), m) == s;
      }
      if other :| other != s && PreImage(other, m) == PreImage(s, m) {
        AbsentIsItself(other, m);
        if !Absent(other, m) {
          PreImageIsSpelledOut(other, m);
        }
      }
    }
  }
}
