/** `RewritingSink` and `HashModuloSink` (src/libstore/references.cc) and the
    in-place loop of `rewriteStrings` (src/libutil/util.cc). A hash sink is
    modelled by the bytes it was fed, that is, by the pre-image of the hash. */
module HashModulo {
  import opened Bytes
  import opened Rewriting
  import opened Streams

  /** `s.find(pattern, j)`. */
  function Find(s: bytes, pattern: bytes, j: nat): (r: Option<nat>)
    ensures r.Some? ==> j <= r.value && OccursAt(s, pattern, r.value)
    ensures r.Some? ==> forall i: nat | j <= i < r.value :: !OccursAt(s, pattern, i)
    ensures r.None? ==> forall i: nat | j <= i :: !OccursAt(s, pattern, i)
    decreases |s| - j
  {
    if j + |pattern| > |s| then None
    else if OccursAt(s, pattern, j) then Some(j)
    else Find(s, pattern, j + 1)
  }

  /** `rewriteStrings`: the search position `j` is not advanced after a
      replacement; the loop still terminates and makes one left-to-right pass. */
  method RewriteStrings(s0: bytes, from: bytes, to: bytes, offsetShift: nat)
    returns (s: bytes, matches: set<nat>)
    requires |from| == |to|
    ensures s == Rewrite(s0, from, to).bytes
    ensures matches == SetOf(Shift(Rewrite(s0, from, to).matches, offsetShift))
  {
    s, matches := s0, {};
    ghost var found: seq<nat> := [];
    if from == to {
      return;
    }
    assert Rewrite(s0, from, to).matches == found + Rewrite(s0, from, to).matches;
    var j: nat := 0;
    var at := Find(s, from, j);
    while at.Some?
      invariant at == Find(s, from, j)
      invariant Resumes(s0, from, to, found, s, j)
      invariant matches == SetOf(Shift(found, offsetShift))
      decreases |s| - j, if OccursAt(s, from, j) then 1 else 0
    {
      LoopKeeps(s0, from, to, found, s, j);
      ShiftSnoc(found, at.value, offsetShift);
      matches := matches + {at.value + offsetShift};
      found := found + [at.value];
      s := Overwrite(s, at.value, to);
      j := at.value;
      at := Find(s, from, j);
    }
    LoopEnds(s0, from, to, found, s, j);
  }

  /** The pass over `s0` goes on from position `j` of `s`, `found` behind it. */
  ghost predicate Resumes(s0: bytes, from: bytes, to: bytes, found: seq<nat>, s: bytes, j: nat) {
    && |from| == |to| && from != to && |s| == |s0|
    && var r := RewriteFrom(s, from, to, j);
       Rewrite(s0, from, to) == Rewritten(r.bytes, found + r.matches)
  }

  lemma LoopKeeps(s0: bytes, from: bytes, to: bytes, found: seq<nat>, s: bytes, j: nat)
    requires Resumes(s0, from, to, found, s, j)
    ensures match Find(s, from, j)
      case None => true
      case Some(k) =>
        var s' := Overwrite(s, k, to);
        !OccursAt(s', from, k) && Resumes(s0, from, to, found + [k], s', k)
  {
    LoopStep(s, from, to, j);
    match Find(s, from, j) {
      case None =>
      case Some(k) =>
        var r := RewriteFrom(Overwrite(s, k, to), from, to, k);
        assert found + ([k] + r.matches) == (found + [k]) + r.matches;
    }
  }

  lemma LoopEnds(s0: bytes, from: bytes, to: bytes, found: seq<nat>, s: bytes, j: nat)
    requires Resumes(s0, from, to, found, s, j)
    requires Find(s, from, j).None?
    ensures Rewrite(s0, from, to) == Rewritten(s, found)
  {
    LoopStep(s, from, to, j);
    assert found + [] == found;
  }

  /** One iteration: skip to the next occurrence, replace it, stay there. */
  lemma LoopStep(s: bytes, from: bytes, to: bytes, j: nat)
    requires |from| == |to| && from != to
    ensures match Find(s, from, j)
      case None => RewriteFrom(s, from, to, j) == Rewritten(s, [])
      case Some(k) =>
        var s' := Overwrite(s, k, to);
        var r := RewriteFrom(s', from, to, k);
        !OccursAt(s', from, k) && RewriteFrom(s, from, to, j) == Rewritten(r.bytes, [k] + r.matches)
  {
    match Find(s, from, j) {
      case None =>
        SkipNonMatches(s, from, to, j, Max(j, |s| + 1));
      case Some(k) =>
        SkipNonMatches(s, from, to, j, k);
        var s' := Overwrite(s, k, to);
        assert s'[k..k + |from|] == to;
        SkipNonMatches(s', from, to, k, k + 1);
    }
  }

  lemma ShiftSnoc(ms: seq<nat>, m: nat, d: nat)
    ensures Shift(ms + [m], d) == Shift(ms, d) + [m + d]
    ensures SetOf(Shift(ms + [m], d)) == SetOf(Shift(ms, d)) + {m + d}
  {
    assert Shift(ms + [m], d) == Shift(ms, d) + [m + d];
  }

  lemma SetOfAppend(a: seq<nat>, b: seq<nat>)
    ensures SetOf(a + b) == SetOf(a) + SetOf(b)
  {
  }

  class RewritingSink {
    const from: bytes
    const to: bytes
    const nextSink: Sink
    var prev: bytes
    var pos: nat
    var matches: set<nat>

    // What was written so far: whole segments that ended in a flush, then the
    // bytes received since.
    ghost var flushed: bytes
    ghost var flushedMatches: seq<nat>
    ghost var segment: bytes

    ghost predicate Valid()
      reads this, nextSink
    {
      && |from| == |to|
      && nextSink.data + prev == flushed + Rewrite(segment, from, to).bytes
      && |prev| == Max(0, Min(|segment|, |from| - 1))
      && pos == |nextSink.data|
      && matches == SetOf(Matches())
    }

    ghost function Matches(): seq<nat>
      requires |from| == |to|
      reads this
    {
      flushedMatches + Shift(Rewrite(segment, from, to).matches, |flushed|)
    }

    constructor (from: bytes, to: bytes, nextSink: Sink)
      requires |from| == |to|
      requires nextSink.data == []
      ensures Valid()
      ensures this.from == from && this.to == to && this.nextSink == nextSink
      ensures segment == [] && flushed == [] && flushedMatches == []
    {
      this.from, this.to, this.nextSink := from, to, nextSink;
      prev, pos, matches := [], 0, {};
      flushed, flushedMatches, segment := [], [], [];
    }

    /** `RewritingSink::operator()`: any split of the input into chunks gives the
        bytes, the positions and the count of one pass over the whole input. */
    method Write(data: bytes)
      requires Valid()
      modifies this, nextSink
      ensures Valid()
      ensures segment == old(segment) + data
      ensures flushed == old(flushed) && flushedMatches == old(flushedMatches)
    {
      var s, found := RewriteStrings(prev + data, from, to, pos);
      matches := matches + found;
      var n := |from|;
      prev := if |s| < n then s else if n == 0 then [] else s[|s| - n + 1..];
      var consumed := |s| - |prev|;
      pos := pos + consumed;
      if consumed != 0 {
        nextSink.Write(s[..consumed]);
      }
      segment := segment + data;
      assert s == s[..consumed] + prev;
      WriteStep(from, to, old(flushed), old(flushedMatches), old(segment), data, old(nextSink.data), old(prev));
      assert nextSink.data == old(nextSink.data) + s[..consumed];
      assert nextSink.data + prev == old(nextSink.data) + s;
      assert pos == |nextSink.data|;
    }

    /** `RewritingSink::flush`. */
    method Flush()
      requires Valid()
      modifies this, nextSink
      ensures Valid() && segment == [] && prev == []
      ensures nextSink.data == flushed == old(flushed + Rewrite(segment, from, to).bytes)
      ensures flushedMatches == old(Matches())
      ensures pos == old(|flushed| + |segment|)
    {
      if prev != [] {
        pos := pos + |prev|;
        nextSink.Write(prev);
        prev := [];
      }
      flushedMatches := Matches();
      flushed := flushed + Rewrite(segment, from, to).bytes;
      segment := [];
      assert nextSink.data == old(nextSink.data + prev);
      assert Matches() == flushedMatches;
    }
  }

  lemma WriteStep(from: bytes, to: bytes, flushed: bytes, fm: seq<nat>, segment: bytes, data: bytes,
          out: bytes, prev: bytes)
    requires |from| == |to|
    requires out + prev == flushed + Rewrite(segment, from, to).bytes
    requires |prev| == Max(0, Min(|segment|, |from| - 1))
    ensures out + Rewrite(prev + data, from, to).bytes == flushed + Rewrite(segment + data, from, to).bytes
    ensures SetOf(fm + Shift(Rewrite(segment, from, to).matches, |flushed|))
            + SetOf(Shift(Rewrite(prev + data, from, to).matches, |out|))
         == SetOf(fm + Shift(Rewrite(segment + data, from, to).matches, |flushed|))
  {
    hide RewriteFrom;
    assert |flushed| <= |out|;
    assert out == flushed + out[|flushed|..] by {
      assert (out + prev)[..|flushed|] == flushed;
    }
    var done := out[|flushed|..];
    assert done + prev == Rewrite(segment, from, to).bytes by {
      assert (out + prev)[|flushed|..] == done + prev;
    }
    if from == to {
      assert out + (prev + data) == flushed + (segment + data);
    } else {
      ChunkStep(segment, data, from, to, done, prev);
      var m1, m2 := Rewrite(segment, from, to).matches, Rewrite(prev + data, from, to).matches;
      assert fm + Shift(m1 + Shift(m2, |done|), |flushed|) == (fm + Shift(m1, |flushed|)) + Shift(m2, |out|);
      SetOfAppend(fm + Shift(m1, |flushed|), Shift(m2, |out|));
    }
  }
}
