/** String rewriting (`rewriteStrings`, src/libutil/util.cc) and its streaming
    form (`RewritingSink`, src/libstore/references.cc), for one rewrite whose two
    strings have equal length. */
module Rewriting {
  import opened Bytes

  /** The bytes after rewriting, and the ascending positions that were rewritten. */
  datatype Rewritten = Rewritten(bytes: bytes, matches: seq<nat>)

  predicate OccursAt(s: bytes, pattern: bytes, j: nat) {
    j + |pattern| <= |s| && s[j..j + |pattern|] == pattern
  }

  /** `s.replace(j, to.size(), to)`. */
  function Overwrite(s: bytes, j: nat, to: bytes): (r: bytes)
    requires j + |to| <= |s|
    ensures |r| == |s|
    ensures forall k | 0 <= k < |s| :: r[k] == if j <= k < j + |to| then to[k - j] else s[k]
  {
    s[..j] + to + s[j + |to|..]
  }

  /** A single left-to-right pass over the start positions from `j` on. */
  function RewriteFrom(s: bytes, from: bytes, to: bytes, j: nat): (r: Rewritten)
    requires |from| == |to|
    ensures |r.bytes| == |s|
    decreases |s| - j
  {
    if from == [] || j + |from| > |s| then
      Rewritten(s, [])
    else if OccursAt(s, from, j) then
      var r := RewriteFrom(Overwrite(s, j, to), from, to, j + 1);
      Rewritten(r.bytes, [j] + r.matches)
    else
      RewriteFrom(s, from, to, j + 1)
  }

  /** What rewriting a whole string in one go means. */
  function Rewrite(s: bytes, from: bytes, to: bytes): (r: Rewritten)
    requires |from| == |to|
    ensures |r.bytes| == |s|
  {
    if from == to then Rewritten(s, []) else RewriteFrom(s, from, to, 0)
  }

  predicate AscendingFrom(ms: seq<nat>, lo: nat) {
    ms == [] || (lo <= ms[0] && AscendingFrom(ms[1..], ms[0] + 1))
  }

  function Shift(ms: seq<nat>, d: nat): (r: seq<nat>)
    ensures |r| == |ms|
    ensures forall i | 0 <= i < |ms| :: r[i] == ms[i] + d
  {
    seq(|ms|, i requires 0 <= i < |ms| => ms[i] + d)
  }

  function SetOf(ms: seq<nat>): set<nat> {
    set m | m in ms
  }

  // ---------------------------------------------------------------------
  // Facts about the single pass.

  lemma {:induction false} MatchesAscend(s: bytes, from: bytes, to: bytes, j: nat)
    requires |from| == |to|
    ensures AscendingFrom(RewriteFrom(s, from, to, j).matches, j)
    ensures Fits(RewriteFrom(s, from, to, j).matches, |from|, |s|)
    decreases |s| - j
  {
    if from == [] || j + |from| > |s| {
    } else if OccursAt(s, from, j) {
      var s' := Overwrite(s, j, to);
      MatchesAscend(s', from, to, j + 1);
      assert RewriteFrom(s, from, to, j).matches[1..] == RewriteFrom(s', from, to, j + 1).matches;
    } else {
      MatchesAscend(s, from, to, j + 1);
      AscendingWeaken(RewriteFrom(s, from, to, j + 1).matches, j + 1, j);
    }
  }

  lemma AscendingWeaken(ms: seq<nat>, lo: nat, lo': nat)
    requires AscendingFrom(ms, lo) && lo' <= lo
    ensures AscendingFrom(ms, lo')
  {
  }

  /** Skipping start positions at which nothing occurs. */
  lemma {:induction false} SkipNonMatches(s: bytes, from: bytes, to: bytes, j: nat, k: nat)
    requires |from| == |to| && from != [] && j <= k
    requires forall i | j <= i < k :: !OccursAt(s, from, i)
    ensures RewriteFrom(s, from, to, j) == RewriteFrom(s, from, to, k)
    decreases k - j
  {
    if j < k {
      SkipNonMatches(s, from, to, j + 1, k);
    }
  }

  lemma OccursShift(p: bytes, s: bytes, from: bytes, to: bytes, j: nat)
    requires |from| == |to|
    ensures OccursAt(p + s, from, |p| + j) <==> OccursAt(s, from, j)
    ensures OccursAt(s, from, j) ==> Overwrite(p + s, |p| + j, to) == p + Overwrite(s, j, to)
  {
    if j + |from| <= |s| {
      assert (p + s)[|p| + j..|p| + j + |from|] == s[j..j + |from|];
    }
  }

  lemma OccursPrefix(a: bytes, b: bytes, from: bytes, to: bytes, j: nat)
    requires |from| == |to| && j + |from| <= |a|
    ensures OccursAt(a + b, from, j) <==> OccursAt(a, from, j)
    ensures Overwrite(a + b, j, to) == Overwrite(a, j, to) + b
  {
    assert (a + b)[j..j + |from|] == a[j..j + |from|];
  }

  /** The pass never looks left of its start position. */
  lemma {:induction false} RewriteSuffix(p: bytes, s: bytes, from: bytes, to: bytes, j: nat)
    requires |from| == |to|
    ensures RewriteFrom(p + s, from, to, |p| + j).bytes == p + RewriteFrom(s, from, to, j).bytes
    ensures RewriteFrom(p + s, from, to, |p| + j).matches == Shift(RewriteFrom(s, from, to, j).matches, |p|)
    decreases |s| - j
  {
    hide Overwrite, OccursAt, Shift;
    OccursShift(p, s, from, to, j);
    if from == [] || j + |from| > |s| {
    } else if OccursAt(s, from, j) {
      var s' := Overwrite(s, j, to);
      RewriteSuffix(p, s', from, to, j + 1);
      ShiftCons(j, RewriteFrom(s', from, to, j + 1).matches, |p|);
    } else {
      RewriteSuffix(p, s, from, to, j + 1);
    }
  }

  lemma ShiftCons(m: nat, ms: seq<nat>, d: nat)
    ensures Shift([m] + ms, d) == [m + d] + Shift(ms, d)
  {
  }

  /** The pass over `a + b` is the pass over `a`, resumed at the first start
      position that did not fit into `a`. */
  lemma {:induction false} RewriteResume(a: bytes, b: bytes, from: bytes, to: bytes, j: nat)
    requires |from| == |to| && from != []
    ensures
      var ra := RewriteFrom(a, from, to, j);
      var rest := RewriteFrom(ra.bytes + b, from, to, Max(j, |a| - |from| + 1));
      RewriteFrom(a + b, from, to, j) == Rewritten(rest.bytes, ra.matches + rest.matches)
    decreases |a| - j
  {
    hide Overwrite, OccursAt;
    if j + |from| > |a| {
      assert Max(j, |a| - |from| + 1) == j;
    } else {
      OccursPrefix(a, b, from, to, j);
      var a' := if OccursAt(a, from, j) then Overwrite(a, j, to) else a;
      RewriteResume(a', b, from, to, j + 1);
      assert Max(j, |a| - |from| + 1) == Max(j + 1, |a'| - |from| + 1);
      if OccursAt(a, from, j) {
        var ra := RewriteFrom(a', from, to, j + 1);
        var rest := RewriteFrom(ra.bytes + b, from, to, Max(j, |a| - |from| + 1));
        assert [j] + (ra.matches + rest.matches) == ([j] + ra.matches) + rest.matches;
      }
    }
  }

  /** One chunk: `done` bytes of the rewritten prefix have left the sink, the
      other `|from| - 1` are still carried. */
  lemma ChunkStep(seen: bytes, data: bytes, from: bytes, to: bytes, done: bytes, carry: bytes)
    requires |from| == |to| && from != to
    requires done + carry == Rewrite(seen, from, to).bytes
    requires |carry| == Min(|seen|, |from| - 1)
    ensures Rewrite(seen + data, from, to).bytes == done + Rewrite(carry + data, from, to).bytes
    ensures Rewrite(seen + data, from, to).matches
         == Rewrite(seen, from, to).matches + Shift(Rewrite(carry + data, from, to).matches, |done|)
  {
    hide RewriteFrom;
    RewriteResume(seen, data, from, to, 0);
    assert (done + carry) + data == done + (carry + data);
    assert Max(0, |seen| - |from| + 1) == |done|;
    RewriteSuffix(done, carry + data, from, to, 0);
  }

  // ---------------------------------------------------------------------
  // The pass can be undone: rewriting loses nothing but the positions.

  predicate Fits(ms: seq<nat>, n: nat, len: nat) {
    forall i | 0 <= i < |ms| :: ms[i] + n <= len
  }

  function Undo(s: bytes, from: bytes, ms: seq<nat>): (r: bytes)
    requires Fits(ms, |from|, |s|)
    ensures |r| == |s|
  {
    if ms == [] then s else Overwrite(Undo(s, from, ms[1..]), ms[0], from)
  }

  lemma {:induction false} UndoRewriteFrom(s: bytes, from: bytes, to: bytes, j: nat)
    requires |from| == |to|
    ensures
      var r := RewriteFrom(s, from, to, j);
      Fits(r.matches, |from|, |s|) && Undo(r.bytes, from, r.matches) == s
    decreases |s| - j
  {
    MatchesAscend(s, from, to, j);
    if from == [] || j + |from| > |s| {
    } else if OccursAt(s, from, j) {
      var s' := Overwrite(s, j, to);
      UndoRewriteFrom(s', from, to, j + 1);
      var r := RewriteFrom(s', from, to, j + 1);
      assert ([j] + r.matches)[1..] == r.matches;
      assert Undo(r.bytes, from, [j] + r.matches) == Overwrite(s', j, from);
      assert Overwrite(s', j, from) == s by {
        assert forall k | j <= k < j + |from| :: s[k] == s[j..j + |from|][k - j];
      }
    } else {
      UndoRewriteFrom(s, from, to, j + 1);
    }
  }

  /** Rewriting is injective once the positions are known, for every rewrite. */
  lemma RewriteInjective(s1: bytes, s2: bytes, from: bytes, to: bytes)
    requires |from| == |to|
    requires Rewrite(s1, from, to) == Rewrite(s2, from, to)
    ensures s1 == s2
  {
    if from != to {
      UndoRewriteFrom(s1, from, to, 0);
      UndoRewriteFrom(s2, from, to, 0);
    }
  }

  // ---------------------------------------------------------------------
  // What the pass does when the replacement shares no byte with the pattern,
  // as for a NUL-free modulus that is replaced by NULs.

  predicate Disjoint(from: bytes, to: bytes) {
    forall b | b in from :: b !in to
  }

  predicate Covered(ms: seq<nat>, n: nat, k: nat) {
    exists i | 0 <= i < |ms| :: ms[i] <= k < ms[i] + n
  }

  /** A byte changes exactly when a match covers it, every match is an
      occurrence in the original string, and no byte of the pattern is new. */
  predicate RewritesExactly(s: bytes, from: bytes, to: bytes, r: Rewritten) {
    && |r.bytes| == |s|
    && (forall i | 0 <= i < |r.matches| :: OccursAt(s, from, r.matches[i]))
    && (forall k | 0 <= k < |s| ::
          if Covered(r.matches, |from|, k) then s[k] in from && r.bytes[k] in to else r.bytes[k] == s[k])
  }

  lemma {:induction false} RewriteMeaning(s: bytes, from: bytes, to: bytes, j: nat)
    requires 0 < |from| == |to| && Disjoint(from, to)
    ensures RewritesExactly(s, from, to, RewriteFrom(s, from, to, j))
    decreases |s| - j
  {
    if j + |from| > |s| {
    } else if OccursAt(s, from, j) {
      var s' := Overwrite(s, j, to);
      RewriteMeaning(s', from, to, j + 1);
      RewriteMeaningHit(s, from, to, j, RewriteFrom(s', from, to, j + 1));
    } else {
      RewriteMeaning(s, from, to, j + 1);
    }
  }

  lemma OccursPointwise(s: bytes, pattern: bytes, m: nat)
    ensures OccursAt(s, pattern, m)
       <==> m + |pattern| <= |s| && forall k {:trigger s[k]} | m <= k < m + |pattern| :: s[k] == pattern[k - m]
  {
    if m + |pattern| <= |s| {
      var w := s[m..m + |pattern|];
      assert forall i | 0 <= i < |pattern| :: w[i] == s[m + i];
      assert forall k {:trigger s[k]} | m <= k < m + |pattern| :: s[k] == w[k - m];
    }
  }

  /** What is found after a replacement lies beside it, so it was there before. */
  lemma OccurrenceMissesReplaced(s: bytes, from: bytes, to: bytes, j: nat, m: nat)
    requires 0 < |from| == |to| && Disjoint(from, to)
    requires j + |to| <= |s| && OccursAt(Overwrite(s, j, to), from, m)
    ensures m + |from| <= j || j + |from| <= m
    ensures OccursAt(s, from, m)
  {
    var s' := Overwrite(s, j, to);
    hide Overwrite;
    OccursPointwise(s', from, m);
    OccursPointwise(s, from, m);
    hide OccursAt;
    assert forall i | 0 <= i < |from| :: from[i] in from;
    assert forall i | 0 <= i < |to| :: to[i] in to;
    var k := Max(m, j);
    assert k < m + |from| ==> s'[k] == from[k - m];
  }

  lemma RewriteMeaningHit(s: bytes, from: bytes, to: bytes, j: nat, r: Rewritten)
    requires 0 < |from| == |to| && Disjoint(from, to)
    requires OccursAt(s, from, j)
    requires RewritesExactly(Overwrite(s, j, to), from, to, r)
    ensures RewritesExactly(s, from, to, Rewritten(r.bytes, [j] + r.matches))
  {
    var s' := Overwrite(s, j, to);
    var ms := [j] + r.matches;
    hide Overwrite;
    OccursPointwise(s, from, j);
    forall i | 0 <= i < |r.matches|
      ensures OccursAt(s, from, r.matches[i])
      ensures r.matches[i] + |from| <= j || j + |from| <= r.matches[i]
    {
      OccurrenceMissesReplaced(s, from, to, j, r.matches[i]);
    }
    forall k | 0 <= k < |s|
      ensures Covered(ms, |from|, k) <==> (j <= k < j + |from| || Covered(r.matches, |from|, k))
    {
      CoveredCons(j, r.matches, |from|, k);
    }
  }

  lemma CoveredCons(j: nat, ms: seq<nat>, n: nat, k: nat)
    ensures Covered([j] + ms, n, k) <==> (j <= k < j + n || Covered(ms, n, k))
  {
    var all := [j] + ms;
    assert all[0] == j;
    if Covered(ms, n, k) {
      var i :| 0 <= i < |ms| && ms[i] <= k < ms[i] + n;
      assert all[i + 1] == ms[i];
    }
  }

  /** No occurrence at or after the start position survives. */
  lemma {:induction false} RewriteLeavesNone(s: bytes, from: bytes, to: bytes, j: nat, i: nat)
    requires 0 < |from| == |to| && Disjoint(from, to)
    requires j <= i
    ensures !OccursAt(RewriteFrom(s, from, to, j).bytes, from, i)
    decreases |s| - j
  {
    var r := RewriteFrom(s, from, to, j);
    if j + |from| > |s| {
    } else {
      var s' := if OccursAt(s, from, j) then Overwrite(s, j, to) else s;
      if j < i {
        RewriteLeavesNone(s', from, to, j + 1, i);
      } else {
        RewriteMeaning(s', from, to, j + 1);
        NoNewOccurrence(s', from, to, RewriteFrom(s', from, to, j + 1), j);
        assert !OccursAt(s', from, j) by {
          if OccursAt(s, from, j) {
            assert from[0] in from && to[0] in to;
            assert s'[j..j + |from|][0] == to[0];
          }
        }
      }
    }
  }

  lemma NoNewOccurrence(s: bytes, from: bytes, to: bytes, r: Rewritten, j: nat)
    requires 0 < |from| == |to| && Disjoint(from, to)
    requires RewritesExactly(s, from, to, r)
    ensures OccursAt(r.bytes, from, j) ==> OccursAt(s, from, j)
  {
    if OccursAt(r.bytes, from, j) {
      forall k | j <= k < j + |from| ensures r.bytes[k] == s[k] {
        assert r.bytes[k] == r.bytes[j..j + |from|][k - j];
      }
      assert s[j..j + |from|] == r.bytes[j..j + |from|];
    }
  }
}
