/** Facts about finite sets and duplicate-free sequences. */
module Finite {
  predicate Distinct<T(==)>(s: seq<T>) {
    forall i, j | 0 <= i < j < |s| :: s[i] != s[j]
  }

  function Elements<T>(s: seq<T>): set<T> {
    set x | x in s
  }

  lemma NoElements<T>(s: seq<T>)
    ensures Elements(s) == {} <==> s == []
  {
    assert s != [] ==> s[0] in Elements(s);
  }

  lemma ElementsSnoc<T>(s: seq<T>, x: T)
    ensures Elements(s + [x]) == Elements(s) + {x}
    ensures Distinct(s) && x !in Elements(s) ==> Distinct(s + [x])
  {
  }

  lemma ElementsTail<T>(s: seq<T>)
    requires s != [] && Distinct(s)
    ensures Elements(s[1..]) == Elements(s) - {s[0]} && Distinct(s[1..])
  {
    assert s == [s[0]] + s[1..];
  }

  lemma {:induction false} SubsetSize<T>(a: set<T>, b: set<T>)
    requires a <= b
    ensures |a| <= |b|
    decreases a
  {
    if x :| x in a {
      SubsetSize(a - {x}, b - {x});
    }
  }

  /** Fewer elements of `all` are left once `done` has grown by `x`. */
  lemma Shrinks<T>(all: set<T>, done: set<T>, done': set<T>, x: T)
    requires done <= done' && x in all && x !in done && x in done'
    ensures |all - done'| < |all - done|
  {
    SubsetSize(all - done', all - done - {x});
  }

  lemma Outside(s: set<nat>) returns (n: nat)
    ensures forall m | m in s :: m < n
    decreases s
  {
    n := 0;
    if m :| m in s {
      n := Outside(s - {m});
      assert s == (s - {m}) + {m};
      n := if m < n then n else m + 1;
    }
  }

  /** A duplicate-free sequence of the elements. */
  lemma {:induction false} Listed<T>(s: set<T>) returns (q: seq<T>)
    ensures Distinct(q) && Elements(q) == s
    decreases s
  {
    if x :| x in s {
      q := Listed(s - {x});
      ElementsSnoc(q, x);
      q := q + [x];
    } else {
      q := [];
    }
  }

  // ---------------------------------------------------------------------
  // Sums over a sequence.

  ghost function Total<T>(size: T -> nat, s: seq<T>): nat {
    if s == [] then 0 else Total(size, s[..|s| - 1]) + size(s[|s| - 1])
  }

  lemma {:induction false} TotalWithout<T>(size: T -> nat, s: seq<T>, i: nat)
    requires i < |s|
    ensures Total(size, s) == Total(size, s[..i] + s[i + 1..]) + size(s[i])
    decreases |s|
  {
    var n := |s| - 1;
    var rest := s[..i] + s[i + 1..];
    if i == n {
      assert rest == s[..n];
    } else {
      TotalWithout(size, s[..n], i);
      assert s[..n][..i] + s[..n][i + 1..] == rest[..|rest| - 1];
    }
  }

  lemma CountsWithout<T>(s: seq<T>, i: nat, x: T)
    requires i < |s|
    ensures multiset(s[..i] + s[i + 1..])[x] == multiset(s)[x] - if x == s[i] then 1 else 0
  {
    assert s == s[..i] + [s[i]] + s[i + 1..];
  }

  ghost predicate SameCounts<T(!new)>(s: seq<T>, t: seq<T>) {
    forall x :: multiset(s)[x] == multiset(t)[x]
  }

  /** Only how often each element occurs matters. */
  lemma {:induction false} TotalOfSameCounts<T(!new)>(size: T -> nat, s: seq<T>, t: seq<T>)
    requires SameCounts(s, t)
    ensures Total(size, s) == Total(size, t)
    decreases |s|
  {
    if s == [] {
      assert t != [] ==> multiset(t)[t[0]] > 0 && multiset(s)[t[0]] == 0;
    } else {
      var n := |s| - 1;
      assert multiset(s)[s[n]] > 0 && multiset(t)[s[n]] > 0;
      var j :| 0 <= j < |t| && t[j] == s[n];
      TotalWithout(size, s, n);
      TotalWithout(size, t, j);
      var s', t' := s[..n] + s[n + 1..], t[..j] + t[j + 1..];
      forall x ensures multiset(s')[x] == multiset(t')[x] {
        CountsWithout(s, n, x);
        CountsWithout(t, j, x);
      }
      TotalOfSameCounts(size, s', t');
    }
  }

  ghost function Indicator<T>(x: T): T -> nat {
    y => if y == x then 1 else 0
  }

  /** Counting one element is a sum. */
  lemma {:induction false} TotalOfOne<T>(s: seq<T>, x: T)
    ensures Total(Indicator(x), s) == multiset(s)[x]
    decreases |s|
  {
    if s != [] {
      var n := |s| - 1;
      assert s == s[..n] + [s[n]];
      TotalOfOne(s[..n], x);
    }
  }

  lemma DistinctCounts<T>(s: seq<T>, x: T)
    requires Distinct(s)
    ensures multiset(s)[x] == if x in s then 1 else 0
    decreases |s|
  {
    if s != [] {
      var n := |s| - 1;
      assert s == s[..n] + [s[n]];
      DistinctCounts(s[..n], x);
    }
  }
}
