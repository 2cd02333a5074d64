/** Paths in a finite directed graph given by its adjacency sets. */
module Reachability {
  type Graph<T> = map<T, set<T>>

  /** Every element of `s` but the last has an edge to the next one. */
  ghost predicate Path<T>(g: Graph<T>, s: seq<T>) {
    && s != []
    && forall i | 0 <= i < |s| - 1 :: s[i] in g && s[i + 1] in g[s[i]]
  }

  ghost predicate Reaches<T(!new)>(g: Graph<T>, x: T, y: T) {
    exists s: seq<T> :: Path(g, s) && s[0] == x && s[|s| - 1] == y
  }

  ghost predicate ReachedFrom<T(!new)>(g: Graph<T>, start: set<T>, y: T) {
    exists x :: x in start && Reaches(g, x, y)
  }

  ghost predicate Closed<T(!new)>(g: Graph<T>, s: set<T>) {
    forall x | x in s && x in g :: g[x] <= s
  }

  /** Closed against the direction of the edges. */
  ghost predicate UpClosed<T(!new)>(g: Graph<T>, s: set<T>) {
    forall x, y | x in g && y in g[x] && y in s :: x in s
  }

  lemma ReachesSelf<T(!new)>(g: Graph<T>, x: T)
    ensures Reaches(g, x, x)
  {
    assert Path(g, [x]);
  }

  lemma ReachesTransitive<T(!new)>(g: Graph<T>, x: T, y: T, z: T)
    requires Reaches(g, x, y) && Reaches(g, y, z)
    ensures Reaches(g, x, z)
  {
    var s :| Path(g, s) && s[0] == x && s[|s| - 1] == y;
    var t :| Path(g, t) && t[0] == y && t[|t| - 1] == z;
    var u := s + t[1..];
    assert forall i | 0 <= i < |u| :: u[i] == if i < |s| then s[i] else t[i - |s| + 1];
    assert Path(g, u);
  }

  lemma ReachesStep<T(!new)>(g: Graph<T>, x: T, y: T)
    requires x in g && y in g[x]
    ensures Reaches(g, x, y)
  {
    assert Path(g, [x, y]);
  }

  lemma SubgraphReaches<T(!new)>(g: Graph<T>, h: Graph<T>, x: T, y: T)
    requires forall z | z in g :: z in h && g[z] <= h[z]
    ensures Reaches(g, x, y) ==> Reaches(h, x, y)
  {
    if Reaches(g, x, y) {
      var s :| Path(g, s) && s[0] == x && s[|s| - 1] == y;
      assert Path(h, s);
    }
  }

  /** A path never leaves a closed set. */
  lemma ClosedKeeps<T(!new)>(g: Graph<T>, s: set<T>, x: T, y: T)
    requires Closed(g, s) && x in s && Reaches(g, x, y)
    ensures y in s
  {
    var p :| Path(g, p) && p[0] == x && p[|p| - 1] == y;
    PathStaysIn(g, s, p, |p| - 1);
  }

  lemma {:induction false} PathStaysIn<T(!new)>(g: Graph<T>, s: set<T>, p: seq<T>, i: nat)
    requires Closed(g, s) && Path(g, p) && p[0] in s && i < |p|
    ensures p[i] in s
  {
    if i > 0 {
      PathStaysIn(g, s, p, i - 1);
    }
  }

  lemma UpClosedKeeps<T(!new)>(g: Graph<T>, s: set<T>, x: T, y: T)
    requires UpClosed(g, s) && y in s && Reaches(g, x, y)
    ensures x in s
  {
    var p :| Path(g, p) && p[0] == x && p[|p| - 1] == y;
    PathCameFrom(g, s, p, 0);
  }

  lemma {:induction false} PathCameFrom<T(!new)>(g: Graph<T>, s: set<T>, p: seq<T>, i: nat)
    requires UpClosed(g, s) && Path(g, p) && p[|p| - 1] in s && i < |p|
    ensures p[i] in s
    decreases |p| - i
  {
    if i < |p| - 1 {
      PathCameFrom(g, s, p, i + 1);
    }
  }

  // ---------------------------------------------------------------------
  // Paths that avoid a set.

  function Without<T>(g: Graph<T>, avoid: set<T>): Graph<T> {
    map x | x in g && x !in avoid :: g[x] - avoid
  }

  /** When `given` is closed, adding what the new elements reach without passing
      through `given` is the same as adding all they reach. */
  lemma AvoidingClosed<T(!new)>(g: Graph<T>, given: set<T>, start: set<T>, y: T)
    requires Closed(g, given)
    ensures (y in given || ReachedFrom(Without(g, given), start - given, y))
       <==> (y in given || ReachedFrom(g, start, y))
  {
    if ReachedFrom(Without(g, given), start - given, y) {
      var x :| x in start - given && Reaches(Without(g, given), x, y);
      var p :| Path(Without(g, given), p) && p[0] == x && p[|p| - 1] == y;
      assert Path(g, p);
    }
    if ReachedFrom(g, start, y) && y !in given {
      var x :| x in start && Reaches(g, x, y);
      var p :| Path(g, p) && p[0] == x && p[|p| - 1] == y;
      forall i | 0 <= i < |p| ensures p[i] !in given {
        if p[i] in given {
          PathStaysIn(g, given, p[i..], |p| - 1 - i);
        }
      }
      assert Path(Without(g, given), p);
      assert x in start - given && Reaches(Without(g, given), x, y);
    }
  }
}
