/** `topoSort` (src/libutil/include/nix/util/topo-sort.hh): depth-first search
    with a set of visited items and a set of items on the current path. It
    returns a sorted sequence exactly when the references among the items have
    no cycle, ignoring self-references. */
module TopoSort {
  import opened Bytes
  import opened Finite
  import opened Reachability

  function Children<T>(g: Graph<T>, x: T): set<T> {
    if x in g then g[x] else {}
  }

  /** `x` refers to another item `y` of the set being sorted. */
  predicate Edge<T(==)>(g: Graph<T>, items: set<T>, x: T, y: T) {
    x in items && y in items && x != y && y in Children(g, x)
  }

  /** If p refers to q, then p precedes q. */
  ghost predicate Topological<T>(g: Graph<T>, items: set<T>, s: seq<T>) {
    && Distinct(s) && Elements(s) == items
    && forall i, j | 0 <= i < |s| && 0 <= j < |s| && Edge(g, items, s[i], s[j]) :: i < j
  }

  ghost predicate Chain<T>(g: Graph<T>, items: set<T>, s: seq<T>) {
    forall i | 0 <= i < |s| - 1 :: Edge(g, items, s[i], s[i + 1])
  }

  ghost predicate IsCycle<T>(g: Graph<T>, items: set<T>, s: seq<T>) {
    |s| >= 2 && s[0] == s[|s| - 1] && Chain(g, items, s)
  }

  ghost predicate Acyclic<T(!new)>(g: Graph<T>, items: set<T>) {
    forall s: seq<T> :: !IsCycle(g, items, s)
  }

  datatype Outcome<T> = Sorted(order: seq<T>) | Cycle(path: T, parent: T)

  class Sorter<T(==, !new)> {
    const items: set<T>
    const graph: Graph<T>
    var sorted: seq<T>
    var visited: set<T>
    var parents: set<T>
    ghost var stack: seq<T>

    ghost predicate Valid()
      reads this
    {
      Consistent(graph, items, sorted, visited, parents, stack)
    }

    constructor (items: set<T>, graph: Graph<T>)
      ensures Valid() && this.items == items && this.graph == graph
      ensures visited == {} && sorted == [] && parents == {} && stack == []
    {
      this.items, this.graph := items, graph;
      sorted, visited, parents, stack := [], {}, {}, [];
    }

    /** `dfsVisit`. */
    method DfsVisit(path: T, parent: Option<T>) returns (cycle: Option<(T, T)>)
      requires Valid() && path in items
      requires parent == if stack == [] then None else Some(stack[|stack| - 1])
      requires stack != [] ==> Edge(graph, items, stack[|stack| - 1], path)
      modifies this
      ensures old(visited) <= visited
      ensures cycle.None? ==> Valid() && stack == old(stack) && parents == old(parents) && path in sorted
      ensures cycle.None? ==> Elements(old(sorted)) <= Elements(sorted)
      ensures cycle.Some? ==> Edge(graph, items, cycle.value.1, cycle.value.0)
      ensures cycle.Some? ==> exists s :: IsCycle(graph, items, s)
      decreases |items - visited|, 0
    {
      if path in parents {
        ClosesCycle(graph, items, stack, path);
        return Some((path, parent.value));
      }
      if path in visited {
        assert path in Elements(sorted);
        return None;
      }
      Enter(path);
      cycle := VisitReferences(path);
      if cycle.Some? { return; }
      Leave(path);
      assert path in Elements(sorted);
    }

    /** `visited.insert(path)`, `parents.insert(path)`. */
    method Enter(path: T)
      requires Valid() && path in items && path !in visited
      requires stack != [] ==> Edge(graph, items, stack[|stack| - 1], path)
      modifies this
      ensures Valid() && sorted == old(sorted)
      ensures visited == old(visited) + {path} && parents == old(parents) + {path} && stack == old(stack) + [path]
      ensures |items - visited| < |items - old(visited)|
    {
      Shrinks(items, visited, visited + {path}, path);
      EnterKeeps(graph, items, sorted, visited, parents, stack, path);
      visited := visited + {path};
      parents := parents + {path};
      stack := stack + [path];
    }

    /** `sorted.push_back(path)`, `parents.erase(path)`. */
    method Leave(path: T)
      requires Valid() && path in items
      requires stack != [] && stack[|stack| - 1] == path && path !in stack[..|stack| - 1]
      requires forall y | Edge(graph, items, path, y) :: y in sorted
      modifies this
      ensures Valid() && sorted == old(sorted) + [path] && visited == old(visited)
      ensures stack == old(stack)[..|old(stack)| - 1] && parents == old(parents) - {path}
    {
      LeaveKeeps(graph, items, sorted, visited, parents, stack, path);
      sorted := sorted + [path];
      parents := parents - {path};
      stack := stack[..|stack| - 1];
    }

    /** The loop of `dfsVisit` over the references of `path`. */
    method VisitReferences(path: T) returns (cycle: Option<(T, T)>)
      requires Valid() && path in items
      requires stack != [] && stack[|stack| - 1] == path
      modifies this
      ensures old(visited) <= visited
      ensures cycle.None? ==> Valid() && stack == old(stack) && parents == old(parents)
      ensures cycle.None? ==> forall y | Edge(graph, items, path, y) :: y in sorted
      ensures cycle.None? ==> Elements(old(sorted)) <= Elements(sorted)
      ensures cycle.Some? ==> Edge(graph, items, cycle.value.1, cycle.value.0)
      ensures cycle.Some? ==> exists s :: IsCycle(graph, items, s)
      decreases |items - visited|, 1
    {
      cycle := None;
      var todo := Children(graph, path);
      while todo != {}
        invariant Valid() && stack == old(stack) && parents == old(parents)
        invariant old(visited) <= visited && Elements(old(sorted)) <= Elements(sorted)
        invariant todo <= Children(graph, path)
        invariant forall y | Edge(graph, items, path, y) && y !in todo :: y in Elements(sorted)
        invariant cycle.None?
        decreases todo
      {
        var i :| i in todo;
        todo := todo - {i};
        if i != path && i in items {
          RestShrinks(items, old(visited), visited);
          cycle := DfsVisit(i, Some(path));
          if cycle.Some? { return; }
        }
      }
    }
  }

  /** Items are pushed after everything they refer to. */
  ghost predicate PostOrder<T(!new)>(g: Graph<T>, items: set<T>, s: seq<T>) {
    forall i, y | 0 <= i < |s| && Edge(g, items, s[i], y) :: y in s[..i]
  }

  /** The invariant of the search: finished items are in post-order, and the
      items in progress form a path. */
  ghost predicate Consistent<T(!new)>(g: Graph<T>, items: set<T>, sorted: seq<T>, visited: set<T>,
          parents: set<T>, stack: seq<T>) {
    && visited <= items
    && Distinct(sorted) && PostOrder(g, items, sorted)
    && Elements(sorted) == visited - parents
    && Elements(stack) == parents && parents <= visited
    && Chain(g, items, stack)
  }

  lemma EnterKeeps<T(!new)>(g: Graph<T>, items: set<T>, sorted: seq<T>, visited: set<T>, parents: set<T>,
          stack: seq<T>, path: T)
    requires Consistent(g, items, sorted, visited, parents, stack)
    requires path in items && path !in visited
    requires stack != [] ==> Edge(g, items, stack[|stack| - 1], path)
    ensures Consistent(g, items, sorted, visited + {path}, parents + {path}, stack + [path])
  {
    ElementsSnoc(stack, path);
    ChainSnoc(g, items, stack, path);
    hide Distinct, PostOrder, Chain, Elements;
  }

  lemma LeaveKeeps<T(!new)>(g: Graph<T>, items: set<T>, sorted: seq<T>, visited: set<T>, parents: set<T>,
          stack: seq<T>, path: T)
    requires Consistent(g, items, sorted, visited, parents, stack)
    requires path in items
    requires stack != [] && stack[|stack| - 1] == path && path !in stack[..|stack| - 1]
    requires forall y | Edge(g, items, path, y) :: y in sorted
    ensures Consistent(g, items, sorted + [path], visited, parents - {path}, stack[..|stack| - 1])
  {
    var front := stack[..|stack| - 1];
    assert stack == front + [path];
    ElementsSnoc(front, path);
    assert Chain(g, items, front);
    assert path !in Elements(front) && path !in Elements(sorted);
    PostOrderSnoc(g, items, sorted, path);
    ElementsSnoc(sorted, path);
    hide Distinct, PostOrder, Chain, Elements;
  }

  lemma PostOrderSnoc<T(!new)>(g: Graph<T>, items: set<T>, front: seq<T>, path: T)
    requires PostOrder(g, items, front)
    requires forall y | Edge(g, items, path, y) :: y in front
    ensures PostOrder(g, items, front + [path])
  {
    var s := front + [path];
    forall i, y | 0 <= i < |s| && Edge(g, items, s[i], y)
      ensures y in s[..i]
    {
      assert s[..i] == front[..i];
    }
  }

  lemma ChainSnoc<T>(g: Graph<T>, items: set<T>, s: seq<T>, x: T)
    requires Chain(g, items, s) && (s != [] ==> Edge(g, items, s[|s| - 1], x))
    ensures Chain(g, items, s + [x])
  {
  }

  lemma RestShrinks<T>(items: set<T>, v: set<T>, v': set<T>)
    requires v <= v'
    ensures |items - v'| <= |items - v|
  {
    SubsetSize(items - v', items - v);
  }

  lemma ClosesCycle<T(!new)>(g: Graph<T>, items: set<T>, stack: seq<T>, path: T)
    requires path in Elements(stack) && Chain(g, items, stack)
    requires stack != [] && Edge(g, items, stack[|stack| - 1], path)
    ensures exists s :: IsCycle(g, items, s)
  {
    var i :| 0 <= i < |stack| && stack[i] == path;
    var s := stack[i..] + [path];
    forall k | 0 <= k < |s| - 1 ensures Edge(g, items, s[k], s[k + 1]) {
      assert s[k] == stack[i + k];
      if k < |s| - 2 { assert s[k + 1] == stack[i + k + 1]; }
    }
    assert IsCycle(g, items, s);
  }

  function Reverse<T>(s: seq<T>): (r: seq<T>)
    ensures |r| == |s|
    ensures forall i | 0 <= i < |s| :: r[i] == s[|s| - 1 - i]
  {
    seq(|s|, i requires 0 <= i < |s| => s[|s| - 1 - i])
  }

  method Sort<T(==, !new)>(items: set<T>, graph: Graph<T>) returns (r: Outcome<T>)
    ensures r.Sorted? <==> Acyclic(graph, items)
    ensures r.Sorted? ==> Topological(graph, items, r.order)
    ensures r.Cycle? ==> Edge(graph, items, r.parent, r.path)
  {
    var sorter := new Sorter(items, graph);
    var todo := items;
    while todo != {}
      invariant sorter.Valid() && sorter.items == items && sorter.graph == graph
      invariant sorter.stack == [] && sorter.parents == {}
      invariant todo <= items && items - todo <= sorter.visited
      decreases todo
    {
      var i :| i in todo;
      todo := todo - {i};
      var cycle := sorter.DfsVisit(i, None);
      if cycle.Some? {
        return Cycle(cycle.value.0, cycle.value.1);
      }
      assert i in Elements(sorter.sorted);
    }
    ReversedIsTopological(graph, items, sorter.sorted);
    TopologicalIsAcyclic(graph, items, Reverse(sorter.sorted));
    return Sorted(Reverse(sorter.sorted));
  }

  lemma ReversedIsTopological<T(!new)>(g: Graph<T>, items: set<T>, s: seq<T>)
    requires Distinct(s) && Elements(s) == items && PostOrder(g, items, s)
    ensures Topological(g, items, Reverse(s))
  {
    var r := Reverse(s);
    forall x ensures x in r <==> x in s {
      if x in s { var i :| 0 <= i < |s| && s[i] == x; assert r[|s| - 1 - i] == x; }
    }
    forall i, j | 0 <= i < |r| && 0 <= j < |r| && Edge(g, items, r[i], r[j])
      ensures i < j
    {
      var a, b := |s| - 1 - i, |s| - 1 - j;
      assert s[a] == r[i] && s[b] == r[j];
      var k :| 0 <= k < a && s[k] == s[b];
    }
  }

  /** A topological order rules out every cycle. */
  lemma TopologicalIsAcyclic<T(!new)>(g: Graph<T>, items: set<T>, s: seq<T>)
    requires Topological(g, items, s)
    ensures Acyclic(g, items)
  {
    forall c: seq<T> ensures !IsCycle(g, items, c) {
      if IsCycle(g, items, c) {
        ChainClimbs(g, items, s, c, |c| - 1);
      }
    }
  }

  lemma {:induction false} ChainClimbs<T>(g: Graph<T>, items: set<T>, s: seq<T>, c: seq<T>, n: nat)
    requires Topological(g, items, s) && Chain(g, items, c)
    requires 0 < n < |c|
    ensures forall i, j | 0 <= i < |s| && 0 <= j < |s| && s[i] == c[0] && s[j] == c[n] :: i < j
    ensures c[0] in s && c[n] in s
    decreases n
  {
    assert Edge(g, items, c[n - 1], c[n]);
    assert c[n - 1] in Elements(s) && c[n] in Elements(s);
    if n > 1 {
      ChainClimbs(g, items, s, c, n - 1);
    }
  }
}
