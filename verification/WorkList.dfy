/** The dynamic graph traversal of `computeClosure`
    (src/libutil/include/nix/util/closure.hh). The executor runs its handlers
    one at a time but in any order; a run is any sequence of handlers until
    none is left. */
module WorkList {
  import opened Finite
  import opened Reachability

  /** What a run can ever enqueue. */
  function Universe<T>(g: Graph<T>, start: set<T>): set<T> {
    start + set x, y | x in g && y in g[x] :: y
  }

  /** Reached from `start` without passing through an element of `given`. */
  ghost predicate Found<T(!new)>(g: Graph<T>, start: set<T>, given: set<T>, y: T) {
    ReachedFrom(Without(g, given), start - given, y)
  }

  lemma FoundStart<T(!new)>(g: Graph<T>, start: set<T>, given: set<T>, x: T)
    ensures x in start && x !in given ==> Found(g, start, given, x)
  {
    ReachesSelf(Without(g, given), x);
  }

  lemma FoundEdge<T(!new)>(g: Graph<T>, start: set<T>, given: set<T>, x: T, y: T)
    requires Found(g, start, given, x) && x !in given && x in g
    ensures y in g[x] && y !in given ==> Found(g, start, given, y)
  {
    if y in g[x] && y !in given {
      var h := Without(g, given);
      var s :| s in start - given && Reaches(h, s, x);
      ReachesStep(h, x, y);
      ReachesTransitive(h, s, x, y);
    }
  }

  /** Every unfinished element is in one place: queued in `todo`, in `spawning`
      when its `spawnWorker` is posted, or in `running` when its coroutine is
      in flight. */
  ghost predicate Located<T(!new)>(unfinished: set<T>, todo: seq<T>, spawning: set<T>, running: set<T>) {
    && Distinct(todo)
    && (forall x :: x in unfinished <==> (x in todo || x in spawning || x in running))
    && (forall x | x in todo :: x !in spawning && x !in running)
    && (forall x | x in spawning :: x !in running)
  }

  lemma Queued<T(!new)>(u: set<T>, todo: seq<T>, spawning: set<T>, running: set<T>, x: T)
    requires Located(u, todo, spawning, running) && x !in u
    ensures Located(u + {x}, todo + [x], spawning, running)
    ensures Located(u + {x}, todo, spawning, running + {x})
    ensures |u + {x}| == |u| + 1 && |running + {x}| == |running| + 1
  {
  }

  lemma Launched<T(!new)>(u: set<T>, todo: seq<T>, spawning: set<T>, running: set<T>, x: T)
    requires Located(u, todo, spawning, running) && x in spawning
    ensures Located(u, todo, spawning - {x}, running + {x})
    ensures |running + {x}| == |running| + 1
  {
  }

  lemma Finished<T(!new)>(u: set<T>, todo: seq<T>, spawning: set<T>, running: set<T>, x: T)
    requires Located(u, todo, spawning, running) && x in running
    ensures Located(u - {x}, todo, spawning, running - {x})
    ensures |u - {x}| == |u| - 1 && |running - {x}| == |running| - 1
  {
  }

  lemma Popped<T(!new)>(u: set<T>, todo: seq<T>, spawning: set<T>, running: set<T>)
    requires Located(u, todo, spawning, running) && todo != []
    ensures Located(u, todo[1..], spawning + {todo[0]}, running)
  {
    assert todo == [todo[0]] + todo[1..];
    assert todo[0] !in todo[1..];
  }

  lemma {:induction false} Dropped<T(!new)>(u: set<T>, todo: seq<T>, spawning: set<T>, running: set<T>)
    requires Located(u, todo, spawning, running)
    ensures |u| - |todo| == |spawning + running| && Located(spawning + running, [], spawning, running)
    decreases |todo|
  {
    if todo == [] {
      assert u == spawning + running;
    } else {
      assert todo == [todo[0]] + todo[1..];
      assert todo[0] !in todo[1..];
      assert |u - {todo[0]}| == |u| - 1;
      Dropped(u - {todo[0]}, todo[1..], spawning, running);
    }
  }

  /** `pending` counts exactly the unfinished elements, `inFlight` the coroutines. */
  ghost predicate Counted<T(!new)>(given: set<T>, res: set<T>, u: set<T>, todo: seq<T>, spawning: set<T>,
          running: set<T>,
                                   pending: nat, inFlight: nat)
  {
    && Located(u, todo, spawning, running)
    && pending == |u| && inFlight == |running|
    && given <= res && u <= res && u !! given
  }

  lemma EnqueueCounted<T(!new)>(given: set<T>, res: set<T>, u: set<T>, todo: seq<T>, spawning: set<T>, running: set<T>,
                                pending: nat, inFlight: nat, x: T)
    requires Counted(given, res, u, todo, spawning, running, pending, inFlight) && x !in res
    ensures Counted(given, res + {x}, u + {x}, todo + [x], spawning, running, pending + 1, inFlight)
    ensures Counted(given, res + {x}, u + {x}, todo, spawning, running + {x}, pending + 1, inFlight + 1)
  {
    Queued(u, todo, spawning, running, x);
    hide Located;
  }

  lemma LaunchCounted<T(!new)>(given: set<T>, res: set<T>, u: set<T>, todo: seq<T>, spawning: set<T>, running: set<T>,
                               pending: nat, inFlight: nat, x: T)
    requires Counted(given, res, u, todo, spawning, running, pending, inFlight) && x in spawning
    ensures Counted(given, res, u, todo, spawning - {x}, running + {x}, pending, inFlight + 1)
  {
    Launched(u, todo, spawning, running, x);
    hide Located;
  }

  lemma FinishCounted<T(!new)>(given: set<T>, res: set<T>, u: set<T>, todo: seq<T>, spawning: set<T>, running: set<T>,
                               pending: nat, inFlight: nat, x: T)
    requires Counted(given, res, u, todo, spawning, running, pending, inFlight) && x in running
    ensures pending > 0 && inFlight > 0 && x in u && x in res && x !in given
    ensures Counted(given, res, u - {x}, todo, spawning, running - {x}, pending - 1, inFlight - 1)
  {
    Finished(u, todo, spawning, running, x);
  }

  lemma PopCounted<T(!new)>(given: set<T>, res: set<T>, u: set<T>, todo: seq<T>, spawning: set<T>, running: set<T>,
                            pending: nat, inFlight: nat)
    requires Counted(given, res, u, todo, spawning, running, pending, inFlight) && todo != []
    ensures pending > 0
    ensures Counted(given, res, u, todo[1..], spawning + {todo[0]}, running, pending, inFlight)
  {
    Popped(u, todo, spawning, running);
    assert todo[0] in u;
    hide Located;
  }

  lemma DropCounted<T(!new)>(given: set<T>, res: set<T>, u: set<T>, todo: seq<T>, spawning: set<T>, running: set<T>,
                             pending: nat, inFlight: nat)
    requires Counted(given, res, u, todo, spawning, running, pending, inFlight)
    ensures pending >= |todo| && spawning + running <= u
    ensures Counted(given, res, spawning + running, [], spawning, running, pending - |todo|, inFlight)
  {
    Dropped(u, todo, spawning, running);
    assert spawning + running <= u;
    hide Located;
  }

  ghost predicate Explored<T(!new)>(g: Graph<T>, start: set<T>, given: set<T>, res: set<T>) {
    forall x | x in res && x !in given :: x in Universe(g, start) && Found(g, start, given, x)
  }

  ghost predicate Expanded<T(!new)>(g: Graph<T>, given: set<T>, res: set<T>, unfinished: set<T>) {
    forall x | x in res && x !in given && x !in unfinished :: x in g && g[x] <= res
  }

  ghost predicate SomeFails<T(!new)>(g: Graph<T>, start: set<T>, given: set<T>) {
    exists x :: Found(g, start, given, x) && x !in g
  }

  /** The fields of `State` and the handlers the executor has still to run. */
  class State<T(==, !new)> {
    /** `getEdges`: it throws on an element outside the graph. */
    const graph: Graph<T>
    const start: set<T>
    const maxConcurrent: nat
    ghost const given: set<T>
    var res: set<T>
    var pending: nat
    var inFlight: nat
    var todo: seq<T>
    var error: bool
    var completions: nat
    /** Handlers posted or waiting: the first one, `spawnWorker` calls, coroutines. */
    var started: bool
    var spawning: set<T>
    var running: set<T>
    ghost var unfinished: set<T>

    /** Everything finished has all its edges in `res`. */
    ghost predicate Sound()
      reads this
    {
      && Counted(given, res, unfinished, todo, spawning, running, pending, inFlight)
      && Explored(graph, start, given, res)
      && (error ==> SomeFails(graph, start, given))
      && (!error ==> Expanded(graph, given, res, unfinished))
      && maxConcurrent > 0
    }

    ghost predicate Valid()
      reads this
    {
      && Sound()
      && (error ==> todo == []) && (todo != [] ==> spawning + running != {})
      && (started ==> start != {} && (error || start <= res))
      && (!started ==> res == given && todo == []) && (error ==> res != given)
      && completions == if start == {} || (res != given && pending == 0) then 1 else 0
    }

    constructor (start: set<T>, res: set<T>, graph: Graph<T>, maxConcurrent: nat)
      requires maxConcurrent > 0
      ensures Valid() && !started && spawning == {} && running == {}
      ensures this.start == start && this.graph == graph && given == res
    {
      this.start, this.graph, this.given, this.maxConcurrent := start, graph, res, maxConcurrent;
      this.res, pending, inFlight, todo, error, started := res, 0, 0, [], false, false;
      spawning, running, unfinished := {}, {}, {};
      completions := if start == {} then 1 else 0;
    }

    method SpawnWorker(elt: T)
      modifies this
      ensures inFlight == old(inFlight) + 1 && running == old(running) + {elt}
      ensures unchanged(`res, `pending, `todo, `error, `started, `spawning, `completions, `unfinished)
    {
      inFlight := inFlight + 1;
      running := running + {elt};
    }

    /** `enqueue` of one element. */
    method Enqueue(elt: T)
      requires Sound()
      requires elt in Universe(graph, start) && (elt !in given ==> Found(graph, start, given, elt))
      modifies this
      ensures Sound() && old(running) <= running && old(unfinished) <= unfinished
      ensures res == if error then old(res) else old(res) + {elt}
      ensures res - unfinished == old(res - unfinished)
      ensures error || elt in old(res) ==> unchanged(this)
      ensures !error && elt !in old(res) ==>
                if old(inFlight) < maxConcurrent then
                  inFlight == old(inFlight) + 1 && todo == old(todo) && elt in running
                else inFlight == old(inFlight) && todo == old(todo) + [elt]
      ensures unchanged(`error, `spawning, `started, `completions)
    {
      hide Found, Universe, Counted, Located, SomeFails;
      if error || elt in res {
        return;
      }
      EnqueueCounted(given, res, unfinished, todo, spawning, running, pending, inFlight, elt);
      ExpandedGrows(graph, given, res, unfinished, elt);
      ExploredGrows(graph, start, given, res, elt);
      hide Explored, Expanded;
      res := res + {elt};
      pending := pending + 1;
      if inFlight < maxConcurrent {
        SpawnWorker(elt);
      } else {
        todo := todo + [elt];
      }
      unfinished := unfinished + {elt};
    }

    /** `enqueue` of a set. */
    method EnqueueAll(elts: set<T>)
      requires Sound()
      requires forall x | x in elts :: x in Universe(graph, start) && (x !in given ==> Found(graph, start, given, x))
      modifies this
      ensures Sound() && old(running) <= running
      ensures res == if error then old(res) else old(res) + elts
      ensures res - unfinished == old(res - unfinished)
      ensures todo == old(todo) || running != {}
      ensures unchanged(`error, `spawning, `started, `completions)
    {
      hide Found, Universe, Counted, Explored, Expanded, SomeFails;
      var rest := elts;
      while rest != {}
        invariant rest <= elts && Sound() && old(running) <= running
        invariant res == if error then old(res) else old(res) + (elts - rest)
        invariant res - unfinished == old(res - unfinished)
        invariant todo == old(todo) || running != {}
        invariant unchanged(`error, `spawning, `started, `completions)
        decreases rest
      {
        var elt :| elt in rest;
        rest := rest - {elt};
        ghost var before := todo;
        Enqueue(elt);
        if todo != before { RunningNonEmpty(); }
      }
    }

    lemma RunningNonEmpty()
      requires Sound() && inFlight >= maxConcurrent
      ensures running != {}
    {
    }

    method Fail()
      modifies this
      ensures error
      ensures unchanged(`res, `pending, `inFlight, `todo, `started, `spawning, `running, `completions, `unfinished)
    {
      if !error {
        error := true;
      }
    }

    method Complete()
      modifies this`completions
      ensures completions == old(completions) + 1
    {
      completions := completions + 1;
    }

    method OnWorkDone(elt: T)
      requires Sound() && started && start != {} && completions == 0 && elt in running
      requires error || (elt in graph && graph[elt] <= res && start <= res)
      modifies this
      ensures Valid() && unchanged(`error, `res, `started)
      ensures old(unfinished) > unfinished && elt !in unfinished
    {
      hide Found, Universe, Explored, SomeFails, Located, Counted;
      FinishCounted(given, res, unfinished, todo, spawning, running, pending, inFlight, elt);
      ExpandedFinish(graph, given, res, unfinished, elt);
      hide Expanded;
      inFlight := inFlight - 1;
      pending := pending - 1;
      unfinished, running := unfinished - {elt}, running - {elt};
      if todo != [] && !error {
        PopCounted(given, res, unfinished, todo, spawning, running, pending, inFlight);
        var next := todo[0];
        todo := todo[1..];
        spawning := spawning + {next};
      } else {
        if error {
          DropCounted(given, res, unfinished, todo, spawning, running, pending, inFlight);
          pending := pending - |todo|;
          todo := [];
          unfinished := spawning + running;
        }
        if pending == 0 {
          Complete();
        }
      }
    }

    /** The coroutine of `elt` goes on once its edges have arrived. */
    method Resume(elt: T)
      requires Valid() && elt in running
      modifies this
      ensures Valid() && started
      ensures old(res - unfinished) <= res - unfinished
      ensures elt in res - unfinished && elt !in old(res - unfinished) && elt in Universe(graph, start)
    {
      hide Found, Universe, SomeFails;
      assert elt in unfinished && elt in res && elt !in given;
      assert elt in Universe(graph, start) && started;
      hide Expanded, Located;
      if elt in graph {
        EdgesFound(elt);
        hide Explored;
        EnqueueAll(graph[elt]);
      } else {
        Failing(graph, start, given, elt);
        Fail();
      }
      OnWorkDone(elt);
    }

    /** A posted `spawnWorker` runs. */
    method Launch(elt: T)
      requires Valid() && elt in spawning
      modifies this
      ensures Valid() && spawning == old(spawning) - {elt}
      ensures unchanged(`res, `unfinished, `started)
    {
      hide Found, Universe, SomeFails, Explored, Expanded, Located;
      LaunchCounted(given, res, unfinished, todo, spawning, running, pending, inFlight, elt);
      spawning := spawning - {elt};
      SpawnWorker(elt);
    }

    /** The first handler: enqueues the start elements. */
    method Start()
      requires Valid() && !started && start != {}
      modifies this
      ensures Valid() && started
    {
      hide Found, SomeFails, Explored, Expanded, Located;
      forall x | x in start ensures x !in given ==> Found(graph, start, given, x) {
        FoundStart(graph, start, given, x);
      }
      assert start <= Universe(graph, start);
      assert unfinished == {} by { NothingUnfinished(); }
      hide Universe;
      started := true;
      EnqueueAll(start);
      assert given - {} == given;
      assert unfinished == {} ==> res - unfinished == res;
    }

    lemma NothingUnfinished()
      requires Counted(given, res, unfinished, todo, spawning, running, pending, inFlight) && res == given
      ensures unfinished == {} && spawning == {} && running == {}
    {
    }

    lemma EdgesFound(elt: T)
      requires Sound() && elt in graph && elt in res && elt !in given
      ensures forall y | y in graph[elt] ::
                y in Universe(graph, start) && (y !in given ==> Found(graph, start, given, y))
    {
      forall y | y in graph[elt] ensures y !in given ==> Found(graph, start, given, y) {
        FoundEdge(graph, start, given, elt, y);
      }
    }
  }

  lemma Failing<T(!new)>(g: Graph<T>, start: set<T>, given: set<T>, x: T)
    requires Found(g, start, given, x) && x !in g
    ensures SomeFails(g, start, given)
  {
  }

  lemma ExpandedFinish<T(!new)>(g: Graph<T>, given: set<T>, res: set<T>, unfinished: set<T>, x: T)
    ensures Expanded(g, given, res, unfinished) && x in g && g[x] <= res ==> Expanded(g, given, res, unfinished - {x})
  {
  }

  lemma ExpandedGrows<T(!new)>(g: Graph<T>, given: set<T>, res: set<T>, unfinished: set<T>, x: T)
    requires Expanded(g, given, res, unfinished)
    ensures Expanded(g, given, res + {x}, unfinished + {x})
  {
  }

  lemma ExploredGrows<T(!new)>(g: Graph<T>, start: set<T>, given: set<T>, res: set<T>, x: T)
    requires Explored(g, start, given, res)
    requires x in Universe(g, start) && (x !in given ==> Found(g, start, given, x))
    ensures Explored(g, start, given, res + {x})
  {
    hide Found, Universe;
  }

  /** Once no handler is left, `res` holds exactly what the search finds,
      unless some query failed. */
  lemma ExploredAll<T(!new)>(g: Graph<T>, start: set<T>, given: set<T>, res: set<T>)
    requires given <= res && start <= res && Explored(g, start, given, res) && Expanded(g, given, res, {})
    ensures forall x :: x in res <==> x in given || Found(g, start, given, x)
    ensures !SomeFails(g, start, given)
  {
    var h := Without(g, given);
    forall x | Found(g, start, given, x) ensures x in res && x in g {
      var s :| s in start - given && Reaches(h, s, x);
      assert Closed(h, res - given);
      ClosedKeeps(h, res - given, s, x);
    }
  }

  lemma FoundFromClosed<T(!new)>(g: Graph<T>, start: set<T>, given: set<T>)
    ensures Closed(g, given) ==>
              forall x :: (x in given || Found(g, start, given, x)) <==> (x in given || ReachedFrom(g, start, x))
  {
    if Closed(g, given) {
      forall x ensures (x in given || Found(g, start, given, x)) <==> (x in given || ReachedFrom(g, start, x)) {
        AvoidingClosed(g, given, start, x);
      }
    }
  }

  lemma Ended<T(!new)>(s: State<T>)
    requires s.Valid() && s.spawning == {} && s.running == {} && (s.started || s.start == {})
    ensures s.error <==> SomeFails(s.graph, s.start, s.given)
    ensures !s.error ==> forall x :: x in s.res <==> x in s.given || Found(s.graph, s.start, s.given, x)
    ensures s.res == s.given <==> s.start <= s.given
    ensures s.pending == 0
  {
    assert s.unfinished == {};
    if !s.error {
      ExploredAll(s.graph, s.start, s.given, s.res);
    }
  }

  /** A run of the executor under any schedule. The completion handler is
      called exactly when there is nothing to start with or something new to
      start with; never twice. A query fails on some schedule exactly when one
      fails on every schedule. */
  method Run<T(==, !new)>(start: set<T>, given: set<T>, graph: Graph<T>, maxConcurrent: nat)
      returns (res: set<T>, error: bool, completions: nat)
    requires maxConcurrent > 0
    ensures completions == if start == {} || !(start <= given) then 1 else 0
    ensures error <==> SomeFails(graph, start, given)
    ensures !error ==> forall x :: x in res <==> x in given || Found(graph, start, given, x)
    ensures !error && Closed(graph, given) ==> forall x :: x in res <==> x in given || ReachedFrom(graph, start, x)
  {
    hide Found, Universe, SomeFails, Explored, Expanded, Located, ReachedFrom, Closed;
    var state := new State(start, given, graph, maxConcurrent);
    if start != {} {
      state.Start();
      while state.spawning != {} || state.running != {}
        invariant state.Valid() && state.started
        invariant state.start == start && state.given == given && state.graph == graph
        decreases |Universe(graph, start) - (state.res - state.unfinished)|, |state.spawning|
      {
        if
        case state.spawning != {} =>
          var elt :| elt in state.spawning;
          state.Launch(elt);
        case state.running != {} =>
          var elt :| elt in state.running;
          ghost var u, done := Universe(graph, start), state.res - state.unfinished;
          state.Resume(elt);
          Shrinks(u, done, state.res - state.unfinished, elt);
      }
    }
    Ended(state);
    FoundFromClosed(graph, start, given);
    res, error, completions := state.res, state.error, state.completions;
  }
}
