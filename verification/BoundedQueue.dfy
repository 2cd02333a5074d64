/** The producer/worker pair of `AsyncFileHasher` and `AsyncHashSink`
    (src/libstore/local-store.cc): a bounded queue, a worker that drains it one
    item at a time and keeps draining after a failure, and a `finish()` that
    closes, joins and rethrows. Steps are the critical sections under the mutex
    and the work done outside it. */
module BoundedQueue {
  const MAX_QUEUED: nat := 64

  datatype Worker<E> = Waiting | Busy(item: E) | Exited

  /** `todo` is what the producer has still to push, `done` what the worker has
      finished with. */
  datatype State<E, H> = State(
    todo: seq<E>, queue: seq<E>, worker: Worker<E>, done: seq<E>,
    closed: bool, failed: bool, joined: bool, result: H)

  function Fold<E, H>(apply: (H, E) -> H, h: H, items: seq<E>): H {
    if items == [] then h else apply(Fold(apply, h, items[..|items| - 1]), items[|items| - 1])
  }

  ghost predicate Init<E, H>(all: seq<E>, h: H, s: State<E, H>) {
    s == State(all, [], Waiting, [], false, false, false, h)
  }

  /** `push`: waits until the queue has room. */
  ghost predicate Push<E(!new), H(!new)>(s: State<E, H>, s': State<E, H>) {
    && s.todo != [] && |s.queue| < MAX_QUEUED
    && s' == s.(todo := s.todo[1..], queue := s.queue + [s.todo[0]])
  }

  /** The first half of `close`. */
  ghost predicate Close<E(!new), H(!new)>(s: State<E, H>, s': State<E, H>) {
    s.todo == [] && !s.closed && s' == s.(closed := true)
  }

  ghost predicate Pop<E(!new), H(!new)>(s: State<E, H>, s': State<E, H>) {
    && s.worker.Waiting? && s.queue != []
    && s' == s.(queue := s.queue[1..], worker := Busy(s.queue[0]))
  }

  /** Outside the lock; an exception leaves an arbitrary half-done result. */
  ghost predicate Work<E(!new), H(!new)>(apply: (H, E) -> H, s: State<E, H>, s': State<E, H>) {
    && s.worker.Busy?
    && var after := s.(worker := Waiting, done := s.done + [s.worker.item]);
       || (s.failed && s' == after)
       || (!s.failed && s' == after.(result := apply(s.result, s.worker.item)))
       || (!s.failed && s' == after.(failed := true, result := s'.result))
  }

  ghost predicate Exit<E(!new), H(!new)>(s: State<E, H>, s': State<E, H>) {
    s.worker.Waiting? && s.queue == [] && s.closed && s' == s.(worker := Exited)
  }

  /** The second half of `close`. */
  ghost predicate Join<E(!new), H(!new)>(s: State<E, H>, s': State<E, H>) {
    s.closed && s.worker.Exited? && !s.joined && s' == s.(joined := true)
  }

  ghost predicate Next<E(!new), H(!new)>(apply: (H, E) -> H, s: State<E, H>, s': State<E, H>) {
    Push(s, s') || Close(s, s') || Pop(s, s') || Work(apply, s, s') || Exit(s, s') || Join(s, s')
  }

  /** A run: any sequence of steps from the initial state. */
  ghost predicate Run<E(!new), H(!new)>(apply: (H, E) -> H, all: seq<E>, h: H, run: seq<State<E, H>>) {
    && run != []
    && if |run| == 1 then Init(all, h, run[0])
       else Run(apply, all, h, run[..|run| - 1]) && Next(apply, run[|run| - 2], run[|run| - 1])
  }

  function InHand<E>(w: Worker<E>): seq<E> {
    if w.Busy? then [w.item] else []
  }

  ghost predicate Inv<E, H>(apply: (H, E) -> H, all: seq<E>, h: H, s: State<E, H>) {
    && |s.queue| <= MAX_QUEUED
    && s.done + InHand(s.worker) + s.queue + s.todo == all
    && (!s.failed ==> s.result == Fold(apply, h, s.done))
    && (s.closed ==> s.todo == [])
    && (s.worker.Exited? ==> s.closed && s.queue == [])
    && (s.joined ==> s.worker.Exited?)
  }

  lemma InvPush<E(!new), H(!new)>(apply: (H, E) -> H, all: seq<E>, h: H, s: State<E, H>, s': State<E, H>)
    requires Inv(apply, all, h, s) && Push(s, s')
    ensures Inv(apply, all, h, s')
  {
    var front := s.done + InHand(s.worker);
    assert s.todo == [s.todo[0]] + s.todo[1..];
    assert front + s.queue + s.todo == front + (s.queue + [s.todo[0]]) + s.todo[1..];
  }

  lemma InvPop<E(!new), H(!new)>(apply: (H, E) -> H, all: seq<E>, h: H, s: State<E, H>, s': State<E, H>)
    requires Inv(apply, all, h, s) && Pop(s, s')
    ensures Inv(apply, all, h, s')
  {
    assert s.queue == [s.queue[0]] + s.queue[1..];
    assert s.done + [] + s.queue == s.done + [s.queue[0]] + s.queue[1..];
  }

  lemma InvWork<E(!new), H(!new)>(apply: (H, E) -> H, all: seq<E>, h: H, s: State<E, H>, s': State<E, H>)
    requires Inv(apply, all, h, s) && Work(apply, s, s')
    ensures Inv(apply, all, h, s')
  {
    var done' := s.done + [s.worker.item];
    assert done' + [] == done';
    assert done'[..|s.done|] == s.done && done'[|s.done|] == s.worker.item;
  }

  lemma InvStep<E(!new), H(!new)>(apply: (H, E) -> H, all: seq<E>, h: H, s: State<E, H>, s': State<E, H>)
    requires Inv(apply, all, h, s) && Next(apply, s, s')
    ensures Inv(apply, all, h, s')
  {
    if Push(s, s') {
      InvPush(apply, all, h, s, s');
    } else if Pop(s, s') {
      InvPop(apply, all, h, s, s');
    } else if Work(apply, s, s') {
      InvWork(apply, all, h, s, s');
    }
  }

  lemma {:induction false} InvRun<E(!new), H(!new)>(apply: (H, E) -> H, all: seq<E>, h: H, run: seq<State<E, H>>)
    requires Run(apply, all, h, run)
    ensures Inv(apply, all, h, run[|run| - 1])
    decreases |run|
  {
    if |run| > 1 {
      InvRun(apply, all, h, run[..|run| - 1]);
      InvStep(apply, all, h, run[|run| - 2], run[|run| - 1]);
    }
  }

  /** Whatever the interleaving: when `finish()` returns without rethrowing, the
      worker has applied every item once and in order. */
  lemma FinishedInOrder<E(!new), H(!new)>(apply: (H, E) -> H, all: seq<E>, h: H, run: seq<State<E, H>>)
    requires Run(apply, all, h, run)
    ensures var s := run[|run| - 1];
      s.joined && !s.failed ==> s.done == all && s.result == Fold(apply, h, all)
  {
    InvRun(apply, all, h, run);
    var s := run[|run| - 1];
    assert s.done + [] + [] + [] == s.done;
  }

  /** No deadlock, also after a failure: until it is joined, some step is enabled;
      and a producer that finds the queue full has a worker that can move. */
  lemma NeverStuck<E(!new), H(!new)>(apply: (H, E) -> H, all: seq<E>, h: H, run: seq<State<E,
          H>>) returns (s': State<E, H>)
    requires Run(apply, all, h, run) && !run[|run| - 1].joined
    ensures Next(apply, run[|run| - 1], s')
    ensures |run[|run| - 1].queue| == MAX_QUEUED ==> Pop(run[|run| - 1], s') || Work(apply, run[|run| - 1], s')
  {
    InvRun(apply, all, h, run);
    var s := run[|run| - 1];
    if s.worker.Busy? {
      var after := s.(worker := Waiting, done := s.done + [s.worker.item]);
      s' := if s.failed then after else after.(result := apply(s.result, s.worker.item));
    } else if s.queue != [] {
      s' := s.(queue := s.queue[1..], worker := Busy(s.queue[0]));
    } else if s.todo != [] {
      s' := s.(todo := s.todo[1..], queue := s.queue + [s.todo[0]]);
    } else if !s.closed {
      s' := s.(closed := true);
    } else if s.worker.Waiting? {
      s' := s.(worker := Exited);
    } else {
      s' := s.(joined := true);
    }
  }

  function Measure<E, H>(s: State<E, H>): nat {
    4 * |s.todo| + 3 * |s.queue|
      + (match s.worker case Waiting => 1 case Busy(_) => 3 case Exited => 0)
      + (if s.closed then 0 else 1) + (if s.joined then 0 else 1)
  }

  lemma StepDecreases<E(!new), H(!new)>(apply: (H, E) -> H, s: State<E, H>, s': State<E, H>)
    requires Next(apply, s, s')
    ensures Measure(s') < Measure(s)
  {
  }

  /** Every run is finite: at most `4 * |all| + 3` steps. */
  lemma {:induction false} RunsAreBounded<E(!new), H(!new)>(apply: (H, E) -> H, all: seq<E>, h: H,
          run: seq<State<E, H>>)
    requires Run(apply, all, h, run)
    ensures |run| - 1 + Measure(run[|run| - 1]) <= 4 * |all| + 3
    decreases |run|
  {
    if |run| > 1 {
      RunsAreBounded(apply, all, h, run[..|run| - 1]);
      StepDecreases(apply, run[|run| - 2], run[|run| - 1]);
    }
  }
}
