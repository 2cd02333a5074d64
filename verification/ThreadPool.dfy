/** The thread pool (src/libutil/thread-pool.cc) when no work item throws: the
    steps of the caller, thread 0, and of the workers between two releases of
    the lock. */
module ThreadPool {
  import opened Bytes
  import opened Runs
  import opened Finite

  /** Where a thread is. `AtTop` is about to take the lock at the top of the loop
      of `doWork`; `Waiting` sleeps until it is notified or wakes spuriously. */
  datatype Phase = Outside | AtTop(didWork: bool) | Waiting | Notified | Running(item: nat) | Exited {
    /** Counted in `active`. */
    predicate Busy() {
      Running? || (AtTop? && didWork)
    }
  }

  datatype State =
    State(maxThreads: nat, threads: map<nat, Phase>, pending: seq<nat>, active: nat, draining: bool, quit: bool,
          enqueued: set<nat>, ran: seq<nat>)

  datatype Label =
    Enqueue(t: nat, item: nat, woken: Option<nat>) | Process | Lock(t: nat) | Finish(t: nat) | Wake(t: nat)

  function Workers(s: State): int {
    |s.threads| - 1
  }

  function NotifyAll(threads: map<nat, Phase>): map<nat, Phase> {
    map t | t in threads :: if threads[t].Waiting? then Notified else threads[t]
  }

  /** `notify_one`: one sleeping thread, if there is one. */
  predicate NotifyOne(threads: map<nat, Phase>, woken: Option<nat>) {
    match woken
    case None => forall t | t in threads :: !threads[t].Waiting?
    case Some(w) => w in threads && threads[w].Waiting?
  }

  /** `enqueue`, by the caller before `process` or by a running item. The new
      thread, if any, gets the next number. */
  function DoEnqueue(s: State, item: nat, woken: Option<nat>): State {
    var s1 := s.(pending := s.pending + [item], enqueued := s.enqueued + {item});
    var s2 := if |s1.pending| > Workers(s1) + 1 && Workers(s1) + 1 < s1.maxThreads
              then s1.(threads := s1.threads[|s1.threads| := AtTop(false)]) else s1;
    if woken.Some? then s2.(threads := s2.threads[woken.value := Notified]) else s2
  }

  function Taken(s: State, t: nat): State
    requires s.pending != []
  {
    s.(threads := s.threads[t := Running(s.pending[0])], pending := s.pending[1..], active := s.active + 1)
  }

  /** The inner loop of `doWork` under the lock, up to its release. */
  function Inner(s: State, t: nat): State {
    if s.quit then s.(threads := s.threads[t := Exited])
    else if s.pending != [] then Taken(s, t)
    else if s.active == 0 && s.draining then
      s.(quit := true, threads := NotifyAll(s.threads)[t := Exited])
    else s.(threads := s.threads[t := Waiting])
  }

  /** The top of the loop: a thread that did work is no longer active. */
  function Resumed(s: State, t: nat): State
    requires t in s.threads && s.threads[t].AtTop? && (s.threads[t].didWork ==> s.active > 0)
  {
    if s.threads[t].didWork then s.(active := s.active - 1, threads := s.threads[t := AtTop(false)]) else s
  }

  function Do(s: State, l: Label): Option<State> {
    match l
    case Enqueue(t, item, woken) =>
      if t in s.threads && (s.threads[t].Outside? || s.threads[t].Running?)
         && !s.quit && item !in s.enqueued && NotifyOne(s.threads, woken) then
        Some(DoEnqueue(s, item, woken))
      else None
    case Process =>
      if 0 in s.threads && s.threads[0].Outside? then
        Some(s.(draining := true, threads := s.threads[0 := AtTop(false)]))
      else None
    case Lock(t) =>
      if t in s.threads && s.threads[t].AtTop? && (s.threads[t].didWork ==> s.active > 0) then
        Some(Inner(Resumed(s, t), t))
      else if t in s.threads && s.threads[t].Notified? then Some(Inner(s, t))
      else None
    case Finish(t) =>
      if t in s.threads && s.threads[t].Running? then
        Some(s.(threads := s.threads[t := AtTop(true)], ran := s.ran + [s.threads[t].item]))
      else None
    case Wake(t) =>
      if t in s.threads && s.threads[t].Waiting? then Some(s.(threads := s.threads[t := Notified])) else None
  }

  ghost predicate Init(s: State) {
    && s.maxThreads > 0 && s.threads == map[0 := Outside] && s.pending == [] && s.active == 0
    && !s.draining && !s.quit && s.enqueued == {} && s.ran == []
  }

  // ---------------------------------------------------------------------
  // The invariant.

  function BusyThreads(threads: map<nat, Phase>): set<nat> {
    set t | t in threads && threads[t].Busy()
  }

  /** Every item is in one place: queued, being run by one thread, or done. */
  ghost predicate ItemsOk(s: State) {
    && Distinct(s.pending) && Distinct(s.ran)
    && (forall i | i in s.pending :: i !in s.ran)
    && (forall t | t in s.threads && s.threads[t].Running? ::
          s.threads[t].item !in s.pending && s.threads[t].item !in s.ran)
    && (forall t, u | t in s.threads && u in s.threads && s.threads[t].Running? && s.threads[t] == s.threads[u] ::
          t == u)
    && (forall i :: i in s.enqueued <==> i in s.pending || i in s.ran || BeingRun(s.threads, i))
  }

  ghost predicate BeingRun(threads: map<nat, Phase>, i: nat) {
    exists t :: t in threads && threads[t] == Running(i)
  }

  ghost predicate ThreadsOk(s: State) {
    && (forall t: nat :: t in s.threads <==> t < |s.threads|)
    && 0 < |s.threads| <= s.maxThreads
    && (forall t | t in s.threads && s.threads[t].Outside? :: t == 0)
    && (0 in s.threads && s.threads[0].Outside? ==> !s.draining)
    && s.active == |BusyThreads(s.threads)|
  }

  ghost predicate Inv(s: State) {
    ItemsOk(s) && ThreadsOk(s) && Orderly(s)
  }

  /** A thread that needs no notification to go on. */
  predicate Able(p: Phase) {
    p.AtTop? || p.Notified? || p.Running?
  }

  /** What is being run does not change with the phases of other threads. */
  lemma StillRun(a: map<nat, Phase>, b: map<nat, Phase>)
    requires forall t | t in a && a[t].Running? :: t in b && b[t] == a[t]
    requires forall t | t in b && b[t].Running? :: t in a && b[t] == a[t]
    ensures forall i :: BeingRun(a, i) <==> BeingRun(b, i)
  {
    forall i ensures BeingRun(a, i) <==> BeingRun(b, i) {
      if BeingRun(a, i) { var t :| t in a && a[t] == Running(i); assert b[t] == Running(i); }
      if BeingRun(b, i) { var t :| t in b && b[t] == Running(i); assert a[t] == Running(i); }
    }
  }

  lemma PushKeepsItems(s: State, item: nat)
    requires ItemsOk(s) && item !in s.enqueued
    ensures ItemsOk(s.(pending := s.pending + [item], enqueued := s.enqueued + {item}))
  {
    ElementsSnoc(s.pending, item);
    assert forall i :: i in s.pending + [item] <==> i in s.pending || i == item;
    assert forall t | t in s.threads && s.threads[t].Running? :: BeingRun(s.threads, s.threads[t].item);
    hide BeingRun;
  }

  lemma FinishKeepsItems(s: State, l: Label)
    requires ItemsOk(s) && l.Finish? && Do(s, l).Some?
    ensures ItemsOk(Do(s, l).value)
  {
    var t, item := Do(s, l).value, s.threads[l.t].item;
    ElementsSnoc(s.ran, item);
    assert BeingRun(s.threads, item);
    forall i ensures i in t.enqueued <==> i in t.pending || i in t.ran || BeingRun(t.threads, i) {
      if BeingRun(s.threads, i) && i != item {
        var u :| u in s.threads && s.threads[u] == Running(i);
        assert t.threads[u] == Running(i);
      }
    }
    hide BeingRun;
  }

  /** Taking an item off the queue. */
  lemma TakeKeepsItems(s: State, t: nat)
    requires ItemsOk(s) && t in s.threads && !s.threads[t].Running? && s.pending != []
    ensures ItemsOk(Taken(s, t))
  {
    var u := Taken(s, t);
    ElementsTail(s.pending);
    assert s.pending == [s.pending[0]] + s.pending[1..];
    assert u.threads[t] == Running(s.pending[0]);
    forall i ensures BeingRun(u.threads, i) <==> BeingRun(s.threads, i) || i == s.pending[0] {
      if BeingRun(s.threads, i) {
        var v :| v in s.threads && s.threads[v] == Running(i);
        assert u.threads[v] == Running(i);
      }
      if BeingRun(u.threads, i) {
        var v :| v in u.threads && u.threads[v] == Running(i);
        assert v != t ==> s.threads[v] == Running(i);
      }
    }
    hide BeingRun;
  }

  /** Changing phases other than `Running` keeps every item in its place. */
  lemma PhasesKeepItems(s: State, u: State)
    requires ItemsOk(s) && u.pending == s.pending && u.ran == s.ran && u.enqueued == s.enqueued
    requires forall t | t in s.threads && s.threads[t].Running? :: t in u.threads && u.threads[t] == s.threads[t]
    requires forall t | t in u.threads && u.threads[t].Running? :: t in s.threads && u.threads[t] == s.threads[t]
    ensures ItemsOk(u)
  {
    StillRun(s.threads, u.threads);
    hide BeingRun;
  }

  lemma EnqueueKeepsItems(s: State, l: Label)
    requires ItemsOk(s) && ThreadsOk(s) && l.Enqueue? && Do(s, l).Some?
    ensures ItemsOk(Do(s, l).value)
  {
    hide ItemsOk, BusyThreads;
    PushKeepsItems(s, l.item);
    PhasesKeepItems(s.(pending := s.pending + [l.item], enqueued := s.enqueued + {l.item}), Do(s, l).value);
  }

  lemma LockKeepsItems(s: State, l: Label)
    requires ItemsOk(s) && l.Lock? && Do(s, l).Some?
    ensures ItemsOk(Do(s, l).value)
  {
    hide ItemsOk;
    var v := if s.threads[l.t].AtTop? then Resumed(s, l.t) else s;
    PhasesKeepItems(s, v);
    if !v.quit && v.pending != [] {
      TakeKeepsItems(v, l.t);
    } else {
      PhasesKeepItems(v, Do(s, l).value);
    }
  }

  lemma ItemsKept(s: State, l: Label)
    requires ItemsOk(s) && ThreadsOk(s) && Do(s, l).Some?
    ensures ItemsOk(Do(s, l).value)
  {
    match l {
      case Enqueue(_, _, _) => EnqueueKeepsItems(s, l);
      case Process =>
        hide ItemsOk, ThreadsOk;
        PhasesKeepItems(s, Do(s, l).value);
      case Finish(_) => FinishKeepsItems(s, l);
      case Lock(_) => LockKeepsItems(s, l);
      case Wake(_) =>
        hide ItemsOk, ThreadsOk;
        PhasesKeepItems(s, Do(s, l).value);
    }
  }

  lemma BusyAdd(threads: map<nat, Phase>, t: nat, p: Phase)
    ensures p.Busy() && !(t in threads && threads[t].Busy()) ==>
              |BusyThreads(threads[t := p])| == |BusyThreads(threads)| + 1
    ensures !p.Busy() && t in threads && threads[t].Busy() ==>
              |BusyThreads(threads[t := p])| == |BusyThreads(threads)| - 1
    ensures p.Busy() == (t in threads && threads[t].Busy()) ==> BusyThreads(threads[t := p]) == BusyThreads(threads)
  {
    if p.Busy() {
      assert BusyThreads(threads[t := p]) == BusyThreads(threads) + {t};
    } else {
      assert BusyThreads(threads[t := p]) == BusyThreads(threads) - {t};
    }
  }

  lemma BusyNotified(threads: map<nat, Phase>)
    ensures BusyThreads(NotifyAll(threads)) == BusyThreads(threads)
  {
  }

  /** The inner loop keeps the count of busy threads. */
  lemma InnerKeepsThreads(s: State, t: nat)
    requires ThreadsOk(s) && t in s.threads && !s.threads[t].Busy() && !s.threads[t].Outside?
    ensures ThreadsOk(Inner(s, t))
  {
    BusyAdd(s.threads, t, Exited);
    BusyAdd(s.threads, t, Waiting);
    BusyNotified(s.threads);
    BusyAdd(NotifyAll(s.threads), t, Exited);
    if s.pending != [] { BusyAdd(s.threads, t, Running(s.pending[0])); }
    assert |NotifyAll(s.threads)| == |s.threads| by { assert NotifyAll(s.threads).Keys == s.threads.Keys; }
    hide BusyThreads;
  }

  lemma LockKeepsThreads(s: State, l: Label)
    requires ThreadsOk(s) && l.Lock? && Do(s, l).Some?
    ensures ThreadsOk(Do(s, l).value)
  {
    if s.threads[l.t].AtTop? && s.threads[l.t].didWork {
      BusyAdd(s.threads, l.t, AtTop(false));
      var v := s.(active := s.active - 1, threads := s.threads[l.t := AtTop(false)]);
      assert ThreadsOk(v);
      InnerKeepsThreads(v, l.t);
    } else {
      InnerKeepsThreads(s, l.t);
    }
    hide ThreadsOk;
  }

  lemma ThreadsKept(s: State, l: Label)
    requires ThreadsOk(s) && Do(s, l).Some?
    ensures ThreadsOk(Do(s, l).value)
  {
    match l {
      case Enqueue(_, _, _) =>
        EnqueueKeepsThreads(s, l);
      case Process =>
        BusyAdd(s.threads, 0, AtTop(false));
        hide BusyThreads;
      case Finish(t) =>
        BusyAdd(s.threads, t, AtTop(true));
        hide BusyThreads;
      case Lock(_) =>
        LockKeepsThreads(s, l);
      case Wake(t) =>
        BusyAdd(s.threads, t, Notified);
        hide BusyThreads;
    }
  }

  lemma EnqueueKeepsThreads(s: State, l: Label)
    requires ThreadsOk(s) && l.Enqueue? && Do(s, l).Some?
    ensures ThreadsOk(Do(s, l).value)
  {
    hide BusyThreads;
    var grown := s.threads[|s.threads| := AtTop(false)];
    BusyAdd(s.threads, |s.threads|, AtTop(false));
    if l.woken.Some? {
      BusyAdd(s.threads, l.woken.value, Notified);
      BusyAdd(grown, l.woken.value, Notified);
    }
  }

  /** Once somebody has quit, nothing is queued, nobody is busy and nobody
      sleeps; until then, while the queue is being drained, some thread can go on. */
  ghost predicate Orderly(s: State) {
    && (s.quit ==> s.draining && s.pending == [] && BusyThreads(s.threads) == {}
                   && forall t | t in s.threads :: !s.threads[t].Waiting?)
    && (forall t | t in s.threads && s.threads[t].Exited? :: s.quit)
    && (s.draining && !s.quit ==> exists t :: t in s.threads && Able(s.threads[t]))
  }

  lemma InnerKeepsOrder(s: State, t: nat)
    requires Orderly(s) && t in s.threads && (s.threads[t] == AtTop(false) || s.threads[t].Notified?)
    requires s.active == |BusyThreads(s.threads)|
    ensures Orderly(Inner(s, t))
  {
    var u := Inner(s, t);
    if s.quit {
      BusyAdd(s.threads, t, Exited);
    } else if s.pending != [] {
      assert Able(u.threads[t]);
    } else if s.active == 0 && s.draining {
      assert BusyThreads(s.threads) == {};
      BusyNotified(s.threads);
      BusyAdd(NotifyAll(s.threads), t, Exited);
    } else if s.draining {
      var b :| b in BusyThreads(s.threads);
      assert Able(u.threads[b]);
    }
    hide BusyThreads;
  }

  lemma LockKeepsOrder(s: State, l: Label)
    requires Orderly(s) && ThreadsOk(s) && l.Lock? && Do(s, l).Some?
    ensures Orderly(Do(s, l).value)
  {
    if s.threads[l.t].AtTop? && s.threads[l.t].didWork {
      var v := s.(active := s.active - 1, threads := s.threads[l.t := AtTop(false)]);
      assert l.t in BusyThreads(s.threads);
      BusyAdd(s.threads, l.t, AtTop(false));
      assert Able(v.threads[l.t]);
      InnerKeepsOrder(v, l.t);
    } else {
      InnerKeepsOrder(s, l.t);
    }
    hide Orderly, ThreadsOk;
  }

  lemma OrderKept(s: State, l: Label)
    requires Orderly(s) && ThreadsOk(s) && Do(s, l).Some?
    ensures Orderly(Do(s, l).value)
  {
    var u := Do(s, l).value;
    match l {
      case Enqueue(t, item, woken) =>
        if s.draining {
          var w :| w in s.threads && Able(s.threads[w]);
          assert Able(u.threads[w]);
        }
        hide BusyThreads;
      case Process =>
        BusyAdd(s.threads, 0, AtTop(false));
        assert Able(u.threads[0]);
      case Finish(t) =>
        assert t in BusyThreads(s.threads);
        assert Able(u.threads[t]);
      case Lock(t) =>
        LockKeepsOrder(s, l);
      case Wake(t) =>
        assert Able(u.threads[t]);
        BusyAdd(s.threads, t, Notified);
    }
  }

  lemma InvKept(s: State, l: Label)
    requires Inv(s) && Do(s, l).Some?
    ensures Inv(Do(s, l).value) && Do(s, l).value.maxThreads == s.maxThreads
  {
    ItemsKept(s, l);
    ThreadsKept(s, l);
    OrderKept(s, l);
    hide ItemsOk, ThreadsOk, Orderly, NotifyOne;
  }

  lemma InitIsOrderly(s: State)
    requires Init(s)
    ensures Inv(s)
  {
    assert BusyThreads(s.threads) == {};
    assert s.threads.Keys == {0} && |s.threads| == |s.threads.Keys| == 1;
    assert forall t: nat :: t in s.threads <==> t == 0;
  }

  lemma {:induction false} Reached(s: State, ls: seq<Label>)
    requires Init(s)
    ensures Run(Do, s, ls).Some? ==> Inv(Run(Do, s, ls).value) && Run(Do, s, ls).value.maxThreads == s.maxThreads
  {
    hide Inv, Do, Init;
    if ls == [] {
      InitIsOrderly(s);
    } else {
      Reached(s, ls[..|ls| - 1]);
      if Run(Do, s, ls).Some? {
        InvKept(Run(Do, s, ls[..|ls| - 1]).value, ls[|ls| - 1]);
      }
    }
  }

  // ---------------------------------------------------------------------
  // What the pool promises.

  /** When `process` returns, every item enqueued so far, by the caller or by
      another item, has run exactly once, and none is running. */
  lemma ProcessRunsEverything(s: State, ls: seq<Label>)
    requires Init(s)
    ensures var u := Run(Do, s, ls);
            u.Some? && 0 in u.value.threads && u.value.threads[0].Exited? ==>
              && Elements(u.value.ran) == u.value.enqueued && Distinct(u.value.ran)
              && u.value.pending == [] && forall t | t in u.value.threads :: !u.value.threads[t].Running?
  {
    Reached(s, ls);
    var u := Run(Do, s, ls);
    hide Run;
    if u.Some? && 0 in u.value.threads && u.value.threads[0].Exited? {
      assert u.value.quit && BusyThreads(u.value.threads) == {};
      assert forall t | t in u.value.threads && u.value.threads[t].Running? :: t in BusyThreads(u.value.threads);
      assert forall i :: !BeingRun(u.value.threads, i);
    }
  }

  /** There are never more threads than allowed, the caller included. */
  lemma ThreadsAreBounded(s: State, ls: seq<Label>)
    requires Init(s)
    ensures Run(Do, s, ls).Some? ==> |Run(Do, s, ls).value.threads| <= s.maxThreads
  {
    Reached(s, ls);
    hide Run, Init;
  }

  /** No wake-up is lost: as long as `process` has not returned, some thread that
      has not exited can go on. */
  lemma NeverStuck(s: State, ls: seq<Label>)
    requires Init(s)
    ensures var u := Run(Do, s, ls);
            u.Some? && u.value.draining && 0 in u.value.threads && !u.value.threads[0].Exited? ==>
              exists l: Label :: (l.Lock? || l.Finish?) && Do(u.value, l).Some?
  {
    Reached(s, ls);
    var u := Run(Do, s, ls);
    hide Run, Init;
    if u.Some? && u.value.draining && 0 in u.value.threads && !u.value.threads[0].Exited? {
      var l := CanGoOn(u.value);
    }
  }

  lemma CanGoOn(s: State) returns (l: Label)
    requires Inv(s) && s.draining && 0 in s.threads && !s.threads[0].Exited?
    ensures (l.Lock? || l.Finish?) && Do(s, l).Some?
  {
    hide ItemsOk;
    var t: nat := 0;
    if !s.quit {
      t :| t in s.threads && Able(s.threads[t]);
    }
    assert Able(s.threads[t]);
    if s.threads[t].AtTop? && s.threads[t].didWork {
      assert t in BusyThreads(s.threads);
    }
    l := if s.threads[t].Running? then Finish(t) else Lock(t);
  }

  // ---------------------------------------------------------------------
  // Nor does it spin.

  /** Threads that can take the lock some time without being woken. */
  function UpThreads(threads: map<nat, Phase>): set<nat> {
    set t | t in threads && (threads[t].Outside? || Able(threads[t]))
  }

  /** Of these, those that do something else first. */
  function AwayThreads(threads: map<nat, Phase>): set<nat> {
    set t | t in threads && (threads[t].Outside? || threads[t].Running?)
  }

  /** How many steps are left at most, if nothing is enqueued and nobody wakes
      spuriously. */
  function StepsLeft(s: State): nat {
    2 * |s.pending| + |UpThreads(s.threads)| + |AwayThreads(s.threads)| + if s.quit then 0 else s.maxThreads
  }

  function Weight(p: Phase): nat {
    match p
    case Outside => 2
    case Running(_) => 2
    case AtTop(_) => 1
    case Notified => 1
    case Waiting => 0
    case Exited => 0
  }

  lemma UpAdd(threads: map<nat, Phase>, t: nat, p: Phase)
    ensures |UpThreads(threads[t := p])| ==
            |UpThreads(threads)| + (if Weight(p) > 0 then 1 else 0)
              - if t in threads && Weight(threads[t]) > 0 then 1 else 0
  {
    var up := UpThreads(threads);
    assert UpThreads(threads[t := p]) == if Weight(p) > 0 then up + {t} else up - {t};
  }

  lemma AwayAdd(threads: map<nat, Phase>, t: nat, p: Phase)
    ensures |AwayThreads(threads[t := p])| ==
            |AwayThreads(threads)| + (if Weight(p) > 1 then 1 else 0)
              - if t in threads && Weight(threads[t]) > 1 then 1 else 0
  {
    var away := AwayThreads(threads);
    assert AwayThreads(threads[t := p]) == if Weight(p) > 1 then away + {t} else away - {t};
  }

  lemma PhaseWeighs(threads: map<nat, Phase>, t: nat, p: Phase)
    ensures |UpThreads(threads[t := p])| + |AwayThreads(threads[t := p])| ==
            |UpThreads(threads)| + |AwayThreads(threads)| + Weight(p) - if t in threads then Weight(threads[t]) else 0
  {
    UpAdd(threads, t, p);
    AwayAdd(threads, t, p);
    hide UpThreads, AwayThreads;
  }

  /** Even if everybody is woken. */
  lemma NotifiedWeigh(threads: map<nat, Phase>, t: nat)
    requires t in threads && AwayThreads(threads) == {}
    ensures var after := NotifyAll(threads)[t := Exited];
            |UpThreads(after)| + |AwayThreads(after)| < |threads|
  {
    var after := NotifyAll(threads)[t := Exited];
    assert AwayThreads(after) == {};
    SubsetSize(UpThreads(after), threads.Keys - {t});
  }

  lemma InnerWeighs(s: State, t: nat)
    requires ThreadsOk(s) && t in s.threads && (s.threads[t] == AtTop(false) || s.threads[t].Notified?)
    requires s.active == 0 && s.draining ==> AwayThreads(s.threads) == {}
    ensures StepsLeft(Inner(s, t)) < StepsLeft(s)
  {
    PhaseWeighs(s.threads, t, Exited);
    PhaseWeighs(s.threads, t, Waiting);
    if s.pending != [] { PhaseWeighs(s.threads, t, Running(s.pending[0])); }
    if s.active == 0 && s.draining { NotifiedWeigh(s.threads, t); }
    hide UpThreads, AwayThreads, NotifyAll, BusyThreads;
  }

  lemma IdleIsNotAway(s: State)
    requires ThreadsOk(s) && s.draining && s.active == 0
    ensures AwayThreads(s.threads) == {}
  {
    assert BusyThreads(s.threads) == {};
    forall t | t in AwayThreads(s.threads) ensures t in BusyThreads(s.threads) {
    }
  }

  lemma LockWeighs(s: State, l: Label)
    requires ThreadsOk(s) && l.Lock? && Do(s, l).Some?
    ensures StepsLeft(Do(s, l).value) < StepsLeft(s)
  {
    var v := if s.threads[l.t].AtTop? then Resumed(s, l.t) else s;
    PhaseWeighs(s.threads, l.t, AtTop(false));
    BusyAdd(s.threads, l.t, AtTop(false));
    if v.active == 0 && v.draining {
      IdleIsNotAway(v);
    }
    InnerWeighs(v, l.t);
    hide UpThreads, AwayThreads, BusyThreads, Inner;
  }

  /** What a step costs: one, except that an enqueued item allows four more and a
      spurious wake-up one more. */
  lemma StepWeighs(s: State, l: Label)
    requires ThreadsOk(s) && Do(s, l).Some?
    ensures StepsLeft(Do(s, l).value) + 1 <= StepsLeft(s) + if l.Enqueue? then 5 else if l.Wake? then 2 else 0
  {
    match l {
      case Enqueue(_, _, woken) =>
        var grown := s.threads[|s.threads| := AtTop(false)];
        PhaseWeighs(s.threads, |s.threads|, AtTop(false));
        if woken.Some? {
          PhaseWeighs(s.threads, woken.value, Notified);
          PhaseWeighs(grown, woken.value, Notified);
        }
      case Process => PhaseWeighs(s.threads, 0, AtTop(false));
      case Lock(_) => LockWeighs(s, l);
      case Finish(t) => PhaseWeighs(s.threads, t, AtTop(true));
      case Wake(t) => PhaseWeighs(s.threads, t, Notified);
    }
    hide UpThreads, AwayThreads, BusyThreads;
  }

  function Enqueues(ls: seq<Label>): nat {
    if ls == [] then 0 else Enqueues(ls[..|ls| - 1]) + if ls[|ls| - 1].Enqueue? then 1 else 0
  }

  function Wakes(ls: seq<Label>): nat {
    if ls == [] then 0 else Wakes(ls[..|ls| - 1]) + if ls[|ls| - 1].Wake? then 1 else 0
  }

  /** Every run is finite in its items and spurious wake-ups: with `NeverStuck`,
      `process` returns. */
  lemma {:induction false} RunsAreBounded(s: State, ls: seq<Label>)
    requires Init(s)
    ensures var u := Run(Do, s, ls);
            u.Some? ==> |ls| + StepsLeft(u.value) <= s.maxThreads + 2 + 5 * Enqueues(ls) + 2 * Wakes(ls)
  {
    Reached(s, ls);
    if ls == [] {
      assert UpThreads(s.threads) == {0} && AwayThreads(s.threads) == {0};
    } else {
      var front := ls[..|ls| - 1];
      RunsAreBounded(s, front);
      Reached(s, front);
      hide Do, StepsLeft, ItemsOk, ThreadsOk, Orderly, Init;
      if Run(Do, s, ls).Some? {
        StepWeighs(Run(Do, s, front).value, ls[|ls| - 1]);
      }
    }
  }

  lemma EnqueueAdds(s: State, l: Label)
    ensures Do(s, l).Some? ==> |Do(s, l).value.enqueued| == |s.enqueued| + if l.Enqueue? then 1 else 0
  {
  }

  /** An item is enqueued once. */
  lemma {:induction false} EnqueuedOnce(s: State, ls: seq<Label>)
    requires Init(s)
    ensures Run(Do, s, ls).Some? ==> |Run(Do, s, ls).value.enqueued| == Enqueues(ls)
  {
    if ls != [] && Run(Do, s, ls).Some? {
      EnqueuedOnce(s, ls[..|ls| - 1]);
      EnqueueAdds(Run(Do, s, ls[..|ls| - 1]).value, ls[|ls| - 1]);
      hide Do;
    }
  }

  // ---------------------------------------------------------------------
  // When it grows.

  /** As long as the pool may grow it has a thread for every queued item. */
  ghost predicate EnoughThreads(s: State) {
    |s.pending| <= |s.threads| || |s.threads| == s.maxThreads
  }

  /** A thread is added exactly when an item is enqueued that has none left, and
      one more is allowed. */
  lemma GrowsOnDemand(s: State, l: Label)
    requires ThreadsOk(s) && Do(s, l).Some?
    ensures |Do(s, l).value.threads| ==
            |s.threads| + if l.Enqueue? && |s.pending| >= |s.threads| && |s.threads| < s.maxThreads then 1 else 0
    ensures EnoughThreads(s) ==> EnoughThreads(Do(s, l).value)
  {
    var t := Do(s, l).value;
    if l.Enqueue? {
      hide Inner;
      assert |s.threads| !in s.threads;
    } else {
      SameThreads(s, l);
      hide Do, ThreadsOk;
    }
  }

  lemma SameThreads(s: State, l: Label)
    requires ThreadsOk(s) && Do(s, l).Some? && !l.Enqueue?
    ensures |Do(s, l).value.threads| == |s.threads| && |Do(s, l).value.pending| <= |s.pending|
    ensures Do(s, l).value.maxThreads == s.maxThreads
  {
    var t := Do(s, l).value;
    hide BusyThreads;
    assert t.threads.Keys == s.threads.Keys && |t.threads| == |t.threads.Keys|;
  }

  lemma {:induction false} ThreadsMeetDemand(s: State, ls: seq<Label>)
    requires Init(s)
    ensures Run(Do, s, ls).Some? ==> EnoughThreads(Run(Do, s, ls).value)
  {
    if ls != [] {
      ThreadsMeetDemand(s, ls[..|ls| - 1]);
      Reached(s, ls[..|ls| - 1]);
      hide Do, EnoughThreads, ItemsOk, ThreadsOk, Orderly;
      if Run(Do, s, ls).Some? {
        GrowsOnDemand(Run(Do, s, ls[..|ls| - 1]).value, ls[|ls| - 1]);
      }
    }
  }

  /** The items of the enqueuing steps, in order. */
  function Enqueued(ls: seq<Label>): seq<nat> {
    if ls == [] then []
    else Enqueued(ls[..|ls| - 1]) + if ls[|ls| - 1].Enqueue? then [ls[|ls| - 1].item] else []
  }

  /** Items are taken off the queue in the order in which they were enqueued. */
  lemma {:induction false} FirstInFirstOut(s: State, ls: seq<Label>)
    requires Init(s)
    ensures var u := Run(Do, s, ls);
            u.Some? ==> |u.value.pending| <= |Enqueued(ls)|
                        && u.value.pending == Enqueued(ls)[|Enqueued(ls)| - |u.value.pending|..]
  {
    if ls != [] && Run(Do, s, ls).Some? {
      FirstInFirstOut(s, ls[..|ls| - 1]);
      QueueStep(Run(Do, s, ls[..|ls| - 1]).value, ls[|ls| - 1]);
      hide Do;
    }
  }

  lemma QueueStep(s: State, l: Label)
    requires Do(s, l).Some?
    ensures var t := Do(s, l).value;
            if l.Enqueue? then t.pending == s.pending + [l.item]
            else t.pending == s.pending || (s.pending != [] && t.pending == s.pending[1..])
  {
  }

  // ---------------------------------------------------------------------
  // What can always be done.

  function Sleepers(threads: map<nat, Phase>): set<nat> {
    set t | t in threads && threads[t].Waiting?
  }

  /** Enqueuing an item puts it last and wakes one sleeper if there is any. */
  lemma EnqueueWakesOne(s: State, l: Label)
    requires ThreadsOk(s) && l.Enqueue? && Do(s, l).Some?
    ensures var u := Do(s, l).value;
            && u.pending == s.pending + [l.item] && u.enqueued == s.enqueued + {l.item} && u.ran == s.ran
            && Sleepers(u.threads) <= Sleepers(s.threads)
            && |Sleepers(u.threads)| == if Sleepers(s.threads) == {} then 0 else |Sleepers(s.threads)| - 1
  {
    var u := Do(s, l).value;
    match l.woken {
      case None =>
        assert Sleepers(s.threads) == {} && Sleepers(u.threads) == {};
      case Some(w) =>
        assert w in Sleepers(s.threads) && Sleepers(u.threads) == Sleepers(s.threads) - {w};
    }
  }

  /** Whoever may enqueue a new item can do so, and any sleeper may wake up. */
  lemma MayEnqueue(s: State, t: nat, item: nat) returns (woken: Option<nat>)
    requires Inv(s) && t in s.threads && (s.threads[t].Outside? || s.threads[t].Running?) && item !in s.enqueued
    ensures Do(s, Enqueue(t, item, woken)).Some?
    ensures forall u | u in Sleepers(s.threads) :: Do(s, Wake(u)).Some? && u !in Sleepers(Do(s, Wake(u)).value.threads)
  {
    assert s.threads[t].Running? ==> t in BusyThreads(s.threads);
    woken := None;
    if w :| w in s.threads && s.threads[w].Waiting? {
      woken := Some(w);
    }
    hide ItemsOk, DoEnqueue;
  }

  lemma DrainingGoesOn(s: State, l: Label)
    requires Do(s, l).Some? && (l.Lock? || l.Finish?)
    ensures var t := Do(s, l).value;
            t.draining == s.draining && t.enqueued == s.enqueued && (0 in s.threads ==> 0 in t.threads)
  {
  }

  /** Once the caller waits in `process`, the threads bring it to its return. */
  lemma {:induction false} Drains(s: State, before: seq<Label>) returns (ls: seq<Label>, t: State)
    requires Init(s) && Run(Do, s, before).Some?
    requires var u := Run(Do, s, before).value; u.draining && 0 in u.threads
    ensures Run(Do, s, ls) == Some(t) && 0 in t.threads && t.threads[0].Exited?
    ensures t.enqueued == Run(Do, s, before).value.enqueued
    decreases StepsLeft(Run(Do, s, before).value)
  {
    ls, t := before, Run(Do, s, before).value;
    Reached(s, before);
    hide Run, Do, Init, ItemsOk, Orderly, StepsLeft;
    if !t.threads[0].Exited? {
      var l := CanGoOn(t);
      StepWeighs(t, l);
      DrainingGoesOn(t, l);
      ls, t := Extend(Do, s, ls, l);
      ls, t := Drains(s, ls);
    }
  }

  /** From everywhere the caller can go on so that `process` returns, and what has
      been enqueued has run exactly once then. */
  lemma ProcessReturns(s: State, before: seq<Label>) returns (ls: seq<Label>, t: State)
    requires Init(s) && Run(Do, s, before).Some?
    ensures Run(Do, s, ls) == Some(t) && 0 in t.threads && t.threads[0].Exited?
    ensures Elements(t.ran) == t.enqueued == Run(Do, s, before).value.enqueued && Distinct(t.ran)
  {
    ls, t := before, Run(Do, s, before).value;
    Reached(s, before);
    assert 0 in t.threads;
    if t.threads[0].Outside? {
      hide Run;
      ls, t := Extend(Do, s, ls, Process);
    } else {
      CallerIsDraining(s, before);
    }
    hide Run, Do, Init, Inv;
    ls, t := Drains(s, ls);
    ProcessRunsEverything(s, ls);
  }

  lemma {:induction false} CallerIsDraining(s: State, ls: seq<Label>)
    requires Init(s)
    ensures var u := Run(Do, s, ls);
            u.Some? ==> 0 in u.value.threads && (u.value.draining || u.value.threads[0].Outside?)
  {
    if ls != [] && Run(Do, s, ls).Some? {
      CallerIsDraining(s, ls[..|ls| - 1]);
      CallerStep(Run(Do, s, ls[..|ls| - 1]).value, ls[|ls| - 1]);
      hide Do;
    }
  }

  lemma CallerStep(s: State, l: Label)
    requires Do(s, l).Some? && 0 in s.threads && (s.draining || s.threads[0].Outside?)
    ensures var t := Do(s, l).value; 0 in t.threads && (t.draining || t.threads[0].Outside?)
  {
  }
}
