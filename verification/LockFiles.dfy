/** Lock files that are deleted when they are released: `lockPaths`, `unlock`
    and `deleteLockFile` in src/libstore/unix/pathlocks.cc, as the steps of any
    number of processes. Paths are numbered in their sorted order. */
module LockFiles {
  import opened Bytes
  import opened Runs
  import opened Finite

  /** A file; `stale` says that its size is not zero, `owner` who has flocked it. */
  datatype Inode = Inode(path: nat, stale: bool, owner: Option<nat>)

  /** Where a process is. `Releasing` handles the descriptor with index `r`. */
  datatype Step =
    | Idle | Opening | Waiting(i: nat) | Checking(i: nat) | Holding
    | Unlinking(r: nat) | Marking(r: nat) | Closing(r: nat)

  /** `fds[j]` is the open and locked lock file of `paths[j]`. */
  datatype Process = Process(paths: seq<nat>, wait: bool, deletePaths: bool, fds: seq<nat>, step: Step) {
    /** Descriptors from this index on have not been given up. */
    function From(): nat {
      match step
      case Unlinking(r) => r
      case Marking(r) => r + 1
      case Closing(r) => r + 1
      case _ => 0
    }

    /** Descriptors from this index on are still open. */
    function OpenFrom(): nat {
      match step
      case Unlinking(r) => r
      case Marking(r) => r
      case Closing(r) => r
      case _ => 0
    }

    ghost predicate Holds(p: nat) {
      exists j :: From() <= j < |fds| && j < |paths| && paths[j] == p
    }
  }

  datatype State = State(link: map<nat, nat>, inodes: map<nat, Inode>, procs: map<nat, Process>)

  datatype Label =
    | Begin(c: nat, paths: seq<nat>, wait: bool, deletePaths: bool)
    | Open(c: nat, i: nat) | Flock(c: nat) | GiveUp(c: nat) | CheckSize(c: nat)
    | SetDeletion(c: nat, deletePaths: bool) | Unlock(c: nat)
    | Unlink(c: nat, fails: bool) | Mark(c: nat) | Close(c: nat) | Die(c: nat)

  predicate Sorted(s: seq<nat>) {
    forall i, j | 0 <= i < j < |s| :: s[i] < s[j]
  }

  function SetOwner(s: State, i: nat, owner: Option<nat>): State {
    if i in s.inodes then s.(inodes := s.inodes[i := s.inodes[i].(owner := owner)]) else s
  }

  /** All locks of a process are gone when it closes its files or dies. */
  function ReleaseAll(inodes: map<nat, Inode>, c: nat): map<nat, Inode> {
    map i | i in inodes :: if inodes[i].owner == Some(c) then inodes[i].(owner := None) else inodes[i]
  }

  /** The first descriptor to handle in `unlock`, or the end. */
  function NextRelease(me: Process, r: nat): Step {
    if r >= |me.fds| then Idle else if me.deletePaths then Unlinking(r) else Closing(r)
  }

  function Do(s: State, l: Label): Option<State> {
    if l.Begin? then
      if Sorted(l.paths) && (l.c in s.procs ==> s.procs[l.c].step.Idle?) then
        var first := if l.paths == [] then Holding else Opening;
        Some(s.(procs := s.procs[l.c := Process(l.paths, l.wait, l.deletePaths, [], first)]))
      else None
    else if l.c !in s.procs then None
    else
      var r := ProcessStep(s, l.c, s.procs[l.c], l);
      if r.Some? then Some(r.value.0.(procs := s.procs[l.c := r.value.1])) else None
  }

  predicate InLockPaths(l: Label) {
    l.Open? || l.Flock? || l.GiveUp? || l.CheckSize?
  }

  function ProcessStep(s: State, c: nat, me: Process, l: Label): Option<(State, Process)> {
    if InLockPaths(l) then LockStep(s, c, me, l) else UnlockStep(s, c, me, l)
  }

  function LockStep(s: State, c: nat, me: Process, l: Label): Option<(State, Process)> {
    match l
    case Open(_, i) =>
      if !me.step.Opening? || |me.fds| >= |me.paths| then None
      else
        var p := me.paths[|me.fds|];
        if p in s.link then
          if i == s.link[p] then Some((s, me.(step := Waiting(i)))) else None
        else if i !in s.inodes then
          Some((s.(link := s.link[p := i], inodes := s.inodes[i := Inode(p, false, None)]), me.(step := Waiting(i))))
        else None
    case Flock(_) =>
      if me.step.Waiting? && me.step.i in s.inodes && s.inodes[me.step.i].owner.None? then
        Some((SetOwner(s, me.step.i, Some(c)), me.(step := Checking(me.step.i))))
      else None
    case GiveUp(_) =>
      if me.step.Waiting? && !me.wait && me.step.i in s.inodes && s.inodes[me.step.i].owner.Some? then
        Some((s, me.(step := NextRelease(me, 0))))
      else None
    case CheckSize(_) =>
      if me.step.Checking? && me.step.i in s.inodes then
        if s.inodes[me.step.i].stale then
          Some((SetOwner(s, me.step.i, None), me.(step := Opening)))
        else
          Some((s, me.(fds := me.fds + [me.step.i], step := if |me.fds| + 1 == |me.paths| then Holding else Opening)))
      else None
    case _ => None
  }

  function UnlockStep(s: State, c: nat, me: Process, l: Label): Option<(State, Process)> {
    match l
    case SetDeletion(_, deletePaths) =>
      if me.step.Holding? then Some((s, me.(deletePaths := deletePaths))) else None
    case Unlock(_) =>
      if me.step.Holding? then Some((s, me.(step := NextRelease(me, 0)))) else None
    case Unlink(_, fails) =>
      if me.step.Unlinking? && me.step.r < |me.paths| then
        Some((if fails then s else s.(link := s.link - {me.paths[me.step.r]}), me.(step := Marking(me.step.r))))
      else None
    case Mark(_) =>
      if me.step.Marking? && me.step.r < |me.fds| && me.fds[me.step.r] in s.inodes then
        var i := me.fds[me.step.r];
        Some((s.(inodes := s.inodes[i := s.inodes[i].(stale := true)]), me.(step := Closing(me.step.r))))
      else None
    case Close(_) =>
      if me.step.Closing? && me.step.r < |me.fds| then
        var next := NextRelease(me, me.step.r + 1);
        Some((SetOwner(s, me.fds[me.step.r], None), me.(step := next, fds := if next.Idle? then [] else me.fds)))
      else None
    case Die(_) =>
      Some((s.(inodes := ReleaseAll(s.inodes, c)), me.(fds := [], step := Idle)))
    case _ => None
  }

  // ---------------------------------------------------------------------
  // What holds in every run.

  /** An open descriptor of `c`: the file is that of its path and flocked. */
  ghost predicate Owned(s: State, c: nat, p: nat, i: nat) {
    i in s.inodes && s.inodes[i].path == p && s.inodes[i].owner == Some(c)
  }

  ghost predicate ProcessOk(s: State, c: nat, me: Process) {
    && Sorted(me.paths) && |me.fds| <= |me.paths|
    && (me.step.Opening? || me.step.Waiting? || me.step.Checking? ==> |me.fds| < |me.paths|)
    && (me.step.Unlinking? || me.step.Marking? || me.step.Closing? ==> me.step.r < |me.fds|)
    && (me.step.Unlinking? || me.step.Marking? ==> me.deletePaths) && (me.step.Holding? ==> |me.fds| == |me.paths|)
    && (me.step.Waiting? || me.step.Checking? ==>
          me.step.i in s.inodes && s.inodes[me.step.i].path == me.paths[|me.fds|])
    && (me.step.Checking? ==> s.inodes[me.step.i].owner == Some(c))
    && (me.step.Idle? ==> me.fds == [])
    && FdsOk(s, c, me.paths, me.fds, me.OpenFrom(), me.From())
  }

  /** Open descriptors are flocked; those not given up are not stale. */
  ghost predicate FdsOk(s: State, c: nat, paths: seq<nat>, fds: seq<nat>, openFrom: nat, from: nat)
    requires |fds| <= |paths|
  {
    && (forall j | openFrom <= j < |fds| :: Owned(s, c, paths[j], fds[j]))
    && (forall j | from <= j < |fds| :: fds[j] in s.inodes && !s.inodes[fds[j]].stale)
  }

  ghost predicate LinksOk(s: State) {
    forall p | p in s.link :: s.link[p] in s.inodes && s.inodes[s.link[p]].path == p
  }

  ghost predicate Sound(s: State) {
    (forall c | c in s.procs :: ProcessOk(s, c, s.procs[c])) && LinksOk(s)
  }

  lemma LinksKept(s: State, l: Label)
    requires Sound(s) && Do(s, l).Some?
    ensures LinksOk(Do(s, l).value)
  {
    assert l.c in s.procs ==> ProcessOk(s, l.c, s.procs[l.c]);
    hide Sorted, ProcessOk;
  }

  /** A step leaves alone the files the others have locked. */
  ghost predicate Confined(s: State, t: State, c: nat) {
    && (forall i | i in s.inodes :: i in t.inodes && t.inodes[i].path == s.inodes[i].path)
    && (forall i | i in s.inodes && s.inodes[i].owner.Some? && s.inodes[i].owner != Some(c) ::
          t.inodes[i] == s.inodes[i])
  }

  lemma StepIsConfined(s: State, l: Label)
    requires Sound(s) && Do(s, l).Some?
    ensures Confined(s, Do(s, l).value, l.c)
  {
    if l.c in s.procs {
      var me := s.procs[l.c];
      assert ProcessOk(s, l.c, me);
      if me.step.Marking? || me.step.Closing? {
        assert Owned(s, l.c, me.paths[me.step.r], me.fds[me.step.r]);
      }
    }
    hide Sound, Sorted, FdsOk;
  }

  lemma OthersKept(s: State, l: Label, d: nat)
    requires Sound(s) && Do(s, l).Some? && d in s.procs && d != l.c
    ensures ProcessOk(Do(s, l).value, d, s.procs[d])
  {
    StepIsConfined(s, l);
    assert ProcessOk(s, d, s.procs[d]);
    hide Sound, Sorted, Do;
  }

  /** Descriptors stay good when the files of the process stay. */
  lemma FdsStay(s: State, t: State, c: nat, paths: seq<nat>, fds: seq<nat>, o: nat, f: nat, o': nat, f': nat)
    requires |fds| <= |paths| && FdsOk(s, c, paths, fds, o, f) && o <= o' && f <= f' && o' <= f'
    requires forall j | o' <= j < |fds| ::
               fds[j] in t.inodes && t.inodes[fds[j]].path == s.inodes[fds[j]].path && t.inodes[fds[j]].owner == Some(c)
    requires forall j | f' <= j < |fds| :: t.inodes[fds[j]].stale == s.inodes[fds[j]].stale
    ensures FdsOk(t, c, paths, fds, o', f')
  {
  }

  lemma LockKept(s: State, l: Label)
    requires Sound(s) && InLockPaths(l) && !l.CheckSize? && Do(s, l).Some?
    ensures ProcessOk(Do(s, l).value, l.c, Do(s, l).value.procs[l.c])
  {
    var me, t := s.procs[l.c], Do(s, l).value;
    assert ProcessOk(s, l.c, me) && LinksOk(s);
    hide Sound, Sorted, UnlockStep;
    FdsStay(s, t, l.c, me.paths, me.fds, 0, 0, t.procs[l.c].OpenFrom(), t.procs[l.c].From());
    hide FdsOk;
  }

  lemma CheckSizeKept(s: State, l: Label)
    requires Sound(s) && l.CheckSize? && Do(s, l).Some?
    ensures ProcessOk(Do(s, l).value, l.c, Do(s, l).value.procs[l.c])
  {
    var me, t := s.procs[l.c], Do(s, l).value;
    assert ProcessOk(s, l.c, me);
    hide Sound, Sorted, UnlockStep;
    if s.inodes[me.step.i].stale {
      FdsStay(s, t, l.c, me.paths, me.fds, 0, 0, 0, 0);
    }
  }

  lemma FdsDiffer(s: State, c: nat, me: Process, r: nat)
    requires ProcessOk(s, c, me) && me.OpenFrom() <= r < |me.fds|
    ensures forall j | me.OpenFrom() <= j < |me.fds| && j != r :: me.fds[j] != me.fds[r] && me.paths[j] != me.paths[r]
  {
    assert Owned(s, c, me.paths[r], me.fds[r]);
  }

  lemma UnlinkKept(s: State, l: Label)
    requires Sound(s) && (l.Unlink? || l.Unlock? || l.Mark? || l.SetDeletion?) && Do(s, l).Some?
    ensures ProcessOk(Do(s, l).value, l.c, Do(s, l).value.procs[l.c])
  {
    var me, t := s.procs[l.c], Do(s, l).value;
    assert ProcessOk(s, l.c, me);
    if me.step.Marking? { FdsDiffer(s, l.c, me, me.step.r); }
    hide Sound, Sorted, LockStep;
    FdsStay(s, t, l.c, me.paths, me.fds, me.OpenFrom(), me.From(), t.procs[l.c].OpenFrom(), t.procs[l.c].From());
    hide FdsOk;
  }

  lemma CloseKept(s: State, l: Label)
    requires Sound(s) && l.Close? && Do(s, l).Some?
    ensures ProcessOk(Do(s, l).value, l.c, Do(s, l).value.procs[l.c])
  {
    var me, t := s.procs[l.c], Do(s, l).value;
    assert ProcessOk(s, l.c, me);
    FdsDiffer(s, l.c, me, me.step.r);
    hide Sound, Sorted, LockStep;
    if me.step.r + 1 < |me.fds| {
      FdsStay(s, t, l.c, me.paths, me.fds, me.OpenFrom(), me.From(), t.procs[l.c].OpenFrom(), t.procs[l.c].From());
    }
  }

  lemma SelfKept(s: State, l: Label)
    requires Sound(s) && Do(s, l).Some?
    ensures ProcessOk(Do(s, l).value, l.c, Do(s, l).value.procs[l.c])
  {
    if InLockPaths(l) && !l.CheckSize? {
      LockKept(s, l);
    } else {
      match l {
        case CheckSize(_) => CheckSizeKept(s, l);
        case SetDeletion(_, _) => UnlinkKept(s, l);
        case Unlock(_) => UnlinkKept(s, l);
        case Unlink(_, _) => UnlinkKept(s, l);
        case Mark(_) => UnlinkKept(s, l);
        case Close(_) => CloseKept(s, l);
        case _ =>
      }
    }
    assert l.Die? ==> ProcessOk(s, l.c, s.procs[l.c]);
    hide Sound, LockStep;
  }

  lemma SoundKept(s: State, l: Label)
    requires Sound(s) && Do(s, l).Some?
    ensures Sound(Do(s, l).value)
  {
    LinksKept(s, l);
    SelfKept(s, l);
    var t := Do(s, l).value;
    forall d | d in t.procs && d != l.c ensures ProcessOk(t, d, t.procs[d]) {
      OthersKept(s, l, d);
    }
    hide ProcessOk, ProcessStep, LinksOk;
  }

  ghost predicate Keeps(me: Process, i: nat) {
    (me.step.Checking? && me.step.i == i) || exists j :: me.OpenFrom() <= j < |me.fds| && me.fds[j] == i
  }

  /** A flocked file is an open descriptor of its owner or the one it checks. */
  ghost predicate OwnersKnow(s: State) {
    forall i | i in s.inodes && s.inodes[i].owner.Some? ::
      s.inodes[i].owner.value in s.procs && Keeps(s.procs[s.inodes[i].owner.value], i)
  }

  lemma KeepsKeptByLock(s: State, l: Label, i: nat)
    requires Sound(s) && OwnersKnow(s) && InLockPaths(l) && Do(s, l).Some?
    requires i in Do(s, l).value.inodes && Do(s, l).value.inodes[i].owner == Some(l.c)
    ensures Keeps(Do(s, l).value.procs[l.c], i)
  {
    var me, me' := s.procs[l.c], Do(s, l).value.procs[l.c];
    assert ProcessOk(s, l.c, me);
    assert Keeps(me, i) || l.Flock?;
    hide Sound, OwnersKnow, FdsOk, Sorted, UnlockStep;
    if j :| me.OpenFrom() <= j < |me.fds| && me.fds[j] == i {
      assert me'.fds[j] == i;
    } else {
      assert me.fds < me'.fds && me.step.Checking? ==> me'.fds[|me.fds|] == me.step.i;
    }
  }

  lemma KeepsKept(s: State, l: Label, i: nat)
    requires Sound(s) && OwnersKnow(s) && Do(s, l).Some? && l.c in s.procs
    requires i in Do(s, l).value.inodes && Do(s, l).value.inodes[i].owner == Some(l.c)
    ensures Keeps(Do(s, l).value.procs[l.c], i)
  {
    if InLockPaths(l) {
      KeepsKeptByLock(s, l, i);
    } else {
      var me, me' := s.procs[l.c], Do(s, l).value.procs[l.c];
      assert ProcessOk(s, l.c, me);
      assert Keeps(me, i);
      hide Sound, OwnersKnow, FdsOk, Sorted, LockStep;
      if j :| me.OpenFrom() <= j < |me.fds| && me.fds[j] == i {
        assert j < |me'.fds| ==> me'.fds[j] == i;
      }
    }
  }

  lemma OwnerStays(s: State, l: Label, i: nat)
    requires Do(s, l).Some?
    ensures var t := Do(s, l).value;
            i in t.inodes && t.inodes[i].owner.Some? && (t.inodes[i].owner.value != l.c || l.c !in s.procs) ==>
              i in s.inodes && s.inodes[i].owner == t.inodes[i].owner
  {
  }

  lemma OwnersKnowKept(s: State, l: Label)
    requires Sound(s) && OwnersKnow(s) && Do(s, l).Some?
    ensures OwnersKnow(Do(s, l).value)
  {
    var t := Do(s, l).value;
    forall i | i in t.inodes && t.inodes[i].owner.Some?
      ensures t.inodes[i].owner.value in t.procs && Keeps(t.procs[t.inodes[i].owner.value], i)
    {
      var d := t.inodes[i].owner.value;
      OwnerStays(s, l, i);
      if d == l.c && l.c in s.procs {
        KeepsKept(s, l, i);
      }
    }
  }

  /** Nobody is at work; every lock file left in the directory is free. */
  ghost predicate Init(s: State) {
    && (forall c | c in s.procs :: s.procs[c].step.Idle? && s.procs[c].fds == [] && Sorted(s.procs[c].paths))
    && (forall i | i in s.inodes :: s.inodes[i].owner.None?)
    && LinksOk(s)
  }

  /** Every process is where its descriptors and locks say, whatever happened. */
  lemma {:induction false} SoundReached(s: State, ls: seq<Label>)
    requires Sound(s) && OwnersKnow(s)
    ensures Run(Do, s, ls).Some? ==> Sound(Run(Do, s, ls).value) && OwnersKnow(Run(Do, s, ls).value)
  {
    hide Sound, Do, OwnersKnow;
    if ls != [] {
      SoundReached(s, ls[..|ls| - 1]);
      if Run(Do, s, ls).Some? {
        SoundKept(Run(Do, s, ls[..|ls| - 1]).value, ls[|ls| - 1]);
        OwnersKnowKept(Run(Do, s, ls[..|ls| - 1]).value, ls[|ls| - 1]);
      }
    }
  }

  lemma InitIsSound(s: State)
    requires Init(s)
    ensures Sound(s) && OwnersKnow(s)
  {
  }

  /** `c` waits for a file that `d` has flocked. */
  ghost predicate WaitsFor(s: State, c: nat, d: nat) {
    && c in s.procs && d in s.procs && s.procs[c].step.Waiting? && s.procs[c].step.i in s.inodes
    && s.inodes[s.procs[c].step.i].owner == Some(d)
  }

  function NextPath(s: State, c: nat): nat {
    if c in s.procs && |s.procs[c].fds| < |s.procs[c].paths| then s.procs[c].paths[|s.procs[c].fds|] else 0
  }

  ghost predicate CyclicWait(s: State, cs: seq<nat>) {
    |cs| > 1 && cs[0] == cs[|cs| - 1] && forall k | 0 <= k < |cs| - 1 :: WaitsFor(s, cs[k], cs[k + 1])
  }

  /** Whoever is waited for and waits itself wants a later path. */
  lemma WaitsUpwards(s: State, c: nat, d: nat)
    requires Sound(s) && OwnersKnow(s) && WaitsFor(s, c, d) && s.procs[d].step.Waiting?
    ensures NextPath(s, c) < NextPath(s, d)
  {
    var i := s.procs[c].step.i;
    assert ProcessOk(s, c, s.procs[c]) && ProcessOk(s, d, s.procs[d]);
    var j :| 0 <= j < |s.procs[d].fds| && s.procs[d].fds[j] == i;
    assert Owned(s, d, s.procs[d].paths[j], i);
  }

  lemma {:induction false} WaitsClimb(s: State, cs: seq<nat>, n: nat)
    requires Sound(s) && OwnersKnow(s) && CyclicWait(s, cs) && 0 < n < |cs|
    ensures NextPath(s, cs[0]) < NextPath(s, cs[n])
    decreases n
  {
    assert WaitsFor(s, cs[n - 1], cs[n]);
    assert n < |cs| - 1 ==> WaitsFor(s, cs[n], cs[n + 1]);
    assert WaitsFor(s, cs[0], cs[1]);
    WaitsUpwards(s, cs[n - 1], cs[n]);
    if n > 1 {
      WaitsClimb(s, cs, n - 1);
    }
  }

  /** Acquiring the locks in sorted order admits no cycle of waiting processes,
      whoever dies when. */
  lemma NoCyclicWait(s: State, ls: seq<Label>, cs: seq<nat>)
    requires Init(s)
    ensures Run(Do, s, ls).Some? ==> !CyclicWait(Run(Do, s, ls).value, cs)
  {
    InitIsSound(s);
    SoundReached(s, ls);
    hide Sound, Init, OwnersKnow, Run;
    if Run(Do, s, ls).Some? && CyclicWait(Run(Do, s, ls).value, cs) {
      WaitsClimb(Run(Do, s, ls).value, cs, |cs| - 1);
    }
  }

  // ---------------------------------------------------------------------
  // Who can come to hold a path: the live lock files.

  /** The process has the file open and will keep it, unless it turns out to be
      stale. */
  ghost predicate Wants(me: Process, i: nat) {
    || ((me.step.Waiting? || me.step.Checking?) && me.step.i == i)
    || (exists j :: me.From() <= j < |me.fds| && me.fds[j] == i)
  }

  predicate Marks(me: Process, i: nat) {
    me.step.Marking? && me.step.r < |me.fds| && me.fds[me.step.r] == i
  }

  /** The lock file in the directory. */
  predicate Linked(s: State, p: nat, i: nat) {
    p in s.link && s.link[p] == i
  }

  /** Not stale, not about to be marked, and open or to be found by its name. */
  ghost predicate Live(s: State, i: nat) {
    && i in s.inodes && !s.inodes[i].stale
    && (s.inodes[i].owner.Some? && s.inodes[i].owner.value in s.procs ==> !Marks(s.procs[s.inodes[i].owner.value], i))
    && (Linked(s, s.inodes[i].path, i) || exists c :: c in s.procs && Wants(s.procs[c], i))
  }

  /** The lock file in the directory is stale. */
  ghost predicate Blocked(s: State, p: nat) {
    p in s.link && s.link[p] in s.inodes && s.inodes[s.link[p]].stale
  }

  /** A path has at most one live file, and no other that is not stale is in the
      directory. */
  ghost predicate LiveOk(s: State) {
    && (forall i | Live(s, i) :: Linked(s, s.inodes[i].path, i) || Blocked(s, s.inodes[i].path))
    && (forall i, k | Live(s, i) && Live(s, k) && s.inodes[i].path == s.inodes[k].path :: i == k)
  }

  ghost predicate OtherLive(s: State, p: nat, i: nat) {
    exists k :: k != i && Live(s, k) && s.inodes[k].path == p
  }

  ghost predicate Awaited(s: State, i: nat) {
    exists d :: d in s.procs && s.procs[d].step == Waiting(i)
  }

  /** The process dies after it has unlinked a lock file and before it marks it. */
  ghost predicate DiesMarking(s: State, l: Label) {
    && l.Die? && l.c in s.procs && var me := s.procs[l.c];
    && me.step.Marking? && me.step.r < |me.fds| && me.step.r < |me.paths| && me.fds[me.step.r] in s.inodes
    && !s.inodes[me.fds[me.step.r]].stale && !Linked(s, me.paths[me.step.r], me.fds[me.step.r])
  }

  /** ... while another process waits for that file, and a new one can lock the
      path by its name, or has another live file of it. */
  ghost predicate Harmful(s: State, l: Label) {
    && DiesMarking(s, l) && var me := s.procs[l.c]; var p, i := me.paths[me.step.r], me.fds[me.step.r];
    Awaited(s, i) && (!Blocked(s, p) || OtherLive(s, p, i))
  }

  /** A process that has not given up a descriptor has a live file. */
  lemma WantedIsLive(s: State, c: nat, j: nat)
    requires Sound(s) && c in s.procs && s.procs[c].From() <= j < |s.procs[c].fds|
    ensures Live(s, s.procs[c].fds[j]) && j < |s.procs[c].paths|
    ensures s.inodes[s.procs[c].fds[j]] == Inode(s.procs[c].paths[j], false, Some(c))
  {
    var me := s.procs[c];
    assert ProcessOk(s, c, me) && Owned(s, c, me.paths[j], me.fds[j]);
    assert Wants(me, me.fds[j]);
    if Marks(me, me.fds[j]) {
      FdsDiffer(s, c, me, me.step.r);
    }
  }

  lemma WantsShrinks(s: State, l: Label, i: nat)
    requires Sound(s) && Do(s, l).Some? && Wants(Do(s, l).value.procs[l.c], i) && !l.Begin?
    ensures Wants(s.procs[l.c], i)
            || (l.Open? && (i !in s.inodes || Linked(s, s.inodes[i].path, i))
                && Linked(Do(s, l).value, Do(s, l).value.inodes[i].path, i))
  {
    var me, me' := s.procs[l.c], Do(s, l).value.procs[l.c];
    assert ProcessOk(s, l.c, me) && LinksOk(s);
    hide Sound, FdsOk, Sorted;
    if j :| me'.From() <= j < |me'.fds| && me'.fds[j] == i {
      assert j < |me.fds| ==> me.fds[j] == i;
    }
  }

  /** A new file, or the one its owner dies on. */
  predicate Emerges(s: State, l: Label, i: nat) {
    if i in s.inodes then l.Die? && l.c in s.procs && !s.inodes[i].stale && Marks(s.procs[l.c], i) else l.Open?
  }

  lemma SomeoneWanted(s: State, l: Label, i: nat, c: nat)
    requires Sound(s) && Do(s, l).Some? && i in s.inodes
    requires c in Do(s, l).value.procs && Wants(Do(s, l).value.procs[c], i)
    ensures Linked(s, s.inodes[i].path, i) || exists d :: d in s.procs && Wants(s.procs[d], i)
  {
    if c == l.c && !l.Begin? {
      WantsShrinks(s, l, i);
    }
    hide LockStep, UnlockStep, Sound;
    assert c != l.c ==> c in s.procs && s.procs[c] == Do(s, l).value.procs[c];
  }

  /** What else a live file is, it was before the step. */
  lemma FilesStay(s: State, l: Label, i: nat)
    requires Sound(s) && Do(s, l).Some? && i in Do(s, l).value.inodes
    ensures i !in s.inodes ==> l.Open?
    ensures var t := Do(s, l).value;
            i in s.inodes ==>
              && s.inodes[i].path == t.inodes[i].path && (s.inodes[i].stale ==> t.inodes[i].stale)
              && (Linked(t, t.inodes[i].path, i) ==> Linked(s, s.inodes[i].path, i))
  {
    hide Sound, FdsOk;
  }

  lemma MarkerStays(s: State, l: Label, i: nat)
    requires Sound(s) && Do(s, l).Some? && i in s.inodes && !s.inodes[i].stale && s.inodes[i].owner.Some?
    requires var d := s.inodes[i].owner.value; d in s.procs && Marks(s.procs[d], i) && l != Die(d)
    ensures var t, d := Do(s, l).value, s.inodes[i].owner.value;
            i in t.inodes && t.inodes[i].owner == Some(d)
            && (t.inodes[i].stale || (d in t.procs && Marks(t.procs[d], i)))
  {
    StepIsConfined(s, l);
    assert ProcessOk(s, s.inodes[i].owner.value, s.procs[s.inodes[i].owner.value]);
    hide Sound, FdsOk, Sorted, LockStep;
  }

  /** Nothing else becomes live. */
  lemma LiveShrinks(s: State, l: Label, i: nat)
    requires Sound(s) && Do(s, l).Some? && Live(Do(s, l).value, i)
    ensures Live(s, i) || Emerges(s, l, i)
    ensures i in s.inodes ==> s.inodes[i].path == Do(s, l).value.inodes[i].path
  {
    var t := Do(s, l).value;
    FilesStay(s, l, i);
    if i in s.inodes {
      if c :| c in t.procs && Wants(t.procs[c], i) {
        SomeoneWanted(s, l, i, c);
      }
      if s.inodes[i].owner.Some? && s.inodes[i].owner.value in s.procs && Marks(s.procs[s.inodes[i].owner.value], i)
         && l != Die(s.inodes[i].owner.value) {
        MarkerStays(s, l, i);
      }
    }
    hide Do, Wants, Sound;
  }

  lemma LinksStay(s: State, l: Label, p: nat, i: nat)
    requires Sound(s) && Do(s, l).Some?
    ensures !(l.Unlink? && !l.fails && s.procs[l.c].paths[s.procs[l.c].step.r] == p) ==>
              (Linked(s, p, i) ==> Linked(Do(s, l).value, p, i)) && (Blocked(s, p) ==> Blocked(Do(s, l).value, p))
    ensures l.Unlink? ==> (Blocked(Do(s, l).value, p) ==> Blocked(s, p))
  {
    if l.c in s.procs {
      assert ProcessOk(s, l.c, s.procs[l.c]);
    }
    hide FdsOk, Sorted;
  }

  /** When a path's lock file is unlinked, no live file of the path is left. */
  lemma UnlinkedIsLive(s: State, l: Label, i: nat)
    requires Sound(s) && LiveOk(s) && l.Unlink? && Do(s, l).Some? && Live(Do(s, l).value, i)
    ensures Do(s, l).value.inodes[i].path != s.procs[l.c].paths[s.procs[l.c].step.r]
  {
    var me := s.procs[l.c];
    assert ProcessOk(s, l.c, me);
    WantedIsLive(s, l.c, me.step.r);
    LiveShrinks(s, l, i);
    hide LockStep, Sound, FdsOk, Sorted, Wants;
  }

  lemma WaiterIsAnother(s: State, c: nat, i: nat, d: nat)
    requires Sound(s) && i in s.inodes && s.inodes[i].owner == Some(c) && d in s.procs && d != c && Wants(s.procs[d], i)
    ensures s.procs[d].step == Waiting(i)
  {
    var me := s.procs[d];
    assert ProcessOk(s, d, me);
    if j :| me.From() <= j < |me.fds| && me.fds[j] == i {
      assert Owned(s, d, me.paths[j], me.fds[j]);
    }
  }

  /** A file outlives the one who was about to mark it only in the directory or
      in the hands of somebody who waits for it. */
  lemma SurvivorIsAwaited(s: State, l: Label, i: nat)
    requires Sound(s) && l.Die? && Do(s, l).Some? && i in s.inodes && !s.inodes[i].stale && Marks(s.procs[l.c], i)
    requires Live(Do(s, l).value, i) && !Linked(s, s.inodes[i].path, i)
    ensures DiesMarking(s, l) && Awaited(s, i) && s.inodes[i].path == s.procs[l.c].paths[s.procs[l.c].step.r]
  {
    var me, t := s.procs[l.c], Do(s, l).value;
    assert ProcessOk(s, l.c, me) && Owned(s, l.c, me.paths[me.step.r], i);
    var d :| d in t.procs && Wants(t.procs[d], i);
    assert d != l.c;
    WaiterIsAnother(s, l.c, i, d);
    hide Sound, FdsOk, Sorted, Wants;
  }

  lemma DyingFile(s: State, l: Label, i: nat)
    requires Sound(s) && l.Die? && Do(s, l).Some? && i in s.inodes && !s.inodes[i].stale && Marks(s.procs[l.c], i)
    requires Live(Do(s, l).value, i) && !Harmful(s, l)
    ensures Linked(s, s.inodes[i].path, i) || (Blocked(s, s.inodes[i].path) && !OtherLive(s, s.inodes[i].path, i))
  {
    if !Linked(s, s.inodes[i].path, i) {
      SurvivorIsAwaited(s, l, i);
    }
    hide Do, Sound, Live, OtherLive, Awaited;
  }

  lemma LiveStaysLinked(s: State, l: Label, i: nat)
    requires Sound(s) && LiveOk(s) && Do(s, l).Some? && !Harmful(s, l) && Live(Do(s, l).value, i)
    ensures var t := Do(s, l).value; Linked(t, t.inodes[i].path, i) || Blocked(t, t.inodes[i].path)
  {
    var t := Do(s, l).value;
    LiveShrinks(s, l, i);
    if l.Unlink? { UnlinkedIsLive(s, l, i); }
    LinksStay(s, l, t.inodes[i].path, i);
    if !Live(s, i) && i in s.inodes {
      DyingFile(s, l, i);
    }
    hide Sound, Harmful, Blocked, Live, UnlockStep;
  }

  lemma LiveStaysOne(s: State, l: Label, i: nat, k: nat)
    requires Sound(s) && LiveOk(s) && Do(s, l).Some? && !Harmful(s, l)
    requires Live(Do(s, l).value, i) && Live(Do(s, l).value, k)
    requires Do(s, l).value.inodes[i].path == Do(s, l).value.inodes[k].path && !Live(s, i)
    ensures i == k
  {
    LiveShrinks(s, l, i);
    LiveShrinks(s, l, k);
    if i in s.inodes {
      DyingFile(s, l, i);
    }
    hide Sound, Harmful, Live, UnlockStep;
  }

  lemma LiveOkKept(s: State, l: Label)
    requires Sound(s) && LiveOk(s) && Do(s, l).Some? && !Harmful(s, l)
    ensures LiveOk(Do(s, l).value)
  {
    var t := Do(s, l).value;
    forall i | Live(t, i) ensures Linked(t, t.inodes[i].path, i) || Blocked(t, t.inodes[i].path) {
      LiveStaysLinked(s, l, i);
    }
    forall i, k | Live(t, i) && Live(t, k) && t.inodes[i].path == t.inodes[k].path ensures i == k {
      if !Live(s, i) {
        LiveStaysOne(s, l, i, k);
      } else if !Live(s, k) {
        LiveStaysOne(s, l, k, i);
      } else {
        LiveShrinks(s, l, i);
        LiveShrinks(s, l, k);
      }
    }
    hide Do, Harmful, Live, Sound;
  }

  // ---------------------------------------------------------------------
  // Mutual exclusion.

  ghost predicate HoldsPath(s: State, c: nat, p: nat) {
    c in s.procs && s.procs[c].Holds(p)
  }

  /** No process dies in a way that harms. */
  ghost predicate Orderly(s: State, ls: seq<Label>) {
    ls == [] ||
    (Orderly(s, ls[..|ls| - 1])
     && (Run(Do, s, ls[..|ls| - 1]).Some? ==> !Harmful(Run(Do, s, ls[..|ls| - 1]).value, ls[|ls| - 1])))
  }

  lemma {:induction false} LiveOkReached(s: State, ls: seq<Label>)
    requires Sound(s) && OwnersKnow(s) && LiveOk(s) && Orderly(s, ls)
    ensures Run(Do, s, ls).Some? ==> LiveOk(Run(Do, s, ls).value)
  {
    hide Sound, Do, Harmful, OwnersKnow, LiveOk;
    if ls != [] {
      LiveOkReached(s, ls[..|ls| - 1]);
      SoundReached(s, ls[..|ls| - 1]);
      if Run(Do, s, ls).Some? {
        LiveOkKept(Run(Do, s, ls[..|ls| - 1]).value, ls[|ls| - 1]);
      }
    }
  }

  lemma HoldersAgree(s: State, c: nat, d: nat, p: nat)
    requires Sound(s) && LiveOk(s) && HoldsPath(s, c, p) && HoldsPath(s, d, p)
    ensures c == d
  {
    var j :| s.procs[c].From() <= j < |s.procs[c].fds| && j < |s.procs[c].paths| && s.procs[c].paths[j] == p;
    var k :| s.procs[d].From() <= k < |s.procs[d].fds| && k < |s.procs[d].paths| && s.procs[d].paths[k] == p;
    WantedIsLive(s, c, j);
    WantedIsLive(s, d, k);
  }

  /** At most one process holds the lock of a path, in any interleaving. */
  lemma MutualExclusion(s: State, ls: seq<Label>, c: nat, d: nat, p: nat)
    requires Init(s) && Orderly(s, ls)
    ensures var t := Run(Do, s, ls);
            t.Some? && HoldsPath(t.value, c, p) && HoldsPath(t.value, d, p) ==> c == d
  {
    InitIsSound(s);
    InitIsLiveOk(s);
    LiveOkReached(s, ls);
    SoundReached(s, ls);
    var t := Run(Do, s, ls);
    hide Sound, OwnersKnow, LiveOk, Init, Orderly, Run, Do;
    if t.Some? && HoldsPath(t.value, c, p) && HoldsPath(t.value, d, p) {
      HoldersAgree(t.value, c, d, p);
    }
  }

  lemma InitIsLiveOk(s: State)
    requires Init(s)
    ensures LiveOk(s)
  {
  }

  // ---------------------------------------------------------------------
  // The other half: a harmful death has a continuation with two holders.

  /** `c` waits for a file of `p` that is not stale. */
  ghost predicate Queues(s: State, c: nat, p: nat, i: nat) {
    && c in s.procs && s.procs[c].step == Waiting(i) && i in s.inodes && s.inodes[i].path == p && !s.inodes[i].stale
  }

  /** `c` has added the file `i` of the path `p`; nothing else has changed. */
  ghost predicate Took(s: State, t: State, c: nat, p: nat, i: nat) {
    && HoldsPath(t, c, p) && c in s.procs && i in t.inodes && t.link == s.link
    && (forall d | d in s.procs && d != c :: d in t.procs && t.procs[d] == s.procs[d])
    && (forall k | k in s.inodes && k != i :: k in t.inodes && t.inodes[k] == s.inodes[k])
    && t.procs[c].fds == s.procs[c].fds + [i] && t.procs[c].paths == s.procs[c].paths
    && (t.procs[c].step.Holding? || t.procs[c].step.Opening?)
  }

  /** A waiter for a free file takes the lock; nobody else moves. */
  lemma LocksAndChecks(s: State, c: nat, p: nat, i: nat)
    requires Sound(s) && Queues(s, c, p, i) && s.inodes[i].owner.None?
    ensures var t := Do(s, Flock(c)); t.Some? && Do(t.value, CheckSize(c)).Some?
    ensures Took(s, Do(Do(s, Flock(c)).value, CheckSize(c)).value, c, p, i)
  {
    var me := s.procs[c];
    assert ProcessOk(s, c, me);
    hide UnlockStep, Sound, FdsOk, Sorted;
    var t := Do(Do(s, Flock(c)).value, CheckSize(c)).value;
    assert t.procs[c].fds[|me.fds|] == i && t.procs[c].paths[|me.fds|] == p;
  }

  lemma WaiterTakes(s: State, before: seq<Label>, c: nat, p: nat, i: nat) returns (ls: seq<Label>, t: State)
    requires Run(Do, s, before).Some?
    requires var u := Run(Do, s, before).value; Sound(u) && Queues(u, c, p, i) && u.inodes[i].owner.None?
    ensures before <= ls && Run(Do, s, ls) == Some(t) && Took(Run(Do, s, before).value, t, c, p, i)
    ensures forall n | |before| <= n < |ls| :: ls[n].c == c
  {
    LocksAndChecks(Run(Do, s, before).value, c, p, i);
    hide Run, Do, Took;
    ls, t := Extend(Do, s, before, Flock(c));
    ls, t := Extend(Do, s, ls, CheckSize(c));
  }

  /** The owner of a file somebody waits for is neither that process nor one
      that holds another file of the path. */
  lemma OwnerIsThird(s: State, c: nat, p: nat, i: nat, d: nat, j: nat)
    requires Sound(s) && OwnersKnow(s) && Queues(s, c, p, i) && s.inodes[i].owner.Some?
    requires d in s.procs && (s.procs[d].step.Holding? || s.procs[d].step.Opening?)
    requires j < |s.procs[d].fds| && s.procs[d].fds[j] != i && j < |s.procs[d].paths| && s.procs[d].paths[j] == p
    ensures s.inodes[i].owner.value in s.procs && s.inodes[i].owner.value != c && s.inodes[i].owner.value != d
  {
    var f := s.inodes[i].owner.value;
    var me := s.procs[f];
    assert ProcessOk(s, f, me) && Keeps(me, i);
    if k :| me.OpenFrom() <= k < |me.fds| && me.fds[k] == i {
      assert Owned(s, f, me.paths[k], me.fds[k]);
    }
  }

  /** While one process holds a file of the path, another that waits for a
      different one takes that too, after its owner's death if it has one. */
  lemma SecondTakes(s: State, before: seq<Label>, d: nat, j: nat, c: nat, p: nat, i: nat)
      returns (ls: seq<Label>, t: State)
    requires Sound(s) && OwnersKnow(s) && Run(Do, s, before).Some? && c != d
    requires var u := Run(Do, s, before).value;
             && Queues(u, c, p, i) && d in u.procs && (u.procs[d].step.Holding? || u.procs[d].step.Opening?)
             && j < |u.procs[d].fds| && u.procs[d].fds[j] != i && j < |u.procs[d].paths| && u.procs[d].paths[j] == p
    ensures before <= ls && Run(Do, s, ls) == Some(t) && HoldsPath(t, d, p) && HoldsPath(t, c, p)
  {
    var u := Run(Do, s, before).value;
    SoundReached(s, before);
    ls, t := before, u;
    if u.inodes[i].owner.Some? {
      OwnerIsThird(u, c, p, i, d, j);
      hide Run, LockStep;
      ls, t := Extend(Do, s, ls, Die(u.inodes[i].owner.value));
    }
    SoundReached(s, ls);
    hide Run, Do, Sound, OwnersKnow;
    assert t.procs[d] == u.procs[d];
    ls, t := WaiterTakes(s, ls, c, p, i);
  }

  /** A new process opens the lock file of the path by its name. */
  lemma NewcomerQueues(s: State, before: seq<Label>, p: nat) returns (ls: seq<Label>, t: State, c: nat, i: nat)
    requires Run(Do, s, before).Some? && LinksOk(Run(Do, s, before).value) && !Blocked(Run(Do, s, before).value, p)
    ensures before <= ls && Run(Do, s, ls) == Some(t) && Queues(t, c, p, i)
    ensures var u := Run(Do, s, before).value;
            && c !in u.procs && (forall d | d in u.procs :: d in t.procs && t.procs[d] == u.procs[d])
            && (if p in u.link then i == u.link[p] else i !in u.inodes)
  {
    var u := Run(Do, s, before).value;
    c := Outside(u.procs.Keys);
    i := Outside(u.inodes.Keys);
    i := if p in u.link then u.link[p] else i;
    hide Run, UnlockStep;
    ls, t := Extend(Do, s, before, Begin(c, [p], true, true));
    assert t.link == u.link && t.inodes == u.inodes;
    ls, t := Extend(Do, s, ls, Open(c, i));
  }

  /** While one process holds a file of the path that is not in the directory, a
      new process gets another one by its name. */
  lemma NewcomerTakes(s: State, before: seq<Label>, d: nat, j: nat, p: nat) returns (ls: seq<Label>, t: State, c: nat)
    requires Sound(s) && OwnersKnow(s) && Run(Do, s, before).Some?
    requires var u := Run(Do, s, before).value;
             && d in u.procs && (u.procs[d].step.Holding? || u.procs[d].step.Opening?)
             && j < |u.procs[d].fds| && u.procs[d].fds[j] in u.inodes && !Linked(u, p, u.procs[d].fds[j])
             && j < |u.procs[d].paths| && u.procs[d].paths[j] == p && !Blocked(u, p)
    ensures before <= ls && Run(Do, s, ls) == Some(t) && c != d && HoldsPath(t, d, p) && HoldsPath(t, c, p)
  {
    SoundReached(s, before);
    hide Run, Do, Sound, OwnersKnow, Blocked, Queues;
    var i;
    assert LinksOk(Run(Do, s, before).value) by { SoundMeansLinks(Run(Do, s, before).value); }
    ls, t, c, i := NewcomerQueues(s, before, p);
    ls, t := SecondTakes(s, ls, d, j, c, p, i);
  }

  lemma SoundMeansLinks(s: State)
    requires Sound(s)
    ensures LinksOk(s)
  {
  }

  /** Whoever wants another live file of the path is neither the process that
      unlinks nor one that waits for the unlinked file. */
  lemma OtherWants(s: State, c: nat, r: nat, d: nat, k: nat) returns (g: nat)
    requires Sound(s) && c in s.procs && s.procs[c].step == Marking(r) && r < |s.procs[c].fds| && r < |s.procs[c].paths|
    requires s.procs[c].fds[r] != k && d in s.procs && s.procs[d].step == Waiting(s.procs[c].fds[r])
    requires Live(s, k) && s.inodes[k].path == s.procs[c].paths[r] && !Linked(s, s.inodes[k].path, k)
    ensures g != c && g != d && g in s.procs && Wants(s.procs[g], k)
  {
    g :| g in s.procs && Wants(s.procs[g], k);
    var me := s.procs[g];
    assert ProcessOk(s, g, me) && ProcessOk(s, c, s.procs[c]);
    assert Owned(s, c, s.procs[c].paths[r], s.procs[c].fds[r]);
    if j :| me.From() <= j < |me.fds| && me.fds[j] == k {
      assert Owned(s, g, me.paths[j], me.fds[j]);
    }
  }

  /** Whoever wants a file of the path that another process' file is not, comes
      to hold the path beside it. */
  lemma WanterTakes(s: State, before: seq<Label>, d: nat, j: nat, c: nat, p: nat, i: nat)
      returns (ls: seq<Label>, t: State)
    requires Sound(s) && OwnersKnow(s) && Run(Do, s, before).Some? && c != d
    requires var u := Run(Do, s, before).value;
             && c in u.procs && Wants(u.procs[c], i) && i in u.inodes && u.inodes[i].path == p && !u.inodes[i].stale
             && d in u.procs && (u.procs[d].step.Holding? || u.procs[d].step.Opening?)
             && j < |u.procs[d].fds| && u.procs[d].fds[j] != i && j < |u.procs[d].paths| && u.procs[d].paths[j] == p
    ensures before <= ls && Run(Do, s, ls) == Some(t) && HoldsPath(t, d, p) && HoldsPath(t, c, p)
  {
    var u := Run(Do, s, before).value;
    var me := u.procs[c];
    SoundReached(s, before);
    assert ProcessOk(u, c, me);
    hide Run, UnlockStep, OwnersKnow, Sorted;
    if me.step == Waiting(i) {
      ls, t := SecondTakes(s, before, d, j, c, p, i);
    } else if me.step == Checking(i) {
      hide Sound, FdsOk;
      ls, t := Extend(Do, s, before, CheckSize(c));
      assert t.procs[c].fds[|me.fds|] == i && t.procs[c].paths[|me.fds|] == p;
    } else {
      ls, t := before, u;
      var k :| me.From() <= k < |me.fds| && me.fds[k] == i;
      assert Owned(u, c, me.paths[k], i);
    }
  }

  /** `c` is gone, and the file `i` of the path `p` is free. */
  ghost predicate Freed(s: State, t: State, c: nat, p: nat, i: nat) {
    && t.link == s.link && t.inodes.Keys == s.inodes.Keys && i in t.inodes && t.inodes[i] == Inode(p, false, None)
    && (forall k | k in s.inodes :: t.inodes[k].path == s.inodes[k].path && t.inodes[k].stale == s.inodes[k].stale)
    && t.procs.Keys == s.procs.Keys && (forall d | d in s.procs && d != c :: t.procs[d] == s.procs[d])
  }

  lemma DeathFrees(s: State, c: nat, p: nat, i: nat)
    requires Sound(s) && DiesMarking(s, Die(c))
    requires p == s.procs[c].paths[s.procs[c].step.r] && i == s.procs[c].fds[s.procs[c].step.r]
    ensures Do(s, Die(c)).Some? && Freed(s, Do(s, Die(c)).value, c, p, i)
  {
    assert ProcessOk(s, c, s.procs[c]);
    assert Owned(s, c, p, i);
    hide Sound, FdsOk, Sorted, LockStep;
  }

  /** `d` holds `p` with the file `i`, its descriptor `j`; all but the files and
      processes named are as they were. */
  ghost predicate Survived(s: State, t: State, c: nat, d: nat, j: nat, p: nat, i: nat) {
    && d in t.procs && (t.procs[d].step.Holding? || t.procs[d].step.Opening?)
    && j < |t.procs[d].fds| && t.procs[d].fds[j] == i
    && j < |t.procs[d].paths| && t.procs[d].paths[j] == p && t.link == s.link && i in t.inodes
    && (forall k | k in s.inodes && k != i ::
          k in t.inodes && t.inodes[k].path == s.inodes[k].path && t.inodes[k].stale == s.inodes[k].stale)
    && (forall e | e in s.procs && e != c && e != d :: e in t.procs && t.procs[e] == s.procs[e])
  }

  lemma FreedThenTook(s: State, u: State, t: State, c: nat, d: nat, p: nat, i: nat)
    requires Freed(s, u, c, p, i) && Took(u, t, d, p, i) && d in s.procs && d != c
    requires |s.procs[d].fds| < |s.procs[d].paths| && s.procs[d].paths[|s.procs[d].fds|] == p
    ensures Survived(s, t, c, d, |s.procs[d].fds|, p, i)
  {
  }

  /** The waiter takes the file the dead process has unlinked. */
  lemma WaiterInherits(s: State, c: nat, d: nat, p: nat, i: nat) returns (ls: seq<Label>, t: State, j: nat)
    requires Sound(s) && DiesMarking(s, Die(c)) && p == s.procs[c].paths[s.procs[c].step.r]
    requires i == s.procs[c].fds[s.procs[c].step.r] && d in s.procs && s.procs[d].step == Waiting(i)
    ensures Run(Do, s, ls) == Some(t) && Survived(s, t, c, d, j, p, i) && [Die(c)] <= ls && HoldsPath(t, d, p)
  {
    DeathFrees(s, c, p, i);
    SoundKept(s, Die(c));
    PathOfWaiter(s, d, i);
    Nothing(Do, s);
    hide Run, Do, Sound;
    var u;
    ls, u := Extend(Do, s, [], Die(c));
    assert Queues(u, d, p, i);
    ls, t := WaiterTakes(s, ls, d, p, i);
    j := |s.procs[d].fds|;
    FreedThenTook(s, u, t, c, d, p, i);
    hide Freed, Survived;
  }

  /** Mutual exclusion fails after every harmful death, in some continuation. */
  lemma HarmfulDeathIsUnsafe(s: State, c: nat) returns (ls: seq<Label>, t: State, d: nat, e: nat, p: nat)
    requires Sound(s) && OwnersKnow(s) && Harmful(s, Die(c))
    ensures p == s.procs[c].paths[s.procs[c].step.r]
    ensures Run(Do, s, [Die(c)] + ls) == Some(t) && d != e && HoldsPath(t, d, p) && HoldsPath(t, e, p)
  {
    hide Run, Do, OwnersKnow;
    var me := s.procs[c];
    var r := me.step.r;
    p := me.paths[r];
    d :| d in s.procs && s.procs[d].step == Waiting(me.fds[r]);
    var j;
    ls, t, j := WaiterInherits(s, c, d, p, me.fds[r]);
    if !Blocked(s, p) {
      hide Sound;
      assert !Blocked(t, p);
      ls, t, e := NewcomerTakes(s, ls, d, j, p);
    } else {
      var k :| k != me.fds[r] && Live(s, k) && s.inodes[k].path == p;
      e := OtherWants(s, c, r, d, k);
      hide Sound, Live;
      ls, t := WanterTakes(s, ls, d, j, e, p, k);
    }
    assert ls == [Die(c)] + ls[1..];
    ls := ls[1..];
  }

  lemma PathOfWaiter(s: State, d: nat, i: nat)
    requires Sound(s) && d in s.procs && s.procs[d].step == Waiting(i)
    ensures i in s.inodes && |s.procs[d].fds| < |s.procs[d].paths|
    ensures s.procs[d].paths[|s.procs[d].fds|] == s.inodes[i].path
  {
    assert ProcessOk(s, d, s.procs[d]);
  }

  // ---------------------------------------------------------------------
  // An unlink that fails.

  /** The file is marked although it is still in the directory. */
  predicate MarksLinked(s: State, l: Label, p: nat) {
    && l.Mark? && l.c in s.procs && var me := s.procs[l.c];
    && me.step.Marking? && me.step.r < |me.fds| && me.step.r < |me.paths|
    && me.paths[me.step.r] == p && Linked(s, p, me.fds[me.step.r])
  }

  /** Exactly so does a path become blocked. */
  lemma BlockedByMarking(s: State, l: Label, p: nat)
    requires Sound(s) && Do(s, l).Some? && !Blocked(s, p)
    ensures Blocked(Do(s, l).value, p) <==> MarksLinked(s, l, p)
  {
    if l.c in s.procs {
      assert ProcessOk(s, l.c, s.procs[l.c]) && LinksOk(s);
      if l.Mark? && s.procs[l.c].step.Marking? {
        assert Owned(s, l.c, s.procs[l.c].paths[s.procs[l.c].step.r], s.procs[l.c].fds[s.procs[l.c].step.r]);
      }
    }
    hide FdsOk, Sorted, Sound;
  }

  /** Whoever is about to mark a file has removed it from the directory. */
  ghost predicate Removed(s: State) {
    forall c | c in s.procs && s.procs[c].step.Marking? && s.procs[c].step.r < |s.procs[c].fds| ::
      !exists p :: Linked(s, p, s.procs[c].fds[s.procs[c].step.r])
  }

  lemma StaysRemoved(s: State, l: Label, c: nat, p: nat)
    requires Sound(s) && Removed(s) && Do(s, l).Some? && !(l.Unlink? && l.fails)
    requires var t := Do(s, l).value; c in t.procs && t.procs[c].step.Marking? && t.procs[c].step.r < |t.procs[c].fds|
    ensures var t := Do(s, l).value; !Linked(t, p, t.procs[c].fds[t.procs[c].step.r])
  {
    var t := Do(s, l).value;
    var r := t.procs[c].step.r;
    assert c in s.procs && ProcessOk(s, c, s.procs[c]) && LinksOk(s);
    assert s.procs[c].OpenFrom() <= r < |s.procs[c].fds| && s.procs[c].fds[r] == t.procs[c].fds[r];
    assert Owned(s, c, s.procs[c].paths[r], s.procs[c].fds[r]);
    hide FdsOk, Sorted, Sound, ProcessOk;
    assert Linked(t, p, t.procs[c].fds[r]) ==> Linked(s, p, s.procs[c].fds[r]);
  }

  lemma RemovedKept(s: State, l: Label)
    requires Sound(s) && Do(s, l).Some? && !(l.Unlink? && l.fails)
    ensures Removed(s) ==> Removed(Do(s, l).value)
  {
    if Removed(s) {
      var t := Do(s, l).value;
      forall c, p | c in t.procs && t.procs[c].step.Marking? && t.procs[c].step.r < |t.procs[c].fds|
        ensures !Linked(t, p, t.procs[c].fds[t.procs[c].step.r])
      {
        StaysRemoved(s, l, c, p);
      }
    }
    hide Do, Sound;
  }

  /** If every unlink succeeds, no path is ever blocked. */
  lemma {:induction false} UnblockedWithoutFailure(s: State, ls: seq<Label>)
    requires Init(s) && (forall p :: !Blocked(s, p)) && (forall c :: Unlink(c, true) !in ls)
    ensures var t := Run(Do, s, ls);
            t.Some? ==> Removed(t.value) && forall p :: !Blocked(t.value, p)
  {
    if ls != [] {
      var front, l := Run(Do, s, ls[..|ls| - 1]), ls[|ls| - 1];
      UnblockedWithoutFailure(s, ls[..|ls| - 1]);
      InitIsSound(s);
      SoundReached(s, ls[..|ls| - 1]);
      if Run(Do, s, ls).Some? {
        assert !(l.Unlink? && l.fails) by { assert l in ls; }
        RemovedKept(front.value, l);
        forall p ensures !Blocked(Do(front.value, l).value, p) {
          BlockedByMarking(front.value, l, p);
        }
      }
      hide Do, Blocked, Sound, OwnersKnow, Init;
    }
  }

  /** The path is blocked, and nobody can come to hold it. */
  ghost predicate Stuck(s: State, p: nat) {
    Blocked(s, p) && forall i | Live(s, i) :: s.inodes[i].path != p
  }

  /** When the unlink fails, the file is marked stale all the same, and the path
      is stuck. */
  lemma FailedUnlinkSticks(s: State, c: nat)
    requires Sound(s) && LiveOk(s) && Do(s, Unlink(c, true)).Some?
    ensures var t := Do(Do(s, Unlink(c, true)).value, Mark(c));
            t.Some? && Stuck(t.value, s.procs[c].paths[s.procs[c].step.r])
  {
    var me := s.procs[c];
    var p, u := me.paths[me.step.r], Do(s, Unlink(c, true)).value;
    assert ProcessOk(s, c, me);
    WantedIsLive(s, c, me.step.r);
    SoundKept(s, Unlink(c, true));
    assert Do(u, Mark(c)).Some?;
    var t := Do(u, Mark(c)).value;
    assert Blocked(t, p);
    forall i | Live(t, i) ensures t.inodes[i].path != p {
      LiveShrinks(u, Mark(c), i);
      LiveShrinks(s, Unlink(c, true), i);
    }
    hide FdsOk, Sorted, Sound, LockStep, Wants;
  }

  /** The process dies on an unlinked file of `p` that another one waits for. */
  ghost predicate Revives(s: State, l: Label, p: nat) {
    && DiesMarking(s, l) && s.procs[l.c].paths[s.procs[l.c].step.r] == p
    && Awaited(s, s.procs[l.c].fds[s.procs[l.c].step.r])
  }

  lemma StuckKept(s: State, l: Label, p: nat)
    requires Sound(s) && Do(s, l).Some? && Stuck(s, p) && !Revives(s, l, p)
    ensures Stuck(Do(s, l).value, p)
  {
    var t := Do(s, l).value;
    LinksStay(s, l, p, s.link[p]);
    if l.Unlink? {
      assert ProcessOk(s, l.c, s.procs[l.c]);
      WantedIsLive(s, l.c, s.procs[l.c].step.r);
    }
    forall i | Live(t, i) ensures t.inodes[i].path != p {
      LiveShrinks(s, l, i);
      if !Live(s, i) && i in s.inodes && !Linked(s, s.inodes[i].path, i) {
        SurvivorIsAwaited(s, l, i);
      }
      hide Live, Sound, UnlockStep, Awaited;
    }
    hide Live, Sound, LockStep, UnlockStep, Awaited;
  }

  ghost predicate Unrevived(s: State, ls: seq<Label>, p: nat) {
    ls == [] ||
    (Unrevived(s, ls[..|ls| - 1], p)
     && (Run(Do, s, ls[..|ls| - 1]).Some? ==> !Revives(Run(Do, s, ls[..|ls| - 1]).value, ls[|ls| - 1], p)))
  }

  /** From then on nobody ever holds the lock of that path again, unless such a
      death revives it. */
  lemma {:induction false} StuckForGood(s: State, ls: seq<Label>, p: nat)
    requires Sound(s) && OwnersKnow(s) && Stuck(s, p) && Unrevived(s, ls, p)
    ensures var t := Run(Do, s, ls);
            t.Some? ==> Stuck(t.value, p) && forall c :: !HoldsPath(t.value, c, p)
  {
    SoundReached(s, ls);
    hide Do, OwnersKnow, Revives, Live;
    if ls != [] && Run(Do, s, ls).Some? {
      StuckForGood(s, ls[..|ls| - 1], p);
      SoundReached(s, ls[..|ls| - 1]);
      StuckKept(Run(Do, s, ls[..|ls| - 1]).value, ls[|ls| - 1], p);
    }
    var t := Run(Do, s, ls);
    hide Sound, Unrevived, Run;
    if t.Some? {
      forall c ensures !HoldsPath(t.value, c, p) {
        if HoldsPath(t.value, c, p) {
          HolderIsLive(t.value, c, p);
        }
      }
    }
  }

  lemma HolderIsLive(s: State, c: nat, p: nat)
    requires Sound(s) && HoldsPath(s, c, p)
    ensures exists i :: Live(s, i) && s.inodes[i].path == p
  {
    var j :| s.procs[c].From() <= j < |s.procs[c].fds| && j < |s.procs[c].paths| && s.procs[c].paths[j] == p;
    WantedIsLive(s, c, j);
    hide Live, Sound;
  }

  /** After such a death the one that waits can take the lock. */
  lemma RevivedIsHeld(s: State, c: nat, p: nat) returns (ls: seq<Label>, t: State, d: nat)
    requires Sound(s) && Revives(s, Die(c), p)
    ensures Run(Do, s, ls) == Some(t) && [Die(c)] <= ls && HoldsPath(t, d, p)
  {
    hide Run, Do, Sound;
    var i := s.procs[c].fds[s.procs[c].step.r];
    d :| d in s.procs && s.procs[d].step == Waiting(i);
    var j;
    ls, t, j := WaiterInherits(s, c, d, p, i);
  }

  // ---------------------------------------------------------------------
  // A harmful death can happen.

  ghost predicate At(s: State, c: nat, fds: seq<nat>, step: Step) {
    c in s.procs && s.procs[c] == Process([0], true, true, fds, step)
  }

  ghost predicate Free(s: State, i: nat, owner: Option<nat>) {
    i in s.inodes && s.inodes[i] == Inode(0, false, owner)
  }

  /** The first process takes the lock. */
  lemma FirstHolds(s: State) returns (ls: seq<Label>, t: State)
    requires s == State(map[], map[], map[])
    ensures Run(Do, s, ls) == Some(t) && At(t, 0, [0], Holding) && Free(t, 0, Some(0))
    ensures Linked(t, 0, 0) && t.inodes.Keys == {0} && t.procs.Keys == {0}
  {
    hide Run, UnlockStep;
    Nothing(Do, s);
    ls, t := Extend(Do, s, [], Begin(0, [0], true, true));
    ls, t := Extend(Do, s, ls, Open(0, 0));
    ls, t := Extend(Do, s, ls, Flock(0));
    ls, t := Extend(Do, s, ls, CheckSize(0));
  }

  /** Another process opens the same file and waits for it. */
  lemma SecondWaits(s: State, before: seq<Label>) returns (ls: seq<Label>, t: State)
    requires Run(Do, s, before).Some?
    requires var u := Run(Do, s, before).value;
             && At(u, 0, [0], Holding) && Free(u, 0, Some(0)) && Linked(u, 0, 0)
             && u.inodes.Keys == {0} && u.procs.Keys == {0}
    ensures Run(Do, s, ls) == Some(t) && At(t, 0, [0], Holding) && At(t, 1, [], Waiting(0)) && Free(t, 0, Some(0))
  {
    hide Run, UnlockStep;
    ls, t := Extend(Do, s, before, Begin(1, [0], true, true));
    ls, t := Extend(Do, s, ls, Open(1, 0));
  }

  /** The first process unlinks the file. */
  lemma FirstUnlinks(s: State, before: seq<Label>) returns (ls: seq<Label>, t: State)
    requires Run(Do, s, before).Some?
    requires var u := Run(Do, s, before).value;
             At(u, 0, [0], Holding) && Free(u, 0, Some(0)) && At(u, 1, [], Waiting(0))
    ensures Run(Do, s, ls) == Some(t) && At(t, 0, [0], Marking(0)) && At(t, 1, [], Waiting(0)) && Free(t, 0, Some(0))
    ensures 0 !in t.link
  {
    hide Run, LockStep;
    ls, t := Extend(Do, s, before, Unlock(0));
    ls, t := Extend(Do, s, ls, Unlink(0, false));
  }

  /** From nothing: a process that dies after unlinking the lock file and before
      marking it leaves two holders. */
  lemma DyingBeforeMarkingIsUnsafe() returns (s: State, ls: seq<Label>, d: nat, e: nat)
    ensures Init(s) && Run(Do, s, ls).Some? && d != e
    ensures HoldsPath(Run(Do, s, ls).value, d, 0) && HoldsPath(Run(Do, s, ls).value, e, 0)
  {
    s := State(map[], map[], map[]);
    InitIsSound(s);
    hide Run, Do, Sound, OwnersKnow;
    var t;
    ls, t := FirstHolds(s);
    ls, t := SecondWaits(s, ls);
    ls, t := FirstUnlinks(s, ls);
    SoundReached(s, ls);
    assert Harmful(t, Die(0)) by { assert Awaited(t, 0); }
    hide Harmful, HoldsPath, Init;
    var rest, u, p;
    rest, u, d, e, p := HarmfulDeathIsUnsafe(t, 0);
    Append(Do, s, ls, [Die(0)] + rest);
    ls, t := ls + ([Die(0)] + rest), u;
  }

  // ---------------------------------------------------------------------
  // Who may delete a lock file.

  /** Only a process that was told to delete its lock files removes a link or
      marks a file. */
  lemma OnlyDeletersDelete(s: State, l: Label)
    requires Sound(s) && Do(s, l).Some?
    ensures var t := Do(s, l).value;
            (exists p :: p in s.link && !Linked(t, p, s.link[p])) ==>
              l.Unlink? && !l.fails && s.procs[l.c].deletePaths
    ensures var t := Do(s, l).value;
            (exists i :: i in s.inodes && t.inodes[i].stale != s.inodes[i].stale) ==>
              l.Mark? && s.procs[l.c].deletePaths
    ensures var t := Do(s, l).value;
            s.inodes.Keys <= t.inodes.Keys && forall i | i in t.inodes && i !in s.inodes :: !t.inodes[i].stale
  {
    if l.c in s.procs {
      assert ProcessOk(s, l.c, s.procs[l.c]);
    }
    hide Sound, FdsOk, Sorted;
  }

  /** No process at work deletes its lock files. */
  ghost predicate NobodyDeletes(s: State) {
    forall c | c in s.procs && s.procs[c].deletePaths :: s.procs[c].step.Idle?
  }

  predicate AsksToDelete(l: Label) {
    (l.Begin? || l.SetDeletion?) && l.deletePaths
  }

  lemma NobodyDeletesKept(s: State, l: Label)
    requires NobodyDeletes(s) && Do(s, l).Some? && !AsksToDelete(l)
    ensures NobodyDeletes(Do(s, l).value)
  {
  }

  /** Every lock file of `s` is where it was and no staler, and no new one is. */
  ghost predicate FilesLeft(s: State, t: State) {
    && (forall p | p in s.link :: Linked(t, p, s.link[p]))
    && (forall i | i in s.inodes :: i in t.inodes && t.inodes[i].stale == s.inodes[i].stale)
    && (forall i | i in t.inodes && i !in s.inodes :: !t.inodes[i].stale)
  }

  lemma StillLeft(s: State, u: State, l: Label)
    requires FilesLeft(s, u) && Sound(u) && Do(u, l).Some?
    requires (l.Unlink? || l.Mark?) ==> !u.procs[l.c].deletePaths
    ensures FilesLeft(s, Do(u, l).value)
  {
    OnlyDeletersDelete(u, l);
    hide Do, Sound;
  }

  /** When nobody is told to delete, no lock file ever goes or becomes stale. */
  lemma {:induction false} FilesAreLeft(s: State, ls: seq<Label>)
    requires Sound(s) && OwnersKnow(s) && NobodyDeletes(s) && forall l | l in ls :: !AsksToDelete(l)
    ensures var t := Run(Do, s, ls);
            t.Some? ==> NobodyDeletes(t.value) && FilesLeft(s, t.value)
  {
    if ls != [] {
      var front, l := Run(Do, s, ls[..|ls| - 1]), ls[|ls| - 1];
      FilesAreLeft(s, ls[..|ls| - 1]);
      SoundReached(s, ls[..|ls| - 1]);
      assert l in ls;
      hide Sound, OwnersKnow, Do, NobodyDeletes;
      if front.Some? && Do(front.value, l).Some? {
        NobodyDeletesKept(front.value, l);
        if l.Unlink? || l.Mark? {
          DeleterAtWork(front.value, l);
        }
        StillLeft(s, front.value, l);
      }
    }
  }

  lemma DeleterAtWork(s: State, l: Label)
    requires Do(s, l).Some? && (l.Unlink? || l.Mark?) && NobodyDeletes(s)
    ensures !s.procs[l.c].deletePaths
  {
  }

  /** In particular from the start, as long as no caller asks for it. */
  lemma NothingIsDeletedUnasked(s: State, ls: seq<Label>)
    requires Init(s) && forall l | l in ls :: !AsksToDelete(l)
    ensures Run(Do, s, ls).Some? ==> FilesLeft(s, Run(Do, s, ls).value)
  {
    InitIsSound(s);
    FilesAreLeft(s, ls);
  }

  // ---------------------------------------------------------------------
  // Getting the locks and giving them back.

  /** The process has released everything, and the others have not moved. */
  ghost predicate Released(s: State, t: State, c: nat) {
    && c in t.procs && t.procs[c].step.Idle? && (forall i | i in t.inodes :: t.inodes[i].owner != Some(c))
    && (forall d | d in s.procs && d != c :: d in t.procs && t.procs[d] == s.procs[d])
  }

  function StepsToRelease(me: Process): nat {
    match me.step
    case Holding => 3 * |me.fds| + 1
    case Unlinking(r) => if r < |me.fds| then 3 * (|me.fds| - r) else 0
    case Marking(r) => if r < |me.fds| then 3 * (|me.fds| - r) - 1 else 0
    case Closing(r) => if r < |me.fds| then 3 * (|me.fds| - r) - 2 else 0
    case _ => 0
  }

  predicate InUnlock(me: Process) {
    me.step.Holding? || me.step.Unlinking? || me.step.Marking? || me.step.Closing?
  }

  predicate OfUnlock(l: Label, c: nat) {
    l.c == c && (l.Unlock? || l == Unlink(c, false) || l.Mark? || l.Close?)
  }

  /** The next step of `unlock`. */
  function UnlockNext(me: Process, c: nat): Label {
    match me.step
    case Unlinking(_) => Unlink(c, false)
    case Marking(_) => Mark(c)
    case Closing(_) => Close(c)
    case _ => Unlock(c)
  }

  lemma UnlockGoesOn(s: State, c: nat)
    requires Sound(s) && c in s.procs && InUnlock(s.procs[c])
    ensures var t := Do(s, UnlockNext(s.procs[c], c));
            && t.Some? && (InUnlock(t.value.procs[c]) || t.value.procs[c].step.Idle?)
            && StepsToRelease(t.value.procs[c]) < StepsToRelease(s.procs[c])
            && t.value.procs.Keys == s.procs.Keys && forall d | d in s.procs && d != c :: t.value.procs[d] == s.procs[d]
  {
    var me := s.procs[c];
    assert ProcessOk(s, c, me);
    if me.step.Marking? {
      assert Owned(s, c, me.paths[me.step.r], me.fds[me.step.r]);
    }
    hide Sound, FdsOk, Sorted, LockStep;
  }

  /** `unlock` on its own comes to an end and leaves the process without locks. */
  lemma {:induction false} UnlockEnds(s: State, before: seq<Label>, c: nat) returns (ls: seq<Label>, t: State)
    requires Sound(s) && OwnersKnow(s) && Run(Do, s, before).Some?
    requires var u := Run(Do, s, before).value; c in u.procs && (InUnlock(u.procs[c]) || u.procs[c].step.Idle?)
    ensures Run(Do, s, ls) == Some(t) && before <= ls && Released(Run(Do, s, before).value, t, c)
    ensures forall n | |before| <= n < |ls| :: OfUnlock(ls[n], c)
    decreases StepsToRelease(Run(Do, s, before).value.procs[c])
  {
    ls, t := before, Run(Do, s, before).value;
    SoundReached(s, before);
    hide Run, Do, Released;
    if t.procs[c].step.Idle? {
      IdleIsReleased(t, c);
    } else {
      hide Sound, OwnersKnow;
      UnlockGoesOn(t, c);
      ls, t := Extend(Do, s, ls, UnlockNext(t.procs[c], c));
      var u := t;
      hide StepsToRelease, InUnlock;
      ls, t := UnlockEnds(s, ls, c);
      ReleasedBefore(Run(Do, s, before).value, u, t, c);
    }
  }

  lemma ReleasedBefore(s: State, u: State, t: State, c: nat)
    requires Released(u, t, c) && u.procs.Keys == s.procs.Keys
    requires forall d | d in s.procs && d != c :: u.procs[d] == s.procs[d]
    ensures Released(s, t, c)
  {
  }

  lemma IdleIsReleased(s: State, c: nat)
    requires Sound(s) && OwnersKnow(s) && c in s.procs && s.procs[c].step.Idle?
    ensures Released(s, s, c)
  {
    assert ProcessOk(s, c, s.procs[c]);
  }

  /** A holder that was not told to delete has a course of its own that frees its
      files and leaves them where they are. */
  lemma HolderReleases(s: State, c: nat) returns (ls: seq<Label>, t: State)
    requires Sound(s) && OwnersKnow(s) && c in s.procs && s.procs[c].step.Holding?
    ensures Run(Do, s, ls) == Some(t) && Released(s, t, c) && forall n | 0 <= n < |ls| :: ls[n].c == c
    ensures !s.procs[c].deletePaths ==> FilesLeft(s, t)
  {
    Nothing(Do, s);
    hide Run, Do, Sound, OwnersKnow;
    ls, t := UnlockEnds(s, [], c);
    if !s.procs[c].deletePaths {
      hide Released;
      UnlockLeaves(s, ls, c);
    }
  }

  lemma KeepsDeletion(s: State, l: Label)
    requires Do(s, l).Some? && l.c in s.procs && (l.Unlock? || l.Unlink? || l.Mark? || l.Close?)
    ensures l.c in Do(s, l).value.procs && Do(s, l).value.procs[l.c].deletePaths == s.procs[l.c].deletePaths
  {
  }

  /** Unlinks and marks are not among the steps of such a holder. */
  lemma {:induction false} UnlockLeaves(s: State, ls: seq<Label>, c: nat)
    requires Sound(s) && OwnersKnow(s) && c in s.procs && !s.procs[c].deletePaths
    requires forall n | 0 <= n < |ls| :: OfUnlock(ls[n], c)
    ensures var t := Run(Do, s, ls);
            t.Some? ==> FilesLeft(s, t.value) && c in t.value.procs && !t.value.procs[c].deletePaths
  {
    if ls != [] {
      var front, l := Run(Do, s, ls[..|ls| - 1]), ls[|ls| - 1];
      UnlockLeaves(s, ls[..|ls| - 1], c);
      SoundReached(s, ls[..|ls| - 1]);
      assert OfUnlock(l, c);
      hide Sound, OwnersKnow;
      hide Do, FilesLeft;
      if front.Some? && Do(front.value, l).Some? {
        KeepsDeletion(front.value, l);
        StillLeft(s, front.value, l);
      }
    }
  }

  /** The path's lock file is missing, or free and not stale. */
  ghost predicate Lockable(s: State, p: nat) {
    p in s.link ==> s.link[p] in s.inodes && s.inodes[s.link[p]].owner.None? && !s.inodes[s.link[p]].stale
  }

  /** `c` is about to open the lock file of its next path, and can lock it and
      all later ones. */
  ghost predicate Unhindered(s: State, c: nat) {
    && c in s.procs && s.procs[c].step.Opening? && |s.procs[c].fds| < |s.procs[c].paths|
    && forall j | |s.procs[c].fds| <= j < |s.procs[c].paths| :: Lockable(s, s.procs[c].paths[j])
  }

  /** It opens the next one, */
  lemma OpensNext(s: State, c: nat) returns (i: nat)
    requires Sound(s) && Unhindered(s, c)
    ensures var t, me := Do(s, Open(c, i)), s.procs[c];
            var p := me.paths[|me.fds|];
            && t.Some? && Queues(t.value, c, p, i) && t.value.inodes[i].owner.None?
            && t.value.procs[c] == me.(step := Waiting(i))
            && Linked(t.value, p, i) && (forall q | q in t.value.link && q != p :: Linked(s, q, t.value.link[q]))
            && (forall k | k in s.inodes :: k in t.value.inodes && t.value.inodes[k] == s.inodes[k])
  {
    var me := s.procs[c];
    var p := me.paths[|me.fds|];
    i := Outside(s.inodes.Keys);
    i := if p in s.link then s.link[p] else i;
    assert ProcessOk(s, c, me) && LinksOk(s);
    hide Sound, FdsOk, Sorted, UnlockStep;
  }

  /** and locks it. */
  lemma StaysUnhindered(s: State, u: State, t: State, c: nat, p: nat, i: nat)
    requires Sound(s) && Unhindered(s, c) && p == s.procs[c].paths[|s.procs[c].fds|]
    requires c in u.procs && u.procs[c] == s.procs[c].(step := Waiting(i)) && Linked(u, p, i)
    requires forall q | q in u.link && q != p :: Linked(s, q, u.link[q])
    requires forall k | k in s.inodes :: k in u.inodes && u.inodes[k] == s.inodes[k]
    requires Took(u, t, c, p, i) && Sound(t) && i in u.inodes && u.inodes[i].path == p
    ensures c in t.procs && t.procs[c].paths == s.procs[c].paths && |t.procs[c].fds| == |s.procs[c].fds| + 1
    ensures if |t.procs[c].fds| == |t.procs[c].paths| then t.procs[c].step.Holding? else Unhindered(t, c)
  {
    var me := t.procs[c];
    assert ProcessOk(s, c, s.procs[c]) && ProcessOk(t, c, me) && LinksOk(s);
    forall j | |me.fds| <= j < |me.paths| ensures Lockable(t, me.paths[j]) {
      assert Lockable(s, me.paths[j]) && me.paths[j] != p;
    }
    hide Sound, FdsOk, Lockable;
  }

  lemma LocksNext(s: State, before: seq<Label>, c: nat) returns (ls: seq<Label>, t: State)
    requires Sound(s) && OwnersKnow(s)
    requires Run(Do, s, before).Some? && Sound(Run(Do, s, before).value) && Unhindered(Run(Do, s, before).value, c)
    ensures Run(Do, s, ls) == Some(t) && before <= ls && forall n | |before| <= n < |ls| :: ls[n].c == c
    ensures var u := Run(Do, s, before).value;
            && c in t.procs && t.procs[c].paths == u.procs[c].paths && |t.procs[c].fds| == |u.procs[c].fds| + 1
            && if |t.procs[c].fds| == |t.procs[c].paths| then t.procs[c].step.Holding? else Unhindered(t, c)
  {
    hide Run, Do, Sound, OwnersKnow;
    var u := Run(Do, s, before).value;
    var v;
    var p := u.procs[c].paths[|u.procs[c].fds|];
    var i := OpensNext(u, c);
    ls, v := Extend(Do, s, before, Open(c, i));
    SoundReached(s, ls);
    ls, t := WaiterTakes(s, ls, c, p, i);
    SoundReached(s, ls);
    StaysUnhindered(u, v, t, c, p, i);
    hide Took, Unhindered;
  }

  /** A process that nobody hinders gets all its locks on its own. */
  lemma {:induction false} LocksAll(s: State, before: seq<Label>, c: nat) returns (ls: seq<Label>, t: State)
    requires Sound(s) && OwnersKnow(s)
    requires Run(Do, s, before).Some? && Unhindered(Run(Do, s, before).value, c)
    ensures Run(Do, s, ls) == Some(t) && before <= ls && forall n | |before| <= n < |ls| :: ls[n].c == c
    ensures c in t.procs && t.procs[c].step.Holding? && t.procs[c].paths == Run(Do, s, before).value.procs[c].paths
    ensures forall p | p in t.procs[c].paths :: HoldsPath(t, c, p)
    decreases var me := Run(Do, s, before).value.procs[c]; |me.paths| - |me.fds|
  {
    SoundReached(s, before);
    ls, t := LocksNext(s, before, c);
    SoundReached(s, ls);
    if t.procs[c].step.Holding? {
      assert ProcessOk(t, c, t.procs[c]);
      forall p | p in t.procs[c].paths ensures HoldsPath(t, c, p) {
        var j :| 0 <= j < |t.procs[c].paths| && t.procs[c].paths[j] == p;
      }
    } else {
      hide Run, Do, Sound, OwnersKnow, Unhindered;
      ls, t := LocksAll(s, ls, c);
    }
  }

  /** A process that waits does not come back without its locks. */
  lemma WaitersPersist(s: State, l: Label, c: nat)
    requires Sound(s) && Do(s, l).Some? && c in s.procs && s.procs[c].wait && l != Die(c)
    requires s.procs[c].step.Opening? || s.procs[c].step.Waiting? || s.procs[c].step.Checking?
    ensures var me := Do(s, l).value.procs[c];
            me.step.Opening? || me.step.Waiting? || me.step.Checking? || (me.step.Holding? && |me.fds| == |me.paths|)
  {
    assert ProcessOk(s, c, s.procs[c]);
    hide Sound, FdsOk, Sorted;
  }

  /** One that does not wait gives up exactly when somebody has the file. */
  lemma NeverBlocks(s: State, c: nat)
    requires Sound(s) && c in s.procs && !s.procs[c].wait && s.procs[c].step.Waiting?
    ensures Do(s, Flock(c)).Some? <==> !Do(s, GiveUp(c)).Some?
    ensures Do(s, GiveUp(c)).Some? ==>
              var me := Do(s, GiveUp(c)).value.procs[c]; InUnlock(me) || (me.step.Idle? && me.fds == [])
  {
    assert ProcessOk(s, c, s.procs[c]);
    hide Sound, FdsOk, Sorted;
  }

  /** A holder may be told to delete, or not to, and then does as told. */
  lemma MayBeTold(s: State, c: nat, deletePaths: bool)
    requires c in s.procs && s.procs[c].step.Holding? && s.procs[c].fds != []
    ensures var t := Do(s, SetDeletion(c, deletePaths));
            && t.Some? && t.value.link == s.link && t.value.inodes == s.inodes && Do(t.value, Unlock(c)).Some?
            && Do(t.value, Unlock(c)).value.procs[c].step == if deletePaths then Unlinking(0) else Closing(0)
  {
    hide LockStep;
  }
}
