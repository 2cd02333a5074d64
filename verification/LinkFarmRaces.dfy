/** Several optimisers and the collector's sweep of the links directory at once:
    `optimisePath_` in src/libstore/optimise-store.cc for one file, system call
    by system call, and the sweep in src/libstore/gc.cc. */
module LinkFarmRaces {
  import opened Bytes
  import opened Runs
  import opened LinkFarm
  import Space

  /** Where an optimiser is with the file `p`: `ino` is the inode `lstat` has
      shown, `h` the hash of the content, `seen` the inode of the farm entry and
      `temp` that of the temporary link. */
  datatype Pc =
    | Idle
    | Statted(p: string, ino: nat)
    | Hashed(p: string, ino: nat, h: nat)
    | Removing(p: string, ino: nat, h: nat)
    | Entering(p: string, ino: nat, h: nat)
    | Relooking(p: string, ino: nat, h: nat)
    | Linking(p: string, ino: nat, h: nat, seen: nat)
    | Renaming(p: string, ino: nat, h: nat, temp: nat)

  /** `doomed` is the entry the sweep is about to unlink; `done` and `missed` are
      the files whose turn has ended, with and without a link in the farm. */
  datatype State = State(names: map<string, nat>, farm: map<nat, nat>, inodeHash: set<nat>, optimisers: map<nat, Pc>,
                         doomed: Option<nat>, done: set<string>, missed: set<string>)

  datatype Label =
    | Stat(k: nat, p: string) | SkipKnown(k: nat, p: string) | Hash(k: nat) | Look(k: nat) | Remove(k: nat)
    | Enter(k: nat) | Relook(k: nat) | Same(k: nat) | Link(k: nat) | Rename(k: nat) | Fail(k: nat)
    | SweepStat(h: nat) | SweepUnlink | Delete(p: string) | Add(p: string, i: nat)

  function PcOf(s: State, k: nat): Pc {
    if k in s.optimisers then s.optimisers[k] else Idle
  }

  predicate ByOptimiser(l: Label) {
    !l.SweepStat? && !l.SweepUnlink? && !l.Delete? && !l.Add?
  }

  function Move(s: State, k: nat, pc: Pc): State {
    s.(optimisers := s.optimisers[k := pc])
  }

  function Finish(s: State, k: nat, p: string): State {
    Move(s, k, Idle).(done := s.done + {p})
  }

  function Miss(s: State, k: nat, p: string): State {
    Move(s, k, Idle).(missed := s.missed + {p})
  }

  function Shown(e: Setting, s: State, p: string): Content {
    if p in s.names && s.names[p] in e.inodes then e.inodes[s.names[p]].content else Special
  }

  function OptimiserStep(e: Setting, s: State, me: Pc, l: Label): Option<State> {
    match l
    case Stat(k, p) =>
      if me.Idle? && p in s.names && s.names[p] in e.inodes && e.Eligible(e.inodes[s.names[p]]) then
        Some(Move(s, k, Statted(p, s.names[p])))
      else None
    case SkipKnown(k, p) =>
      if me.Idle? && p in s.names && s.names[p] in s.inodeHash then Some(Finish(s, k, p)) else None
    case Hash(k) =>
      if me.Statted? then Some(Move(s, k, Hashed(me.p, me.ino, e.hash(Shown(e, s, me.p))))) else None
    case Look(k) =>
      if !me.Hashed? || me.ino !in e.inodes then None
      else if me.h !in s.farm then Some(Move(s, k, Entering(me.p, me.ino, me.h)))
      else if s.farm[me.h] !in e.inodes then None
      else if Size(e.inodes[s.farm[me.h]].content) == Size(e.inodes[me.ino].content) then
        Some(Move(s, k, Linking(me.p, me.ino, me.h, s.farm[me.h])))
      else Some(Move(s, k, Removing(me.p, me.ino, me.h)))
    case Remove(k) =>
      if me.Removing? then Some(Move(s, k, Entering(me.p, me.ino, me.h)).(farm := s.farm - {me.h})) else None
    case Enter(k) =>
      if !me.Entering? || me.p !in s.names then None
      else if me.h in s.farm then Some(Move(s, k, Relooking(me.p, me.ino, me.h)))
      else Some(Finish(s, k, me.p).(farm := s.farm[me.h := s.names[me.p]], inodeHash := s.inodeHash + {me.ino}))
    case Relook(k) =>
      if !me.Relooking? then None
      else if me.h in s.farm then Some(Move(s, k, Linking(me.p, me.ino, me.h, s.farm[me.h])))
      else Some(Miss(s, k, me.p))
    case Same(k) =>
      if me.Linking? && me.seen == me.ino then Some(Finish(s, k, me.p)) else None
    case Link(k) =>
      if !me.Linking? || me.seen == me.ino then None
      else if me.h in s.farm then Some(Move(s, k, Renaming(me.p, me.ino, me.h, s.farm[me.h])))
      else Some(Miss(s, k, me.p))
    case Rename(k) =>
      if me.Renaming? then Some(Finish(s, k, me.p).(names := s.names[me.p := me.temp])) else None
    case Fail(k) =>
      if !me.Idle? then Some(Miss(s, k, me.p)) else None
    case _ => None
  }

  /** The only link of an inode is its farm entry. */
  predicate OnlyEntry(s: State, i: nat) {
    Space.LinkCount(s.names, s.farm, i) == 1
    && forall k | k in s.optimisers && s.optimisers[k].Renaming? :: s.optimisers[k].temp != i
  }

  /** The sweep, and deletion and addition of files nobody is optimising: an
      optimiser roots the path it works on. */
  function OtherStep(e: Setting, s: State, l: Label): Option<State> {
    match l
    case SweepStat(h) =>
      if s.doomed.None? && h in s.farm && OnlyEntry(s, s.farm[h]) then Some(s.(doomed := Some(h))) else None
    case SweepUnlink =>
      if s.doomed.Some? then Some(s.(farm := s.farm - {s.doomed.value}, doomed := None)) else None
    case Delete(p) =>
      if forall k | k in s.optimisers && !s.optimisers[k].Idle? :: s.optimisers[k].p != p then
        Some(s.(names := s.names - {p}, done := s.done - {p}))
      else None
    case Add(p, i) =>
      if p !in s.names && i in e.inodes then Some(s.(names := s.names[p := i], done := s.done - {p})) else None
    case _ => None
  }

  function Do(e: Setting, s: State, l: Label): Option<State> {
    if ByOptimiser(l) then OptimiserStep(e, s, PcOf(s, l.k), l) else OtherStep(e, s, l)
  }

  /** The steps in a given setting. */
  function In(e: Setting): (State, Label) -> Option<State> {
    (s, l) => Do(e, s, l)
  }

  // ---------------------------------------------------------------------
  // Nothing a path shows changes.

  ghost predicate FilesOk(e: Setting, s: State) {
    && NoCollisions(e.hash)
    && (forall p | p in s.names :: s.names[p] in e.inodes)
    && (forall h | h in s.farm :: s.farm[h] in e.inodes && Detectable(e, s.farm, h))
  }

  /** A farm entry for the hash of `c`, if there is one, has that content. */
  ghost predicate Right(e: Setting, s: State, c: Content) {
    e.hash(c) in s.farm ==> s.farm[e.hash(c)] in e.inodes && e.inodes[s.farm[e.hash(c)]].content == c
  }

  ghost predicate PcOk(e: Setting, s: State, me: Pc) {
    !me.Idle? ==>
      var c := Shown(e, s, me.p);
      && me.p in s.names && me.ino in e.inodes && e.inodes[me.ino].content == c
      && (!me.Statted? ==> me.h == e.hash(c))
      && (me.Entering? || me.Relooking? || me.Linking? ==> Right(e, s, c))
      && (me.Renaming? ==> me.temp in e.inodes && e.inodes[me.temp].content == c)
  }

  ghost predicate Inv(e: Setting, s: State) {
    FilesOk(e, s) && forall k | k in s.optimisers :: PcOk(e, s, s.optimisers[k])
  }

  /** What a step leaves: every path shows what it did, unless it was deleted or
      is new, and right entries stay right. */
  ghost predicate Gentle(e: Setting, s: State, t: State, l: Label) {
    && (forall p | p in s.names && l != Delete(p) :: p in t.names && Shown(e, t, p) == Shown(e, s, p))
    && (forall c | Right(e, s, c) :: Right(e, t, c))
  }

  lemma RightStays(e: Setting, s: State, t: State, c: Content, d: Content, i: nat)
    requires NoCollisions(e.hash) && Right(e, s, c)
    requires t.farm == s.farm[e.hash(d) := i] && i in e.inodes && e.inodes[i].content == d
    ensures Right(e, t, c)
  {
  }

  lemma OptimiserIsGentle(e: Setting, s: State, l: Label)
    requires Inv(e, s) && ByOptimiser(l) && Do(e, s, l).Some?
    ensures FilesOk(e, Do(e, s, l).value) && Gentle(e, s, Do(e, s, l).value, l)
  {
    var me, t := PcOf(s, l.k), Do(e, s, l).value;
    assert PcOk(e, s, me);
    hide OtherStep, Inv;
    forall c | Right(e, s, c) ensures Right(e, t, c) {
      if l.Enter? && me.h !in s.farm {
        RightStays(e, s, t, c, Shown(e, s, me.p), s.names[me.p]);
        hide Right;
      }
      hide PcOk;
    }
    hide Right;
  }

  lemma StepIsGentle(e: Setting, s: State, l: Label)
    requires Inv(e, s) && Do(e, s, l).Some?
    ensures FilesOk(e, Do(e, s, l).value) && Gentle(e, s, Do(e, s, l).value, l)
  {
    if ByOptimiser(l) {
      OptimiserIsGentle(e, s, l);
    } else {
      hide OptimiserStep, PcOk, OnlyEntry;
    }
  }

  lemma OthersKept(e: Setting, s: State, l: Label, me: Pc)
    requires Inv(e, s) && Do(e, s, l).Some? && PcOk(e, s, me) && (me.Idle? || l != Delete(me.p))
    ensures PcOk(e, Do(e, s, l).value, me)
  {
    StepIsGentle(e, s, l);
    hide Do, FilesOk, Right;
  }

  lemma SelfKept(e: Setting, s: State, l: Label)
    requires Inv(e, s) && ByOptimiser(l) && Do(e, s, l).Some?
    ensures PcOk(e, Do(e, s, l).value, PcOf(Do(e, s, l).value, l.k))
  {
    var me := PcOf(s, l.k);
    assert PcOk(e, s, me);
    hide OtherStep, Inv;
    if l.Look? && me.h in s.farm {
      assert Detectable(e, s.farm, me.h);
    }
  }

  lemma InvKept(e: Setting, s: State, l: Label)
    requires Inv(e, s) && Do(e, s, l).Some?
    ensures Inv(e, Do(e, s, l).value)
  {
    var t := Do(e, s, l).value;
    StepIsGentle(e, s, l);
    if ByOptimiser(l) {
      SelfKept(e, s, l);
    }
    forall k | k in t.optimisers ensures PcOk(e, t, t.optimisers[k]) {
      if k in s.optimisers && t.optimisers[k] == s.optimisers[k] {
        OthersKept(e, s, l, s.optimisers[k]);
      }
      hide Inv, FilesOk, PcOk, Gentle;
    }
  }

  /** Whatever the optimisers, the sweep and the collector do in between, every
      path that is not deleted shows what it showed. */
  lemma {:induction false} MeaningKept(e: Setting, s: State, ls: seq<Label>, p: string)
    requires Inv(e, s)
    ensures var t := Run(In(e), s, ls);
            t.Some? ==> Inv(e, t.value)
    ensures var t := Run(In(e), s, ls);
            t.Some? && p in s.names && Delete(p) !in ls ==>
              p in t.value.names && Shown(e, t.value, p) == Shown(e, s, p)
  {
    if ls != [] {
      var front := Run(In(e), s, ls[..|ls| - 1]);
      MeaningKept(e, s, ls[..|ls| - 1], p);
      hide Inv, Do, FilesOk;
      if Run(In(e), s, ls).Some? {
        InvKept(e, front.value, ls[|ls| - 1]);
        StepIsGentle(e, front.value, ls[|ls| - 1]);
      }
    }
  }

  // ---------------------------------------------------------------------
  // Optimisers alone converge.

  ghost predicate OnFarm(e: Setting, s: State, p: string) {
    p in s.names && var h := e.hash(Shown(e, s, p)); h in s.farm && s.farm[h] == s.names[p]
  }

  /** A clean farm; whoever is on a known inode, done with, or has been replaced
      is on the farm's inode for its content. */
  ghost predicate Converging(e: Setting, s: State) {
    && CleanFarm(e, s)
    && (forall p | p in s.names && s.names[p] in s.inodeHash :: OnFarm(e, s, p))
    && (forall p | p in s.done :: OnFarm(e, s, p))
    && (forall k | k in s.optimisers :: PcConverging(e, s, s.optimisers[k]))
  }

  ghost predicate CleanFarm(e: Setting, s: State) {
    forall h | h in s.farm :: s.farm[h] in e.inodes && e.hash(e.inodes[s.farm[h]].content) == h
  }

  ghost predicate PcConverging(e: Setting, s: State, me: Pc) {
    && !me.Removing?
    && (!me.Idle? ==> me.p in s.names && (s.names[me.p] == me.ino || OnFarm(e, s, me.p)))
    && (me.Linking? && me.seen == me.ino ==> OnFarm(e, s, me.p))
    && (me.Renaming? ==> me.h in s.farm && s.farm[me.h] == me.temp)
  }

  /** The race the source warns of: the entry the sweep unlinks has got another
      link since the sweep looked at it. */
  predicate Races(s: State, l: Label) {
    l.SweepUnlink? && s.doomed.Some? && s.doomed.value in s.farm && !OnlyEntry(s, s.farm[s.doomed.value])
  }

  /** A new file gets the number of an inode that was in the farm once. */
  predicate Recycles(s: State, l: Label) {
    l.Add? && l.i in s.inodeHash && l.i !in s.farm.Values
  }

  predicate Calm(s: State, l: Label) {
    !Races(s, l) && !Recycles(s, l)
  }

  lemma NobodyThere(s: State, h: nat)
    requires h in s.farm && OnlyEntry(s, s.farm[h])
    ensures forall p | p in s.names :: s.names[p] != s.farm[h]
  {
    Space.NoNames(s.farm, s.farm[h]);
    Space.NoNames(s.names, s.farm[h]);
  }

  lemma CleanFarmStays(e: Setting, s: State, l: Label)
    requires Inv(e, s) && CleanFarm(e, s) && Do(e, s, l).Some?
    ensures CleanFarm(e, Do(e, s, l).value)
  {
    if ByOptimiser(l) {
      assert PcOk(e, s, PcOf(s, l.k));
    }
    hide OnlyEntry;
  }

  /** An entry stays unless an optimiser finds it corrupt or the sweep unlinks it. */
  lemma EntryStays(e: Setting, s: State, l: Label, h: nat)
    requires Do(e, s, l).Some? && h in s.farm && (ByOptimiser(l) ==> !PcOf(s, l.k).Removing?)
    requires l.SweepUnlink? ==> s.doomed != Some(h)
    ensures h in Do(e, s, l).value.farm && Do(e, s, l).value.farm[h] == s.farm[h]
  {
    hide OnlyEntry;
  }

  lemma OnFarmStays(e: Setting, s: State, l: Label, p: string)
    requires Inv(e, s) && Converging(e, s) && Do(e, s, l).Some? && Calm(s, l) && l != Delete(p)
    ensures OnFarm(e, s, p) ==> OnFarm(e, Do(e, s, l).value, p)
  {
    if OnFarm(e, s, p) {
      var h := e.hash(Shown(e, s, p));
      StepIsGentle(e, s, l);
      if ByOptimiser(l) {
        assert PcOk(e, s, PcOf(s, l.k)) && PcConverging(e, s, PcOf(s, l.k));
      }
      if l.SweepUnlink? && s.doomed == Some(h) {
        NobodyThere(s, h);
      }
      EntryStays(e, s, l, h);
      MovesOntoFarm(e, s, l, p);
      hide Inv, Converging, FilesOk, OnlyEntry, Do;
    }
  }

  /** A file moves only onto the farm. */
  lemma MovesOntoFarm(e: Setting, s: State, l: Label, p: string)
    requires Inv(e, s) && Converging(e, s) && Do(e, s, l).Some? && p in s.names && p in Do(e, s, l).value.names
    ensures Do(e, s, l).value.names[p] == s.names[p] || OnFarm(e, Do(e, s, l).value, p)
  {
    if ByOptimiser(l) {
      assert PcOk(e, s, PcOf(s, l.k)) && PcConverging(e, s, PcOf(s, l.k));
    }
    hide Inv, Converging, OnlyEntry;
  }

  lemma OthersConverge(e: Setting, s: State, l: Label, k: nat)
    requires Inv(e, s) && Converging(e, s) && Do(e, s, l).Some? && Calm(s, l) && k in s.optimisers
    requires ByOptimiser(l) ==> l.k != k
    ensures PcConverging(e, Do(e, s, l).value, s.optimisers[k])
  {
    var me := s.optimisers[k];
    assert PcConverging(e, s, me) && PcOk(e, s, me);
    if !me.Idle? {
      if l == Delete(me.p) {
        hide Inv, Converging;
      } else {
        StepIsGentle(e, s, l);
        OnFarmStays(e, s, l, me.p);
        MovesOntoFarm(e, s, l, me.p);
        if me.Renaming? {
          if ByOptimiser(l) { assert PcConverging(e, s, PcOf(s, l.k)); }
          EntryStays(e, s, l, me.h);
        }
        hide Inv, Converging, Do, FilesOk, OnFarm, OnlyEntry;
      }
    }
  }

  lemma SelfConverges(e: Setting, s: State, l: Label)
    requires Inv(e, s) && Converging(e, s) && ByOptimiser(l) && Do(e, s, l).Some?
    ensures var t := Do(e, s, l).value;
            PcConverging(e, t, PcOf(t, l.k)) && forall p | p in t.done && p !in s.done :: OnFarm(e, t, p)
  {
    var me := PcOf(s, l.k);
    assert PcOk(e, s, me) && PcConverging(e, s, me);
    if l.SkipKnown? && l.p in s.names && s.names[l.p] in s.inodeHash {
      assert OnFarm(e, s, l.p);
    }
    if l.Look? && me.h in s.farm {
      assert Detectable(e, s.farm, me.h) && e.hash(e.inodes[s.farm[me.h]].content) == me.h;
    }
    hide Inv, Converging, OtherStep, FilesOk;
  }

  lemma KnownAreOnFarm(e: Setting, s: State, l: Label, p: string)
    requires Inv(e, s) && Converging(e, s) && Do(e, s, l).Some? && Calm(s, l)
    requires var t := Do(e, s, l).value; p in t.names && t.names[p] in t.inodeHash
    ensures OnFarm(e, Do(e, s, l).value, p)
  {
    var t := Do(e, s, l).value;
    if p in s.names {
      StepIsGentle(e, s, l);
      OnFarmStays(e, s, l, p);
      MovesOntoFarm(e, s, l, p);
      if ByOptimiser(l) {
        assert PcOk(e, s, PcOf(s, l.k)) && PcConverging(e, s, PcOf(s, l.k));
      }
    } else {
      assert l.Add? && t.names[p] in s.farm.Values;
      var h :| h in s.farm && s.farm[h] == t.names[p];
    }
    hide Inv, Converging, OnlyEntry, FilesOk, Gentle;
  }

  lemma ConvergingKept(e: Setting, s: State, l: Label)
    requires Inv(e, s) && Converging(e, s) && Do(e, s, l).Some? && Calm(s, l)
    ensures Converging(e, Do(e, s, l).value)
  {
    var t := Do(e, s, l).value;
    CleanFarmStays(e, s, l);
    if ByOptimiser(l) {
      SelfConverges(e, s, l);
    }
    forall p | p in t.names && t.names[p] in t.inodeHash ensures OnFarm(e, t, p) {
      KnownAreOnFarm(e, s, l, p);
    }
    forall p | p in t.done ensures OnFarm(e, t, p) {
      if p in s.done && l != Delete(p) {
        OnFarmStays(e, s, l, p);
      }
      hide OnFarm;
    }
    forall k | k in t.optimisers ensures PcConverging(e, t, t.optimisers[k]) {
      if !ByOptimiser(l) || l.k != k {
        OthersConverge(e, s, l, k);
      }
      hide OnFarm, PcConverging;
    }
    hide Do, OnFarm, PcConverging, Inv;
  }

  predicate AllCalm(e: Setting, s: State, ls: seq<Label>) {
    ls == [] ||
    (AllCalm(e, s, ls[..|ls| - 1])
     && (Run(In(e), s, ls[..|ls| - 1]).Some? ==> Calm(Run(In(e), s, ls[..|ls| - 1]).value, ls[|ls| - 1])))
  }

  /** From a clean farm, with any number of optimisers and sweeps: as long as no
      sweep races, every file whose turn has ended with a link is on the farm's
      inode for its content. */
  lemma {:induction false} OptimisersConverge(e: Setting, s: State, ls: seq<Label>)
    requires Inv(e, s) && Converging(e, s) && AllCalm(e, s, ls)
    ensures var t := Run(In(e), s, ls);
            t.Some? ==>
              Inv(e, t.value) && Converging(e, t.value) && forall p | p in t.value.done :: OnFarm(e, t.value, p)
  {
    if ls != [] && Run(In(e), s, ls).Some? {
      var front, l := Run(In(e), s, ls[..|ls| - 1]), ls[|ls| - 1];
      OptimisersConverge(e, s, ls[..|ls| - 1]);
      hide Inv, Do, Converging, OnFarm, Calm;
      InvKept(e, front.value, l);
      ConvergingKept(e, front.value, l);
    }
    ConvergingMeans();
    hide Inv, Do, Converging, OnFarm, Run;
  }

  lemma ConvergingMeans()
    ensures forall e, s :: Converging(e, s) ==> forall p | p in s.done :: OnFarm(e, s, p)
  {
  }

  /** And the race is what takes them off: an unlink of the sweep leaves all of
      them where they are exactly when the entry has no file. */
  lemma SweepTakesOff(e: Setting, s: State)
    requires Inv(e, s) && CleanFarm(e, s) && Do(e, s, SweepUnlink).Some?
    ensures var t := Do(e, s, SweepUnlink).value;
            (forall p | OnFarm(e, s, p) :: OnFarm(e, t, p)) <==>
            (s.doomed.value in s.farm ==> s.farm[s.doomed.value] !in s.names.Values)
  {
    var t := Do(e, s, SweepUnlink).value;
    if s.doomed.value in s.farm && s.farm[s.doomed.value] in s.names.Values {
      var p :| p in s.names && s.names[p] == s.farm[s.doomed.value];
      assert OnFarm(e, s, p) && !OnFarm(e, t, p);
    }
  }

  // ---------------------------------------------------------------------
  // Alone, everybody gets through.

  function StepsToFinish(me: Pc): nat {
    match me
    case Idle => 0
    case Statted(_, _) => 8
    case Hashed(_, _, _) => 7
    case Removing(_, _, _) => 6
    case Entering(_, _, _) => 5
    case Relooking(_, _, _) => 4
    case Linking(_, _, _, _) => 3
    case Renaming(_, _, _, _) => 2
  }

  /** The next call of an optimiser that meets no fault. */
  function NextCall(me: Pc, k: nat): Label {
    match me
    case Statted(_, _) => Hash(k)
    case Hashed(_, _, _) => Look(k)
    case Removing(_, _, _) => Remove(k)
    case Entering(_, _, _) => Enter(k)
    case Relooking(_, _, _) => Relook(k)
    case Linking(_, ino, _, seen) => if seen == ino then Same(k) else Link(k)
    case _ => Rename(k)
  }

  /** While it works on its own, what it has seen stays so. */
  ghost predicate Undisturbed(e: Setting, s: State, me: Pc) {
    && PcOk(e, s, me) && (!me.Idle? ==> s.names[me.p] == me.ino)
    && (me.Linking? ==> me.h in s.farm && s.farm[me.h] == me.seen)
    && (me.Renaming? ==> me.h in s.farm && s.farm[me.h] == me.temp)
    && (me.Entering? ==> me.h !in s.farm) && (me.Relooking? ==> me.h in s.farm)
  }

  /** A call may fail at any time, and then the file is passed over. */
  lemma MayFail(e: Setting, s: State, k: nat)
    requires Inv(e, s) && !PcOf(s, k).Idle?
    ensures var t := Do(e, s, Fail(k));
            && t.Some? && PcOf(t.value, k).Idle? && PcOf(s, k).p in t.value.missed
            && t.value.names == s.names && t.value.farm == s.farm && t.value.done == s.done
  {
    hide OtherStep;
  }

  /** The sweep dooms no entry whose inode a file is on. */
  lemma DoomedIsUnused(e: Setting, s: State, h: nat)
    requires Do(e, s, SweepStat(h)).Some?
    ensures h in s.farm && forall p | p in s.names :: s.names[p] != s.farm[h]
  {
    NobodyThere(s, h);
    hide OnlyEntry;
  }

  lemma CallGoesOn(e: Setting, s: State, k: nat)
    requires Inv(e, s) && !PcOf(s, k).Idle? && Undisturbed(e, s, PcOf(s, k))
    ensures var me, t := PcOf(s, k), Do(e, s, NextCall(PcOf(s, k), k));
            && t.Some? && t.value.missed == s.missed && Undisturbed(e, t.value, PcOf(t.value, k))
            && StepsToFinish(PcOf(t.value, k)) < StepsToFinish(me)
            && (if PcOf(t.value, k).Idle? then me.p in t.value.done && OnFarm(e, t.value, me.p)
                else PcOf(t.value, k).p == me.p && s.done == t.value.done)
  {
    var me := PcOf(s, k);
    SelfKept(e, s, NextCall(me, k));
    if me.Hashed? && me.h in s.farm {
      assert Detectable(e, s.farm, me.h);
    }
    hide Inv, OtherStep;
  }

  /** An optimiser that is not disturbed puts its file on the farm. */
  lemma {:induction false} GetsThrough(e: Setting, s: State, before: seq<Label>, k: nat)
      returns (ls: seq<Label>, t: State)
    requires Inv(e, s) && Run(In(e), s, before).Some?
    requires var u := Run(In(e), s, before).value;
             !PcOf(u, k).Idle? && Undisturbed(e, u, PcOf(u, k))
    ensures var u := Run(In(e), s, before).value;
            && Run(In(e), s, ls) == Some(t) && PcOf(t, k).Idle? && t.missed == u.missed
            && PcOf(u, k).p in t.done && OnFarm(e, t, PcOf(u, k).p)
    decreases StepsToFinish(PcOf(Run(In(e), s, before).value, k))
  {
    var u := Run(In(e), s, before).value;
    MeaningKept(e, s, before, "");
    CallGoesOn(e, u, k);
    hide Run, Do, Inv, Undisturbed, StepsToFinish, OnFarm;
    ls, t := Extend(In(e), s, before, NextCall(PcOf(u, k), k));
    if !PcOf(t, k).Idle? {
      ls, t := GetsThrough(e, s, ls, k);
    }
  }

  /** From anywhere, an idle optimiser can take up any file that may be linked and
      bring it onto the farm; a file that is on a known inode it passes over. */
  lemma OptimisesAlone(e: Setting, s: State, k: nat, p: string) returns (ls: seq<Label>, t: State)
    requires Inv(e, s) && PcOf(s, k).Idle? && p in s.names && e.Eligible(e.inodes[s.names[p]])
    ensures Run(In(e), s, ls) == Some(t) && PcOf(t, k).Idle? && t.missed == s.missed && p in t.done && OnFarm(e, t, p)
    ensures s.names[p] in s.inodeHash ==> Do(e, s, SkipKnown(k, p)) == Some(Finish(s, k, p))
  {
    Nothing(In(e), s);
    hide Run;
    ls, t := Extend(In(e), s, [], Stat(k, p));
    assert Undisturbed(e, t, PcOf(t, k));
    hide Do, Inv, Undisturbed, OnFarm;
    ls, t := GetsThrough(e, s, ls, k);
  }

  /** The sweep unlinks an entry that has no other link, and a file nobody works on
      can be deleted and made again. */
  lemma SweepsAlone(e: Setting, s: State, h: nat, p: string, i: nat)
    requires s.doomed.None? && h in s.farm && OnlyEntry(s, s.farm[h])
    requires (forall k | k in s.optimisers && !s.optimisers[k].Idle? :: s.optimisers[k].p != p) && i in e.inodes
    ensures var t := Do(e, s, SweepStat(h));
            t.Some? && Do(e, t.value, SweepUnlink) == Some(s.(farm := s.farm - {h}))
    ensures var t := Do(e, s, Delete(p));
            t.Some? && p !in t.value.names && Do(e, t.value, Add(p, i)).Some?
            && Do(e, t.value, Add(p, i)).value.names == s.names[p := i]
  {
    hide OptimiserStep, OnlyEntry;
  }
}
