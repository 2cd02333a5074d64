/** Temporary-root files: `createTempRootsFile` and `findTempRoots` in
    src/libstore/gc.cc. Every process has a file of its own name, which a
    scanner deletes if it gets the lock on it. */
module TempRootFiles {
  import opened Bytes
  import opened Runs
  import opened Finite

  datatype Holder = Process(p: nat) | Scanner(k: nat)

  datatype Inode = Inode(file: nat, stale: bool, owner: Option<Holder>)

  /** `Leaving` has closed its file and not yet unlinked it. */
  datatype Step =
    | New | Creating | Waiting(i: nat) | Checking(i: nat) | Live(i: nat) | Leaving | Gone

  datatype Scan =
    | Idle | Opened(p: nat, i: nat) | Flocked(p: nat, i: nat) | Unlinked(p: nat, i: nat) | Marked(p: nat, i: nat)
  {
    predicate Locks() {
      Flocked? || Unlinked? || Marked?
    }
  }

  datatype State = State(link: map<nat, nat>, inodes: map<nat, Inode>, procs: map<nat, Step>, scans: map<nat, Scan>)

  datatype Label =
    | Launch(p: nat) | Tidy(p: nat, fails: bool) | Create(p: nat, i: nat) | Flock(p: nat) | CheckSize(p: nat)
    | Leave(p: nat) | Exit(p: nat, unlinks: bool)
    | ScanOpen(k: nat, p: nat) | ScanFlock(k: nat) | ScanUnlink(k: nat, fails: bool) | ScanMark(k: nat)
    | ScanClose(k: nat) | ScanDie(k: nat)

  predicate ByScanner(l: Label) {
    l.ScanOpen? || l.ScanFlock? || l.ScanUnlink? || l.ScanMark? || l.ScanClose? || l.ScanDie?
  }

  function ScanOf(s: State, k: nat): Scan {
    if k in s.scans then s.scans[k] else Idle
  }

  function SetOwner(s: State, i: nat, owner: Option<Holder>): State {
    if i in s.inodes then s.(inodes := s.inodes[i := s.inodes[i].(owner := owner)]) else s
  }

  function ReleaseAll(inodes: map<nat, Inode>, p: nat): map<nat, Inode> {
    map i | i in inodes :: if inodes[i].owner == Some(Process(p)) then inodes[i].(owner := None) else inodes[i]
  }

  /** `createTempRootsFile`, the end of the store object and of the process. A
      new process may get the name of one that is gone. */
  function ProcessStep(s: State, l: Label): Option<State> {
    match l
    case Launch(p) =>
      if p !in s.procs || s.procs[p].Gone? then Some(s.(procs := s.procs[p := New])) else None
    case Tidy(p, fails) =>
      if p in s.procs && s.procs[p].New? then
        Some(s.(link := if fails then s.link else s.link - {p}, procs := s.procs[p := Creating]))
      else None
    case Create(p, i) =>
      if p !in s.procs || !s.procs[p].Creating? then None
      else if p in s.link then
        if i == s.link[p] then Some(s.(procs := s.procs[p := Waiting(i)])) else None
      else if i !in s.inodes then
        Some(s.(link := s.link[p := i], inodes := s.inodes[i := Inode(p, false, None)],
                procs := s.procs[p := Waiting(i)]))
      else None
    case Flock(p) =>
      if p in s.procs && s.procs[p].Waiting? && s.procs[p].i in s.inodes && s.inodes[s.procs[p].i].owner.None? then
        var i := s.procs[p].i;
        Some(SetOwner(s, i, Some(Process(p))).(procs := s.procs[p := Checking(i)]))
      else None
    case CheckSize(p) =>
      if p in s.procs && s.procs[p].Checking? && s.procs[p].i in s.inodes then
        var i := s.procs[p].i;
        if s.inodes[i].stale then Some(SetOwner(s, i, None).(procs := s.procs[p := New]))
        else Some(s.(procs := s.procs[p := Live(i)]))
      else None
    case Leave(p) =>
      if p in s.procs && s.procs[p].Live? then
        Some(s.(inodes := ReleaseAll(s.inodes, p), procs := s.procs[p := Leaving]))
      else None
    case Exit(p, unlinks) =>
      if p in s.procs && (unlinks ==> s.procs[p].Leaving?) then
        Some(s.(link := if unlinks then s.link - {p} else s.link, inodes := ReleaseAll(s.inodes, p),
                procs := s.procs[p := Gone]))
      else None
    case _ => None
  }

  /** `findTempRoots` for one file. A scanner may give up or die at any time. */
  function ScanStep(s: State, l: Label): Option<State> {
    match l
    case ScanOpen(k, p) =>
      if ScanOf(s, k).Idle? && p in s.link then Some(s.(scans := s.scans[k := Opened(p, s.link[p])])) else None
    case ScanFlock(k) =>
      var me := ScanOf(s, k);
      if me.Opened? && me.i in s.inodes then
        if s.inodes[me.i].owner.None? then
          Some(SetOwner(s, me.i, Some(Scanner(k))).(scans := s.scans[k := Flocked(me.p, me.i)]))
        else
          Some(s.(scans := s.scans[k := Idle]))
      else None
    case ScanUnlink(k, fails) =>
      var me := ScanOf(s, k);
      if me.Flocked? then
        Some(s.(link := if fails then s.link else s.link - {me.p}, scans := s.scans[k := Unlinked(me.p, me.i)]))
      else None
    case ScanMark(k) =>
      var me := ScanOf(s, k);
      if me.Unlinked? && me.i in s.inodes then
        Some(s.(inodes := s.inodes[me.i := s.inodes[me.i].(stale := true)], scans := s.scans[k := Marked(me.p, me.i)]))
      else None
    case ScanClose(k) =>
      var me := ScanOf(s, k);
      if me.Marked? then Some(SetOwner(s, me.i, None).(scans := s.scans[k := Idle])) else None
    case ScanDie(k) =>
      var me := ScanOf(s, k);
      Some((if me.Locks() then SetOwner(s, me.i, None) else s).(scans := s.scans[k := Idle]))
    case _ => None
  }

  function Do(s: State, l: Label): Option<State> {
    if ByScanner(l) then ScanStep(s, l) else ProcessStep(s, l)
  }

  /** The file of every live process is linked, locked by it, and not stale. */
  ghost predicate LiveFilesOk(s: State) {
    forall p | p in s.procs && s.procs[p].Live? ::
      Good(s, p, s.procs[p].i) && s.inodes[s.procs[p].i].owner == Some(Process(p))
  }

  predicate Linked(s: State, p: nat, i: nat) {
    p in s.link && s.link[p] == i
  }

  predicate Good(s: State, p: nat, i: nat) {
    Linked(s, p, i) && i in s.inodes && !s.inodes[i].stale
  }

  // ---------------------------------------------------------------------
  // What holds in every run.

  predicate Uses(me: Step, i: nat) {
    (me.Waiting? || me.Checking? || me.Live?) && me.i == i
  }

  predicate Owns(me: Step, i: nat) {
    (me.Checking? || me.Live?) && me.i == i
  }

  /** Locks are held by whoever is at the step that says so. */
  ghost predicate Sound(s: State) {
    && (forall p | p in s.procs :: ProcessOk(s, p, s.procs[p]))
    && (forall k | k in s.scans :: ScanOk(s, k, s.scans[k]))
    && LinksOk(s) && OwnersOk(s)
  }

  ghost predicate ProcessOk(s: State, p: nat, me: Step) {
    me.Waiting? || me.Checking? || me.Live? ==>
      && me.i in s.inodes && s.inodes[me.i].file == p
      && (!me.Waiting? ==> s.inodes[me.i].owner == Some(Process(p)))
  }

  ghost predicate ScanOk(s: State, k: nat, me: Scan) {
    && (!me.Idle? ==> me.i in s.inodes && s.inodes[me.i].file == me.p)
    && (me.Locks() ==> s.inodes[me.i].owner == Some(Scanner(k)))
    && (me.Marked? ==> s.inodes[me.i].stale)
  }

  ghost predicate LinksOk(s: State) {
    forall p | p in s.link :: s.link[p] in s.inodes && s.inodes[s.link[p]].file == p
  }

  ghost predicate OwnersOk(s: State) {
    forall i | i in s.inodes && s.inodes[i].owner.Some? && s.inodes[i].owner.value.Process? ::
      var q := s.inodes[i].owner.value.p; q == s.inodes[i].file && q in s.procs && Owns(s.procs[q], i)
  }

  /** A process changes no file that another one or a scanner has locked. */
  ghost predicate Confined(s: State, t: State, p: nat) {
    && (forall i | i in s.inodes ::
          && i in t.inodes && t.inodes[i].file == s.inodes[i].file && t.inodes[i].stale == s.inodes[i].stale
          && (s.inodes[i].owner.Some? && s.inodes[i].owner != Some(Process(p)) ==> t.inodes[i] == s.inodes[i]))
  }

  lemma ProcessIsConfined(s: State, l: Label)
    requires Sound(s) && !ByScanner(l) && Do(s, l).Some?
    ensures Confined(s, Do(s, l).value, l.p)
  {
    assert l.p in s.procs ==> ProcessOk(s, l.p, s.procs[l.p]);
    hide ScanStep, Sound;
  }

  lemma FilesKeptByProcess(s: State, l: Label)
    requires Sound(s) && !ByScanner(l) && Do(s, l).Some?
    ensures LinksOk(Do(s, l).value) && OwnersOk(Do(s, l).value)
  {
    assert l.p in s.procs ==> ProcessOk(s, l.p, s.procs[l.p]);
    assert LinksOk(s) && OwnersOk(s);
    hide ScanStep, Sound;
  }

  lemma SelfKept(s: State, l: Label)
    requires Sound(s) && !ByScanner(l) && Do(s, l).Some?
    ensures ProcessOk(Do(s, l).value, l.p, Do(s, l).value.procs[l.p])
  {
    assert l.p in s.procs ==> ProcessOk(s, l.p, s.procs[l.p]);
    assert LinksOk(s);
    hide ScanStep, Sound;
  }

  lemma OthersKept(s: State, t: State, p: nat)
    requires Sound(s) && Confined(s, t, p)
    ensures forall q | q in s.procs && q != p :: ProcessOk(t, q, s.procs[q])
    ensures forall k | k in s.scans :: ScanOk(t, k, s.scans[k])
  {
    hide LinksOk, OwnersOk;
  }

  lemma SoundKeptByProcess(s: State, l: Label)
    requires Sound(s) && !ByScanner(l) && Do(s, l).Some?
    ensures Sound(Do(s, l).value)
  {
    var t := Do(s, l).value;
    ProcessIsConfined(s, l);
    FilesKeptByProcess(s, l);
    SelfKept(s, l);
    OthersKept(s, t, l.p);
    assert t.scans == s.scans && forall p | p in t.procs && p != l.p :: p in s.procs && t.procs[p] == s.procs[p];
    hide ProcessStep, ScanStep, LinksOk, OwnersOk, ProcessOk, ScanOk, Confined;
  }

  lemma FilesKeptByScanner(s: State, l: Label)
    requires Sound(s) && ByScanner(l) && Do(s, l).Some?
    ensures LinksOk(Do(s, l).value) && OwnersOk(Do(s, l).value)
    ensures forall p | p in s.procs :: ProcessOk(Do(s, l).value, p, s.procs[p])
  {
    assert l.k in s.scans ==> ScanOk(s, l.k, s.scans[l.k]);
    hide ProcessStep, Owns;
  }

  lemma ScansKeptByScanner(s: State, l: Label)
    requires Sound(s) && ByScanner(l) && Do(s, l).Some?
    ensures forall k | k in Do(s, l).value.scans :: ScanOk(Do(s, l).value, k, Do(s, l).value.scans[k])
  {
    assert l.k in s.scans ==> ScanOk(s, l.k, s.scans[l.k]);
    hide ProcessStep, Owns, OwnersOk, ProcessOk;
  }

  lemma SoundKeptByScanner(s: State, l: Label)
    requires Sound(s) && ByScanner(l) && Do(s, l).Some?
    ensures Sound(Do(s, l).value)
  {
    FilesKeptByScanner(s, l);
    ScansKeptByScanner(s, l);
    assert Do(s, l).value.procs == s.procs by { hide Sound, ProcessStep; }
    hide Do, ProcessOk, ScanOk, LinksOk, OwnersOk;
  }

  /** No process and no scanner is at work; files of dead processes may be left. */
  ghost predicate Init(s: State) {
    && (forall p | p in s.procs :: s.procs[p].Gone?)
    && (forall k | k in s.scans :: s.scans[k].Idle?)
    && (forall i | i in s.inodes :: s.inodes[i].owner.None?)
    && LinksOk(s)
  }

  lemma InitIsSound(s: State)
    requires Init(s)
    ensures Sound(s)
  {
  }

  lemma {:induction false} SoundReached(s: State, ls: seq<Label>)
    requires Sound(s)
    ensures Run(Do, s, ls).Some? ==> Sound(Run(Do, s, ls).value)
  {
    hide Sound, Do;
    if ls != [] && Run(Do, s, ls).Some? {
      SoundReached(s, ls[..|ls| - 1]);
      var front, l := Run(Do, s, ls[..|ls| - 1]).value, ls[|ls| - 1];
      if ByScanner(l) {
        SoundKeptByScanner(front, l);
      } else {
        SoundKeptByProcess(front, l);
      }
    }
  }

  // ---------------------------------------------------------------------
  // When live files are kept.

  predicate ScannerOwns(s: State, i: nat) {
    i in s.inodes && s.inodes[i].owner.Some? && s.inodes[i].owner.value.Scanner?
  }

  /** The file a process works with is good, or the process will notice. */
  ghost predicate Safe(s: State) {
    forall p | p in s.procs :: ProcessSafe(s, p, s.procs[p])
  }

  ghost predicate ProcessSafe(s: State, p: nat, me: Step) {
    match me
    case Waiting(i) => Good(s, p, i) || ScannerOwns(s, i) || (i in s.inodes && s.inodes[i].stale)
    case Checking(i) => Good(s, p, i) || (i in s.inodes && s.inodes[i].stale)
    case Live(i) => Good(s, p, i)
    case _ => true
  }

  /** A scanner unlinks a name that is linked to another file than the one it
      has locked, which the process of that name uses and no scanner has. */
  predicate UnlinksAnother(s: State, l: Label) {
    && l.ScanUnlink? && !l.fails && var me := ScanOf(s, l.k);
    && me.Flocked? && me.p in s.link && s.link[me.p] != me.i
    && me.p in s.procs && Uses(s.procs[me.p], s.link[me.p]) && Good(s, me.p, s.link[me.p])
    && !ScannerOwns(s, s.link[me.p])
  }

  /** A scanner dies with the lock on an unlinked file it has not marked, which
      the process of that name waits for. */
  predicate DiesUnmarked(s: State, l: Label) {
    && l.ScanDie? && var me := ScanOf(s, l.k);
    && me.Locks() && me.i in s.inodes && !s.inodes[me.i].stale && !Linked(s, me.p, me.i)
    && me.p in s.procs && s.procs[me.p] == Waiting(me.i)
  }

  predicate Harmful(s: State, l: Label) {
    UnlinksAnother(s, l) || DiesUnmarked(s, l)
  }

  lemma SafeKeptByProcess(s: State, l: Label)
    requires Sound(s) && Safe(s) && !ByScanner(l) && Do(s, l).Some?
    ensures Safe(Do(s, l).value)
  {
    assert l.p in s.procs ==> ProcessOk(s, l.p, s.procs[l.p]) && ProcessSafe(s, l.p, s.procs[l.p]);
    var t := Do(s, l).value;
    forall q | q in t.procs ensures ProcessSafe(t, q, t.procs[q]) {
      assert q in s.procs ==> ProcessOk(s, q, s.procs[q]) && ProcessSafe(s, q, s.procs[q]);
      hide ScanStep, ScanOk, Safe, OwnersOk;
    }
  }

  lemma SafeKeptByScanner(s: State, l: Label)
    requires Sound(s) && Safe(s) && ByScanner(l) && Do(s, l).Some? && !Harmful(s, l)
    ensures Safe(Do(s, l).value)
  {
    assert l.k in s.scans ==> ScanOk(s, l.k, s.scans[l.k]);
    var t := Do(s, l).value;
    forall q | q in t.procs ensures ProcessSafe(t, q, t.procs[q]) {
      assert ProcessOk(s, q, s.procs[q]) && ProcessSafe(s, q, s.procs[q]);
      hide ProcessStep, Safe, Sound;
    }
  }

  predicate Harmless(s: State, ls: seq<Label>) {
    ls == [] ||
    (Harmless(s, ls[..|ls| - 1])
     && (Run(Do, s, ls[..|ls| - 1]).Some? ==> !Harmful(Run(Do, s, ls[..|ls| - 1]).value, ls[|ls| - 1])))
  }

  /** With any number of scanners, names used again and files left behind, a live
      process's file is the linked one, locked by it and not stale, as long as no
      step harms. */
  lemma {:induction false} LiveFilesAreKept(s: State, ls: seq<Label>)
    requires Init(s) && Harmless(s, ls)
    ensures var t := Run(Do, s, ls);
            t.Some? ==> Sound(t.value) && Safe(t.value) && LiveFilesOk(t.value)
  {
    assert Sound(s) && Safe(s);
    SoundReached(s, ls);
    if ls != [] && Run(Do, s, ls).Some? {
      LiveFilesAreKept(s, ls[..|ls| - 1]);
      var front, l := Run(Do, s, ls[..|ls| - 1]).value, ls[|ls| - 1];
      hide Sound, Safe, Do, Harmful, LiveFilesOk, Init;
      if ByScanner(l) {
        SafeKeptByScanner(front, l);
      } else {
        SafeKeptByProcess(front, l);
      }
    }
    SafeMeansLive();
    hide Sound, Safe, Init, Harmless, Run, Do;
  }

  lemma SafeMeansLive()
    ensures forall s: State :: Sound(s) && Safe(s) ==> LiveFilesOk(s)
  {
    forall s: State | Sound(s) && Safe(s) ensures LiveFilesOk(s) {
      forall p | p in s.procs && s.procs[p].Live?
        ensures Good(s, p, s.procs[p].i) && s.inodes[s.procs[p].i].owner == Some(Process(p))
      {
        assert ProcessOk(s, p, s.procs[p]) && ProcessSafe(s, p, s.procs[p]);
      }
    }
  }

  // ---------------------------------------------------------------------
  // The other half: what a harmful step leads to.

  /** The process `p` is about to live with a file that is not linked. */
  ghost predicate Lost(s: State, p: nat, i: nat) {
    && p in s.procs && Uses(s.procs[p], i) && !Linked(s, p, i)
    && i in s.inodes && !s.inodes[i].stale && (s.procs[p].Waiting? ==> s.inodes[i].owner.None?)
  }

  /** It gets there on its own. */
  lemma {:induction false} LostLives(s: State, before: seq<Label>, p: nat, i: nat) returns (ls: seq<Label>, t: State)
    requires Run(Do, s, before).Some? && Lost(Run(Do, s, before).value, p, i)
    ensures before <= ls && Run(Do, s, ls) == Some(t) && !LiveFilesOk(t)
    ensures forall n | |before| <= n < |ls| :: !ByScanner(ls[n])
    decreases var u := Run(Do, s, before).value.procs[p]; if u.Waiting? then 2 else if u.Checking? then 1 else 0
  {
    hide Run, ScanStep;
    ls, t := before, Run(Do, s, before).value;
    if !t.procs[p].Live? {
      ls, t := Extend(Do, s, ls, if t.procs[p].Waiting? then Flock(p) else CheckSize(p));
      ls, t := LostLives(s, ls, p, i);
    }
  }

  lemma HarmLoses(s: State, l: Label)
    requires Sound(s) && Harmful(s, l)
    ensures Do(s, l).Some?
    ensures var me := ScanOf(s, l.k);
            Lost(Do(s, l).value, me.p, if UnlinksAnother(s, l) then s.link[me.p] else me.i)
  {
    var me := ScanOf(s, l.k);
    assert ScanOk(s, l.k, me) && ProcessOk(s, me.p, s.procs[me.p]);
    hide ProcessStep;
  }

  /** After every harmful step some continuation leaves a live process with a file
      nobody can find. */
  lemma HarmIsUnsafe(s: State, l: Label) returns (ls: seq<Label>, t: State)
    requires Sound(s) && Harmful(s, l)
    ensures Run(Do, s, [l] + ls) == Some(t) && !LiveFilesOk(t)
    ensures forall n | 0 <= n < |ls| :: !ByScanner(ls[n])
  {
    HarmLoses(s, l);
    var me := ScanOf(s, l.k);
    Nothing(Do, s);
    hide Run, Do, Sound, Harmful, Lost;
    ls, t := Extend(Do, s, [], l);
    ls, t := LostLives(s, ls, me.p, if UnlinksAnother(s, l) then s.link[me.p] else me.i);
    assert ls == [l] + ls[1..];
    ls := ls[1..];
  }

  // ---------------------------------------------------------------------
  // More than one scanner.

  /** One process named 0, and what its file, number 0, looks like. */
  ghost predicate Seen(s: State, linked: bool, stale: bool, owner: Option<Holder>, me: Step, one: Scan, two: Scan) {
    && s.procs == map[0 := me] && s.inodes.Keys == {0} && s.inodes[0] == Inode(0, stale, owner)
    && (if linked then 0 in s.link && s.link[0] == 0 else 0 !in s.link)
    && ScanOf(s, 1) == one && ScanOf(s, 2) == two
  }

  /** Two scanners open the new file before its process locks it. */
  lemma BothOpened() returns (s: State, ls: seq<Label>, t: State)
    ensures Init(s) && Run(Do, s, ls) == Some(t)
    ensures Seen(t, true, false, None, Waiting(0), Opened(0, 0), Opened(0, 0))
  {
    s := State(map[], map[], map[], map[]);
    hide Run;
    Nothing(Do, s);
    ls, t := Extend(Do, s, [], Launch(0));
    ls, t := Extend(Do, s, ls, Tidy(0, false));
    ls, t := Extend(Do, s, ls, Create(0, 0));
    assert Seen(t, true, false, None, Waiting(0), Idle, Idle);
    hide ProcessStep;
    ls, t := Extend(Do, s, ls, ScanOpen(1, 0));
    ls, t := Extend(Do, s, ls, ScanOpen(2, 0));
  }

  /** The first one deletes it. */
  lemma FirstDeletes(s: State, before: seq<Label>) returns (ls: seq<Label>, t: State)
    requires Run(Do, s, before).Some?
    requires Seen(Run(Do, s, before).value, true, false, None, Waiting(0), Opened(0, 0), Opened(0, 0))
    ensures Run(Do, s, ls) == Some(t)
    ensures Seen(t, false, true, None, Waiting(0), Idle, Opened(0, 0))
  {
    hide Run, ProcessStep;
    ls, t := Extend(Do, s, before, ScanFlock(1));
    ls, t := Extend(Do, s, ls, ScanUnlink(1, false));
    ls, t := Extend(Do, s, ls, ScanMark(1));
    ls, t := Extend(Do, s, ls, ScanClose(1));
  }

  /** The process notices and tries again. */
  lemma ProcessRetries(s: State, before: seq<Label>) returns (ls: seq<Label>, t: State)
    requires Run(Do, s, before).Some?
    requires Seen(Run(Do, s, before).value, false, true, None, Waiting(0), Idle, Opened(0, 0))
    ensures Run(Do, s, ls) == Some(t)
    ensures Seen(t, false, true, None, Creating, Idle, Opened(0, 0))
  {
    hide Run, ScanStep;
    ls, t := Extend(Do, s, before, Flock(0));
    ls, t := Extend(Do, s, ls, CheckSize(0));
    ls, t := Extend(Do, s, ls, Tidy(0, false));
  }

  /** It makes a new file, number 1, and the second scanner locks the old one. */
  lemma SecondLocks(s: State, before: seq<Label>) returns (ls: seq<Label>, t: State)
    requires Run(Do, s, before).Some? && Seen(Run(Do, s, before).value, false, true, None, Creating, Idle, Opened(0, 0))
    ensures Run(Do, s, ls) == Some(t) && UnlinksAnother(t, ScanUnlink(2, false))
  {
    hide Run;
    ls, t := Extend(Do, s, before, Create(0, 1));
    assert t.procs == map[0 := Waiting(1)] && Good(t, 0, 1) && !ScannerOwns(t, 1) && ScanOf(t, 2) == Opened(0, 0);
    hide ProcessStep;
    ls, t := Extend(Do, s, ls, ScanFlock(2));
  }

  /** With two scanners the second one, which still has the old file open, locks
      that one and unlinks the new file of the live process. */
  lemma TwoScannersLoseLiveFile() returns (s: State, ls: seq<Label>)
    ensures Init(s) && Run(Do, s, ls).Some? && !LiveFilesOk(Run(Do, s, ls).value)
  {
    var t;
    s, ls, t := BothOpened();
    InitIsSound(s);
    hide Run, Do, LiveFilesOk, Seen, Init, Sound;
    ls, t := FirstDeletes(s, ls);
    ls, t := ProcessRetries(s, ls);
    ls, t := SecondLocks(s, ls);
    SoundReached(s, ls);
    var rest, u := HarmIsUnsafe(t, ScanUnlink(2, false));
    Append(Do, s, ls, [ScanUnlink(2, false)] + rest);
    ls := ls + ([ScanUnlink(2, false)] + rest);
  }

  /** A scanner locks the file of a process that is gone. */
  lemma OldFileLocked() returns (s: State, ls: seq<Label>, t: State)
    ensures Init(s) && Run(Do, s, ls) == Some(t) && ls == [ScanOpen(1, 0), ScanFlock(1)]
    ensures Seen(t, true, false, Some(Scanner(1)), Gone, Flocked(0, 0), Idle)
  {
    s := State(map[0 := 0], map[0 := Inode(0, false, None)], map[0 := Gone], map[]);
    hide Run, ProcessStep;
    Nothing(Do, s);
    ls, t := Extend(Do, s, [], ScanOpen(1, 0));
    assert Seen(t, true, false, None, Gone, Opened(0, 0), Idle);
    ls, t := Extend(Do, s, ls, ScanFlock(1));
    hide Do;
  }

  /** A new process gets its name. */
  lemma NameReused() returns (s: State, ls: seq<Label>, t: State)
    ensures Init(s) && Run(Do, s, ls) == Some(t) && ls == [ScanOpen(1, 0), ScanFlock(1), Launch(0)]
    ensures Seen(t, true, false, Some(Scanner(1)), New, Flocked(0, 0), Idle)
  {
    hide Run, ScanStep, Init;
    s, ls, t := OldFileLocked();
    ls, t := Extend(Do, s, ls, Launch(0));
  }

  /** It makes its own file. */
  lemma NewFileWaits(s: State, before: seq<Label>) returns (ls: seq<Label>, t: State)
    requires Run(Do, s, before).Some?
    requires Seen(Run(Do, s, before).value, true, false, Some(Scanner(1)), New, Flocked(0, 0), Idle)
    ensures ls == before + [Tidy(0, false), Create(0, 1)]
    ensures Run(Do, s, ls) == Some(t) && UnlinksAnother(t, ScanUnlink(1, false))
  {
    hide Run, ScanStep;
    ls, t := Extend(Do, s, before, Tidy(0, false));
    ls, t := Extend(Do, s, ls, Create(0, 1));
  }

  /** Only the first step opens a file for scanning. */
  predicate OpensOnce(ls: seq<Label>) {
    forall n | 0 < n < |ls| :: !ls[n].ScanOpen?
  }

  lemma OpensNoMore(xs: seq<Label>, ys: seq<Label>)
    requires xs != [] && OpensOnce(xs) && forall n | 0 <= n < |ys| :: !ys[n].ScanOpen?
    ensures OpensOnce(xs + ys)
  {
  }

  /** One scanner is enough when a name is reused while it is at work: it unlinks
      the file of the new process. */
  lemma ReusedNameLosesLiveFile() returns (s: State, ls: seq<Label>)
    ensures Init(s) && Run(Do, s, ls).Some? && !LiveFilesOk(Run(Do, s, ls).value)
    ensures OpensOnce(ls)
  {
    var t;
    s, ls, t := NameReused();
    InitIsSound(s);
    hide Run, Do, LiveFilesOk, Seen, Init, Sound, UnlinksAnother;
    ls, t := NewFileWaits(s, ls);
    assert OpensOnce(ls);
    hide OpensOnce;
    SoundReached(s, ls);
    var rest, u := HarmIsUnsafe(t, ScanUnlink(1, false));
    Append(Do, s, ls, [ScanUnlink(1, false)] + rest);
    OpensNoMore(ls, [ScanUnlink(1, false)] + rest);
    ls := ls + ([ScanUnlink(1, false)] + rest);
  }

  // ---------------------------------------------------------------------
  // Left alone, everybody gets through.

  /** The process makes a new file, whatever was there under its name. */
  lemma MakesFile(s: State, before: seq<Label>, p: nat) returns (ls: seq<Label>, t: State, i: nat)
    requires Run(Do, s, before).Some?
    requires var u := Run(Do, s, before).value; p in u.procs && u.procs[p].New?
    ensures Run(Do, s, ls) == Some(t) && p in t.procs && t.procs[p] == Waiting(i)
    ensures Good(t, p, i) && t.inodes[i].owner.None?
    ensures i !in Run(Do, s, before).value.inodes && ls == before + [Tidy(p, false), Create(p, i)]
  {
    i := Outside(Run(Do, s, before).value.inodes.Keys);
    hide Run, ScanStep;
    ls, t := Extend(Do, s, before, Tidy(p, false));
    ls, t := Extend(Do, s, ls, Create(p, i));
  }

  lemma LocksFile(s: State, before: seq<Label>, p: nat, i: nat) returns (ls: seq<Label>, t: State)
    requires Run(Do, s, before).Some?
    requires var u := Run(Do, s, before).value;
             p in u.procs && u.procs[p] == Waiting(i) && i in u.inodes && u.inodes[i].owner.None?
    ensures Run(Do, s, ls) == Some(t) && p in t.procs && ls == before + [Flock(p), CheckSize(p)]
    ensures t.procs[p] == if Run(Do, s, before).value.inodes[i].stale then New else Live(i)
    ensures t.link == Run(Do, s, before).value.link
    ensures !Run(Do, s, before).value.inodes[i].stale ==>
              i in t.inodes && t.inodes[i] == Inode(Run(Do, s, before).value.inodes[i].file, false, Some(Process(p)))
  {
    hide Run, ScanStep;
    ls, t := Extend(Do, s, before, Flock(p));
    ls, t := Extend(Do, s, ls, CheckSize(p));
  }

  /** A new process, its number used before or not, gets a file of its own. */
  lemma StartsAlone(s: State, p: nat) returns (ls: seq<Label>, t: State, i: nat)
    requires p in s.procs ==> s.procs[p].Gone?
    ensures Run(Do, s, ls) == Some(t) && p in t.procs && t.procs[p] == Live(i) && Good(t, p, i) && i !in s.inodes
  {
    Nothing(Do, s);
    hide Run;
    ls, t := Extend(Do, s, [], Launch(p));
    assert t.procs[p].New? && t.inodes == s.inodes;
    hide Do;
    ls, t, i := MakesFile(s, ls, p);
    ls, t := LocksFile(s, ls, p, i);
  }

  /** When a process leaves, its file is free and then gone. */
  lemma LeavesAlone(s: State, p: nat)
    requires Sound(s) && p in s.procs && s.procs[p].Live?
    ensures var t := Do(s, Leave(p));
            && t.Some? && t.value.link == s.link && t.value.inodes[s.procs[p].i].owner.None?
            && Do(t.value, Exit(p, true)).Some? && p !in Do(t.value, Exit(p, true)).value.link
            && Do(t.value, Exit(p, true)).value.procs[p].Gone?
    ensures Do(s, Exit(p, false)).Some? && Do(s, Exit(p, false)).value.link == s.link
    ensures Do(s, Exit(p, true)).None? && Do(s, Launch(p)).None?
  {
    assert ProcessOk(s, p, s.procs[p]);
    hide ScanStep;
  }

  /** A scanner opens the file under a name and tries to lock it: it goes on
      exactly when nobody has. */
  lemma ScansFile(s: State, k: nat, p: nat) returns (ls: seq<Label>, t: State)
    requires Sound(s) && ScanOf(s, k).Idle? && p in s.link
    ensures Run(Do, s, ls) == Some(t) && t.link == s.link && t.procs == s.procs && ls == [ScanOpen(k, p), ScanFlock(k)]
    ensures var i := s.link[p];
            if s.inodes[i].owner.None? then ScanOf(t, k) == Flocked(p, i) && i in t.inodes
            else ScanOf(t, k).Idle? && t.inodes == s.inodes
  {
    Nothing(Do, s);
    hide Run, ProcessStep;
    ls, t := Extend(Do, s, [], ScanOpen(k, p));
    ls, t := Extend(Do, s, ls, ScanFlock(k));
  }

  /** What nobody has locked it removes, so that nobody can take it for current. */
  lemma RemovesFile(s: State, k: nat, p: nat) returns (ls: seq<Label>, t: State)
    requires Sound(s) && ScanOf(s, k).Idle? && p in s.link && s.inodes[s.link[p]].owner.None?
    ensures Run(Do, s, ls) == Some(t) && p !in t.link && ScanOf(t, k).Idle? && t.procs == s.procs
    ensures var i := s.link[p]; i in t.inodes && t.inodes[i].stale && t.inodes[i].owner.None?
    ensures forall q | q in s.link && q != p :: q in t.link && t.link[q] == s.link[q]
  {
    var i := s.link[p];
    ls, t := ScansFile(s, k, p);
    hide Run, ProcessStep, Sound;
    ls, t := Extend(Do, s, ls, ScanUnlink(k, false));
    assert t.link == s.link - {p} && t.procs == s.procs && ScanOf(t, k) == Unlinked(p, i) && i in t.inodes;
    ls, t := Extend(Do, s, ls, ScanMark(k));
    assert t.link == s.link - {p} && t.procs == s.procs && ScanOf(t, k) == Marked(p, i) && i in t.inodes;
    assert t.inodes[i].stale;
    ls, t := Extend(Do, s, ls, ScanClose(k));
    hide Do;
  }

  /** When it cannot unlink what was left under its name, a process opens that file;
      only a live process leaves. */
  lemma OpensLeftover(s: State, p: nat, i: nat)
    requires p in s.procs && s.procs[p].New? && p in s.link
    ensures var t := Do(s, Tidy(p, true));
            && t.Some? && t.value.link == s.link && (Do(t.value, Create(p, i)).Some? <==> i == s.link[p])
            && Do(t.value, Create(p, s.link[p])).value.procs[p] == Waiting(s.link[p]) && Do(s, Leave(p)).None?
  {
    hide ScanStep;
  }
}
