/** The collector and any number of clients that add paths, step by step:
    `addTempRoot`, the roots server and the deletion loop in src/libstore/gc.cc,
    `addToStore` and `invalidatePathChecked` in src/libstore/local-store.cc. */
module GcProtocol {
  import opened Bytes
  import opened Runs
  import opened StoreDb

  datatype Tree = Partial | Complete

  /** Where a client is. */
  datatype Pc =
    | Idle
    | WantRoot(p: StorePath)                  // at `restart` in addTempRoot
    | HoldsShared(p: StorePath)               // got the shared GC lock
    | Sent(p: StorePath, run: nat)            // wrote the root to the server of a run
    | Inserted(p: StorePath, run: nat)        // the server has added the hash part
    | Acked(p: StorePath)                     // got the acknowledgement
    | Rooted(p: StorePath)                    // addTempRoot has returned
    | Locked(p: StorePath)                    // holds the lock on the path
    | Restoring(p: StorePath)                 // found it invalid, writes the tree
    | Restored(p: StorePath)                  // the tree is complete

  /** `file` is the content of the client's temporary roots file. */
  datatype Client = Client(alive: bool, file: set<StorePath>, pc: Pc) {
    predicate Owns(p: StorePath) {
      (pc.Locked? || pc.Restoring? || pc.Restored?) && pc.p == p
    }
  }

  datatype Deletion = NoDeletion | Checked(path: StorePath) | Invalidated(path: StorePath)

  datatype Gc =
    | Off
    | On(serverUp: bool, unread: set<nat>, tempRoots: set<string>, pending: Option<string>, deleting: Deletion)

  /** `runs` counts the collections started so far. */
  datatype State = State(db: Db, disk: map<StorePath, Tree>, clients: map<nat, Client>, gc: Gc, runs: nat)

  datatype Label =
    | Spawn(c: nat) | Begin(c: nat, p: StorePath)
    | TakeShared(c: nat) | WriteShared(c: nat)
    | Send(c: nat) | Receive(c: nat) | Ack(c: nat) | WriteAcked(c: nat) | Disconnect(c: nat)
    | SkipValid(c: nat) | LockPath(c: nat) | FoundValid(c: nat) | FoundInvalid(c: nat)
    | Change(c: nat, tree: Option<Tree>) | Finish(c: nat) | Register(c: nat, refs: set<StorePath>)
    | Abandon(c: nat) | Die(c: nat)
    | LockGc | StartServer | ReadFile(c: nat) | Scan(p: StorePath) | ReleasePending
    | Check(p: StorePath) | Invalidate | RemovePart | RemoveAll | EndRun

  function HashParts(paths: set<StorePath>): set<string> {
    set p | p in paths :: p.hashPart
  }

  // ---------------------------------------------------------------------
  // The steps of a client.

  predicate InAddTempRoot(l: Label) {
    l.Begin? || l.TakeShared? || l.WriteShared? || l.Send? || l.Receive? || l.Ack? || l.WriteAcked? || l.Disconnect?
  }

  function ClientStep(s: State, me: Client, l: Label): Option<(State, Client)> {
    if InAddTempRoot(l) then AddTempRootStep(s, me, l) else AddToStoreStep(s, me, l)
  }

  function AddTempRootStep(s: State, me: Client, l: Label): Option<(State, Client)> {
    match l
    case Begin(_, p) =>
      if me.pc.Idle? then Some((s, me.(pc := WantRoot(p)))) else None
    case TakeShared(_) =>
      if me.pc.WantRoot? && s.gc.Off? then Some((s, me.(pc := HoldsShared(me.pc.p)))) else None
    case WriteShared(_) =>
      if me.pc.HoldsShared? then Some((s, me.(file := me.file + {me.pc.p}, pc := Rooted(me.pc.p)))) else None
    case Send(_) =>
      if me.pc.WantRoot? && s.gc.On? && s.gc.serverUp then Some((s, me.(pc := Sent(me.pc.p, s.runs)))) else None
    case Receive(_) =>
      if me.pc.Sent? && s.gc.On? && me.pc.run == s.runs then
        Some((s.(gc := s.gc.(tempRoots := s.gc.tempRoots + {me.pc.p.hashPart})), me.(pc := Inserted(me.pc.p, s.runs))))
      else None
    case Ack(_) =>
      if me.pc.Inserted? && s.gc.On? && me.pc.run == s.runs && s.gc.pending != Some(me.pc.p.hashPart) then
        Some((s, me.(pc := Acked(me.pc.p))))
      else None
    case WriteAcked(_) =>
      if me.pc.Acked? then Some((s, me.(file := me.file + {me.pc.p}, pc := Rooted(me.pc.p)))) else None
    case Disconnect(_) =>
      if me.pc.Sent? || me.pc.Inserted? then Some((s, me.(pc := WantRoot(me.pc.p)))) else None
    case _ => None
  }

  function AddToStoreStep(s: State, me: Client, l: Label): Option<(State, Client)> {
    match l
    case SkipValid(_) =>
      if me.pc.Rooted? && me.pc.p in s.db then Some((s, me.(pc := Idle))) else None
    case LockPath(_) =>
      if me.pc.Rooted? && (forall d | d in s.clients :: !s.clients[d].Owns(me.pc.p)) then
        Some((s, me.(pc := Locked(me.pc.p))))
      else None
    case FoundValid(_) =>
      if me.pc.Locked? && me.pc.p in s.db then Some((s, me.(pc := Idle))) else None
    case FoundInvalid(_) =>
      if me.pc.Locked? && me.pc.p !in s.db then Some((s, me.(pc := Restoring(me.pc.p)))) else None
    case Change(_, tree) =>
      if me.pc.Restoring? then
        Some((s.(disk := if tree.Some? then s.disk[me.pc.p := tree.value] else s.disk - {me.pc.p}), me))
      else None
    case Finish(_) =>
      if me.pc.Restoring? then Some((s.(disk := s.disk[me.pc.p := Complete]), me.(pc := Restored(me.pc.p)))) else None
    case Register(_, refs) =>
      if me.pc.Restored? && ReferencesValid(s.db, map[me.pc.p := refs]) then
        Some((s.(db := Merge(s.db, map[me.pc.p := refs])), me.(pc := Idle)))
      else None
    case Abandon(_) =>
      if me.pc.Rooted? || me.pc.Locked? || me.pc.Restoring? || me.pc.Restored? then Some((s, me.(pc := Idle))) else None
    case Die(_) => Some((s, me.(alive := false, pc := Idle)))
    case _ => None
  }

  // ---------------------------------------------------------------------
  // The steps of the collector. The search is left out: the collector may
  // choose any path that is no temporary root.

  function GcStep(s: State, l: Label): Option<State> {
    match l
    case LockGc =>
      if s.gc.Off? && (forall d | d in s.clients :: !s.clients[d].pc.HoldsShared?) then
        Some(s.(gc := On(false, s.clients.Keys, {}, None, NoDeletion), runs := s.runs + 1))
      else None
    case StartServer =>
      if s.gc.On? then Some(s.(gc := s.gc.(serverUp := true))) else None
    case ReadFile(c) =>
      if s.gc.On? && s.gc.serverUp && c in s.gc.unread && c in s.clients then
        var found := if s.clients[c].alive then HashParts(s.clients[c].file) else {};
        Some(s.(gc := s.gc.(unread := s.gc.unread - {c}, tempRoots := s.gc.tempRoots + found)))
      else None
    case Scan(p) =>
      if Ready(s) && p.hashPart !in s.gc.tempRoots then Some(s.(gc := s.gc.(pending := Some(p.hashPart)))) else None
    case ReleasePending =>
      if Ready(s) then Some(s.(gc := s.gc.(pending := None))) else None
    case Check(p) =>
      if Ready(s) && p.hashPart !in s.gc.tempRoots then
        Some(s.(gc := s.gc.(pending := Some(p.hashPart), deleting := Checked(p))))
      else None
    case Invalidate =>
      if s.gc.On? && s.gc.deleting.Checked? then
        var p := s.gc.deleting.path;
        if p in s.db && Referrers(s.db, p) - {p} != {} then
          Some(s.(gc := s.gc.(pending := None, deleting := NoDeletion)))
        else
          Some(s.(db := s.db - {p}, gc := s.gc.(deleting := Invalidated(p))))
      else None
    case RemovePart =>
      if s.gc.On? && s.gc.deleting.Invalidated? && s.gc.deleting.path in s.disk then
        Some(s.(disk := s.disk[s.gc.deleting.path := Partial]))
      else None
    case RemoveAll =>
      if s.gc.On? && s.gc.deleting.Invalidated? then
        Some(s.(disk := s.disk - {s.gc.deleting.path}, gc := s.gc.(pending := None, deleting := NoDeletion)))
      else None
    case EndRun =>
      if s.gc.On? then Some(s.(gc := Off)) else None
    case _ => None
  }

  predicate Ready(s: State) {
    s.gc.On? && s.gc.serverUp && s.gc.unread == {} && s.gc.deleting.NoDeletion?
  }

  predicate ByGc(l: Label) {
    l.LockGc? || l.StartServer? || l.ReadFile? || l.Scan? || l.ReleasePending?
    || l.Check? || l.Invalidate? || l.RemovePart? || l.RemoveAll? || l.EndRun?
  }

  function Do(s: State, l: Label): Option<State> {
    if ByGc(l) then
      GcStep(s, l)
    else if l.Spawn? then
      if l.c in s.clients then None else Some(s.(clients := s.clients[l.c := Client(true, {}, Idle)]))
    else if l.c in s.clients && s.clients[l.c].alive then
      var r := ClientStep(s, s.clients[l.c], l);
      if r.Some? then Some(r.value.0.(clients := s.clients[l.c := r.value.1])) else None
    else
      None
  }

  // ---------------------------------------------------------------------
  // Within one collection: a root that is protected stays protected.

  /** No path with hash part `h` is being deleted, and none can be chosen. */
  ghost predicate Protected(s: State, h: string) {
    s.gc.On? && h in s.gc.tempRoots && (!s.gc.deleting.NoDeletion? ==> s.gc.deleting.path.hashPart != h)
  }

  /** What holds in every reachable state, for any number of collections:
      `pending` announces the deletion under way, no client holds the shared
      lock during a run, and the server adds a hash part before it
      acknowledges it. */
  ghost predicate Coherent(s: State) {
    && (s.gc.On? && !s.gc.deleting.NoDeletion? ==> s.gc.pending == Some(s.gc.deleting.path.hashPart))
    && (s.gc.On? && s.gc.pending.Some? ==> s.gc.unread == {} && s.gc.serverUp)
    && (forall c | c in s.clients :: ClientCoherent(s, s.clients[c]))
  }

  ghost predicate ClientCoherent(s: State, me: Client) {
    && (!me.alive ==> me.pc.Idle?)
    && (me.pc.HoldsShared? ==> s.gc.Off?)
    && (me.pc.Sent? || me.pc.Inserted? ==> me.pc.run <= s.runs)
    && (me.pc.Inserted? && me.pc.run == s.runs && s.gc.On? ==> me.pc.p.hashPart in s.gc.tempRoots)
  }

  ghost predicate Init(s: State) {
    && s.gc.Off?
    && (forall c | c in s.clients :: s.clients[c].pc.Idle?)
    && RefClosed(s.db)
    && (forall p | p in s.db :: p in s.disk && s.disk[p].Complete?)
  }

  lemma CoherentKeptByClient(s: State, l: Label)
    requires !ByGc(l)
    ensures Coherent(s) && Do(s, l).Some? ==> Coherent(Do(s, l).value)
  {
    hide RefClosed, Referrers, Merge, ReferencesValid, GcStep;
    if Coherent(s) && Do(s, l).Some? {
      var t := Do(s, l).value;
      forall c | c in t.clients ensures ClientCoherent(t, t.clients[c]) {
        assert c in s.clients ==> ClientCoherent(s, s.clients[c]);
        hide Coherent;
      }
      hide ClientCoherent;
    }
  }

  lemma CoherentKept(s: State, l: Label)
    ensures Coherent(s) && Do(s, l).Some? ==> Coherent(Do(s, l).value)
  {
    hide RefClosed, Referrers, HashParts;
    if !ByGc(l) {
      CoherentKeptByClient(s, l);
    }
    hide ClientStep;
  }

  lemma {:induction false} ReachableIsCoherent(s: State, ls: seq<Label>)
    requires Coherent(s)
    ensures Run(Do, s, ls).Some? ==> Coherent(Run(Do, s, ls).value)
  {
    hide Coherent, Do;
    if ls != [] {
      ReachableIsCoherent(s, ls[..|ls| - 1]);
      if Run(Do, s, ls[..|ls| - 1]).Some? {
        CoherentKept(Run(Do, s, ls[..|ls| - 1]).value, ls[|ls| - 1]);
      }
    }
  }

  lemma ProtectedKept(s: State, l: Label, h: string)
    ensures Protected(s, h) && Do(s, l).Some? && !l.EndRun? ==> Protected(Do(s, l).value, h)
  {
    hide RefClosed, Referrers, Merge, HashParts, ReferencesValid;
  }

  lemma {:induction false} ProtectedToTheEnd(s: State, ls: seq<Label>, h: string)
    requires Protected(s, h) && EndRun !in ls
    ensures Run(Do, s, ls).Some? ==> Protected(Run(Do, s, ls).value, h)
  {
    hide Protected, Do;
    if ls != [] {
      ProtectedToTheEnd(s, ls[..|ls| - 1], h);
      if Run(Do, s, ls[..|ls| - 1]).Some? {
        ProtectedKept(Run(Do, s, ls[..|ls| - 1]).value, ls[|ls| - 1], h);
      }
    }
  }

  /** Once the server has acknowledged a root, the run it belongs to neither is
      deleting nor starts to delete any path with its hash part, whatever the
      clients do, even if the one that asked dies. */
  lemma AcknowledgedIsKept(s: State, c: nat, ls: seq<Label>)
    requires Coherent(s) && Do(s, Ack(c)).Some? && EndRun !in ls
    ensures var t := Run(Do, Do(s, Ack(c)).value, ls);
            t.Some? ==> Protected(t.value, s.clients[c].pc.p.hashPart)
  {
    hide Run;
    assert ClientCoherent(s, s.clients[c]);
    ProtectedToTheEnd(Do(s, Ack(c)).value, ls, s.clients[c].pc.p.hashPart);
  }

  /** The root `p` in the file of a living client is not being deleted, and
      either the file is still to be read or the root is protected. */
  ghost predicate FileHeld(s: State, c: nat, p: StorePath) {
    && s.gc.On? && c in s.clients && s.clients[c].alive && p in s.clients[c].file
    && (c in s.gc.unread || p.hashPart in s.gc.tempRoots)
    && (!s.gc.deleting.NoDeletion? ==> s.gc.deleting.path.hashPart != p.hashPart)
  }

  lemma FileHeldKept(s: State, l: Label, c: nat, p: StorePath)
    requires Coherent(s) && FileHeld(s, c, p)
    ensures Do(s, l).Some? && !l.EndRun? && l != Die(c) ==> FileHeld(Do(s, l).value, c, p)
  {
    hide RefClosed, Referrers, Merge, ReferencesValid, ClientCoherent;
    if l == ReadFile(c) {
      assert p.hashPart in HashParts(s.clients[c].file);
    }
    hide HashParts;
  }

  lemma {:induction false} FileHeldToTheEnd(s: State, ls: seq<Label>, c: nat, p: StorePath)
    requires Coherent(s) && FileHeld(s, c, p) && EndRun !in ls && Die(c) !in ls
    ensures Run(Do, s, ls).Some? ==> FileHeld(Run(Do, s, ls).value, c, p)
  {
    hide Coherent, FileHeld, Do;
    if ls != [] {
      FileHeldToTheEnd(s, ls[..|ls| - 1], c, p);
      ReachableIsCoherent(s, ls[..|ls| - 1]);
      if Run(Do, s, ls[..|ls| - 1]).Some? {
        FileHeldKept(Run(Do, s, ls[..|ls| - 1]).value, ls[|ls| - 1], c, p);
      }
    }
  }

  /** A root that was in a living client's file when the run took the exclusive
      lock is not deleted while the client lives; from the moment its file is
      read, it is protected like an acknowledged one. */
  lemma RootInFileIsKept(s: State, c: nat, p: StorePath, ls: seq<Label>)
    requires Coherent(s) && Do(s, LockGc).Some? && EndRun !in ls && Die(c) !in ls
    requires c in s.clients && s.clients[c].alive && p in s.clients[c].file
    ensures var t := Run(Do, Do(s, LockGc).value, ls);
            t.Some? ==> FileHeld(t.value, c, p) && (c !in t.value.gc.unread ==> Protected(t.value, p.hashPart))
  {
    hide Run;
    CoherentKept(s, LockGc);
    FileHeldToTheEnd(Do(s, LockGc).value, ls, c, p);
  }

  // ---------------------------------------------------------------------
  // Any number of collections and of clients: every valid path has its tree and
  // its references, unless a collection overtakes a client.

  /** A collection takes its lock while a living client has been acknowledged by
      an earlier one and has yet to write its file, which would not protect the
      root as it is. */
  predicate Overtakes(s: State, l: Label) {
    l.LockGc? && exists c | c in s.clients :: Exposed(s.clients[c])
  }

  predicate Exposed(me: Client) {
    me.alive && me.pc.Acked? && me.pc.p.hashPart !in HashParts(me.file)
  }

  predicate Prompt(s: State, ls: seq<Label>) {
    ls == [] ||
    (Prompt(s, ls[..|ls| - 1])
     && (Run(Do, s, ls[..|ls| - 1]).Some? ==> !Overtakes(Run(Do, s, ls[..|ls| - 1]).value, ls[|ls| - 1])))
  }

  ghost predicate NotDeleting(s: State, h: string) {
    s.gc.On? && !s.gc.deleting.NoDeletion? ==> s.gc.deleting.path.hashPart != h
  }

  ghost predicate TreeDone(s: State, p: StorePath) {
    p in s.disk && s.disk[p].Complete?
  }

  ghost predicate StoreSafe(s: State) {
    && RefClosed(s.db) && (forall p | p in s.db :: TreeDone(s, p))
  }

  /** A root a client relies on is kept: it is known to the run, or will be. */
  ghost predicate RootKept(s: State, c: nat, p: StorePath) {
    s.gc.On? ==> (p.hashPart in s.gc.tempRoots || c in s.gc.unread) && NotDeleting(s, p.hashPart)
  }

  ghost predicate ClientSafe(s: State, c: nat, me: Client) {
    && (me.pc.Acked? ==> RootKept(s, c, me.pc.p))
    && (me.pc.Acked? && s.gc.On? ==> me.pc.p.hashPart in s.gc.tempRoots || me.pc.p.hashPart in HashParts(me.file))
    && (me.alive ==> forall p | p in me.file :: RootKept(s, c, p))
    && (me.pc.Rooted? || me.pc.Locked? || me.pc.Restoring? || me.pc.Restored? ==> me.pc.p in me.file)
    && (me.pc.Restoring? || me.pc.Restored? ==> me.pc.p !in s.db)
    && (me.pc.Restored? ==> TreeDone(s, me.pc.p))
  }

  ghost predicate OneOwner(s: State) {
    forall c, d, p | c in s.clients && d in s.clients && s.clients[c].Owns(p) && s.clients[d].Owns(p) :: c == d
  }

  ghost predicate Safe(s: State) {
    && StoreSafe(s) && OneOwner(s)
    && (forall c | c in s.clients :: ClientSafe(s, c, s.clients[c]))
    && (s.gc.On? && s.gc.deleting.Invalidated? ==> s.gc.deleting.path !in s.db)
  }

  lemma OneOwnerKept(s: State, l: Label)
    ensures OneOwner(s) && Do(s, l).Some? ==> OneOwner(Do(s, l).value)
  {
    hide RefClosed, Referrers, Merge, HashParts, ReferencesValid;
    if ByGc(l) {
      hide ClientStep;
    }
  }

  /** The collector keeps every client safe. */
  lemma GcKeepsClient(s: State, l: Label, c: nat)
    requires Coherent(s) && Safe(s) && ByGc(l) && !Overtakes(s, l) && c in s.clients
    ensures var t := Do(s, l);
            t.Some? && c in t.value.clients ==> ClientSafe(t.value, c, t.value.clients[c])
  {
    var me := s.clients[c];
    assert ClientSafe(s, c, me) && ClientCoherent(s, me);
    hide RefClosed, Referrers, Merge, ReferencesValid, OneOwner, Safe, Coherent, ClientStep;
    assert forall p | p in me.file :: p.hashPart in HashParts(me.file);
    hide HashParts;
  }

  lemma GcKeepsStore(s: State, l: Label)
    requires Safe(s) && ByGc(l)
    ensures var t := Do(s, l);
            t.Some? ==>
              && StoreSafe(t.value)
              && (t.value.gc.On? && t.value.gc.deleting.Invalidated? ==> t.value.gc.deleting.path !in t.value.db)
  {
    hide ClientSafe, OneOwner, HashParts, ClientStep;
    if l.Invalidate? && s.gc.On? && s.gc.deleting.Checked? {
      var p := s.gc.deleting.path;
      NoReferrers(s.db, p);
      if Referrers(s.db, p) <= {p} {
        InvalidateKeepsRefClosed(s.db, p);
      }
    }
    hide RefClosed, Referrers;
  }

  lemma RegisterKeepsStore(s: State, l: Label)
    requires Safe(s) && l.Register? && Do(s, l).Some?
    ensures var t := Do(s, l).value;
            StoreSafe(t) && (t.gc.On? && t.gc.deleting.Invalidated? ==> t.gc.deleting.path !in t.db)
  {
    hide OneOwner, HashParts, GcStep, AddTempRootStep;
    var me := s.clients[l.c];
    assert ClientSafe(s, l.c, me);
    RegisterKeepsRefClosed(s.db, map[me.pc.p := l.refs]);
    assert RootKept(s, l.c, me.pc.p);
    assert Merge(s.db, map[me.pc.p := l.refs]).Keys == s.db.Keys + {me.pc.p};
    hide RefClosed, Merge, ReferencesValid, ClientSafe;
  }

  lemma OnlyRegisterChangesDb(s: State, l: Label)
    requires !ByGc(l) && !l.Register? && Do(s, l).Some?
    ensures Do(s, l).value.db == s.db
  {
    hide RefClosed, Merge, ReferencesValid, HashParts, GcStep;
  }

  /** A client's step keeps the store sound. */
  lemma ClientKeepsStore(s: State, l: Label)
    requires Safe(s) && !ByGc(l) && Do(s, l).Some?
    ensures var t := Do(s, l).value;
            StoreSafe(t) && (t.gc.On? && t.gc.deleting.Invalidated? ==> t.gc.deleting.path !in t.db)
  {
    if l.Register? {
      RegisterKeepsStore(s, l);
    } else {
      ClientStepIsConfined(s, l);
      OnlyRegisterChangesDb(s, l);
      if l.c in s.clients && !s.clients[l.c].pc.Idle? {
        assert ClientSafe(s, l.c, s.clients[l.c]);
        assert forall q | s.clients[l.c].Owns(q) :: q !in s.db || s.clients[l.c].pc.Locked?;
      }
      LockedLeavesDisk(s, l);
    }
    hide Do, RefClosed, ClientSafe, OneOwner;
  }

  lemma LockedLeavesDisk(s: State, l: Label)
    requires !ByGc(l) && Do(s, l).Some?
    ensures l.c !in s.clients || s.clients[l.c].pc.Locked? ==> Do(s, l).value.disk == s.disk
  {
    hide RefClosed, Merge, ReferencesValid, HashParts, GcStep;
  }

  lemma AddTempRootKeepsClient(s: State, l: Label)
    requires Coherent(s) && Safe(s) && InAddTempRoot(l) && Do(s, l).Some?
    ensures ClientSafe(Do(s, l).value, l.c, Do(s, l).value.clients[l.c])
  {
    assert ClientSafe(s, l.c, s.clients[l.c]) && ClientCoherent(s, s.clients[l.c]);
    hide RefClosed, Referrers, Merge, ReferencesValid, OneOwner, StoreSafe, HashParts, GcStep, AddToStoreStep, TreeDone;
  }

  lemma AddToStoreKeepsClient(s: State, l: Label)
    requires Safe(s) && !ByGc(l) && !InAddTempRoot(l) && Do(s, l).Some?
    ensures ClientSafe(Do(s, l).value, l.c, Do(s, l).value.clients[l.c])
  {
    if !l.Spawn? {
      assert ClientSafe(s, l.c, s.clients[l.c]);
    }
    hide RefClosed, Referrers, Merge, ReferencesValid, Safe, OneOwner, HashParts, GcStep, AddTempRootStep;
  }

  /** A client's step leaves alone every path it does not own, and the run. */
  ghost predicate Confined(s: State, t: State, c: nat) {
    && t.runs == s.runs && t.gc.On? == s.gc.On?
    && (s.gc.On? ==> s.gc.tempRoots <= t.gc.tempRoots && t.gc.unread == s.gc.unread && t.gc.deleting == s.gc.deleting)
    && (forall q | q in t.db && q !in s.db :: c in s.clients && s.clients[c].Owns(q))
    && (forall q | q in s.disk && (c in s.clients ==> !s.clients[c].Owns(q)) :: q in t.disk && t.disk[q] == s.disk[q])
  }

  lemma ClientStepIsConfined(s: State, l: Label)
    requires !ByGc(l) && Do(s, l).Some?
    ensures Confined(s, Do(s, l).value, l.c)
  {
    hide RefClosed, Referrers, ReferencesValid, HashParts, GcStep;
  }

  lemma ClientKeepsOthers(s: State, l: Label, c: nat)
    requires Safe(s) && !ByGc(l) && Do(s, l).Some? && c in s.clients && c != l.c
    ensures ClientSafe(Do(s, l).value, c, s.clients[c])
  {
    ClientStepIsConfined(s, l);
    assert ClientSafe(s, c, s.clients[c]);
    if l.c in s.clients && !s.clients[c].pc.Idle? {
      var p := s.clients[c].pc.p;
      assert s.clients[c].Owns(p) ==> !s.clients[l.c].Owns(p);
    }
    hide RefClosed, Referrers, Merge, ReferencesValid, OneOwner, StoreSafe, HashParts, GcStep, ClientStep, Do;
  }

  lemma SafeKept(s: State, l: Label)
    requires Coherent(s) && Safe(s) && !Overtakes(s, l)
    ensures Do(s, l).Some? ==> Safe(Do(s, l).value)
  {
    hide RefClosed, Referrers, Merge, ReferencesValid, HashParts, StoreSafe, OneOwner, ClientSafe, Coherent;
    OneOwnerKept(s, l);
    if Do(s, l).Some? {
      var t := Do(s, l).value;
      if ByGc(l) {
        GcKeepsStore(s, l);
        hide ClientStep;
        forall c | c in t.clients ensures ClientSafe(t, c, t.clients[c]) {
          GcKeepsClient(s, l, c);
        }
      } else {
        ClientKeepsStore(s, l);
        if InAddTempRoot(l) {
          AddTempRootKeepsClient(s, l);
        } else {
          AddToStoreKeepsClient(s, l);
        }
        hide GcStep, ClientStep;
        forall c | c in t.clients && c != l.c ensures ClientSafe(t, c, t.clients[c]) {
          ClientKeepsOthers(s, l, c);
        }
      }
    }
  }

  /** Composed safety: from a sound store with nobody at work, in every
      interleaving of any number of collections and clients in which no
      collection overtakes a client, every valid path has its complete tree and
      all its references are valid. */
  lemma {:induction false} ValidPathsAreComplete(s: State, ls: seq<Label>)
    requires Init(s) && Prompt(s, ls)
    ensures var t := Run(Do, s, ls);
            t.Some? ==> Safe(t.value) && Coherent(t.value)
    ensures var t := Run(Do, s, ls);
            t.Some? ==> RefClosed(t.value.db) && forall p | p in t.value.db :: TreeDone(t.value, p)
  {
    if ls != [] {
      var front := Run(Do, s, ls[..|ls| - 1]);
      if front.Some? {
        ValidPathsAreComplete(s, ls[..|ls| - 1]);
        hide Safe, Coherent, RefClosed, Do, Overtakes;
        SafeKept(front.value, ls[|ls| - 1]);
        CoherentKept(front.value, ls[|ls| - 1]);
        SafeMeans();
      }
    }
  }

  lemma SafeMeans()
    ensures forall s: State :: Safe(s) ==> RefClosed(s.db) && forall p | p in s.db :: TreeDone(s, p)
  {
  }

  /** Before the first collection nobody has asked a server. */
  ghost predicate Unasked(s: State) {
    s.gc.Off?
    && forall c | c in s.clients :: !s.clients[c].pc.Sent? && !s.clients[c].pc.Inserted? && !s.clients[c].pc.Acked?
  }

  lemma RunsCounted(s: State, l: Label)
    ensures Do(s, l).Some? ==> Do(s, l).value.runs == s.runs + if l.LockGc? then 1 else 0
    ensures Do(s, l).Some? && Unasked(s) && !l.LockGc? ==> Unasked(Do(s, l).value)
  {
    hide Referrers, Merge, ReferencesValid, HashParts;
  }

  /** In one collection nobody can be overtaken. */
  lemma {:induction false} OneCollectionIsPrompt(s: State, ls: seq<Label>)
    requires Init(s)
    ensures var t := Run(Do, s, ls);
            t.Some? ==> t.value.runs >= s.runs && (t.value.runs == s.runs ==> Unasked(t.value))
    ensures var t := Run(Do, s, ls);
            t.Some? && t.value.runs <= s.runs + 1 ==> Prompt(s, ls)
  {
    if ls != [] {
      var front, l := Run(Do, s, ls[..|ls| - 1]), ls[|ls| - 1];
      if front.Some? {
        OneCollectionIsPrompt(s, ls[..|ls| - 1]);
        RunsCounted(front.value, l);
        assert Unasked(front.value) ==> !Overtakes(front.value, l);
        hide Do, Overtakes, Unasked, HashParts, RefClosed;
      }
    }
  }

  /** The client `c` lives, has `p` in its file, and `p` is valid. */
  ghost predicate Relied(s: State, c: nat, p: StorePath) {
    c in s.clients && s.clients[c].alive && p in s.clients[c].file && p in s.db
  }

  lemma ReliedKept(s: State, l: Label, c: nat, p: StorePath)
    requires Safe(s) && Relied(s, c, p)
    ensures Do(s, l).Some? && l != Die(c) ==> Relied(Do(s, l).value, c, p)
  {
    assert ClientSafe(s, c, s.clients[c]) && RootKept(s, c, p);
    hide Safe, ClientSafe, Referrers, ReferencesValid, HashParts;
  }

  /** What a temporary root is for: from the moment `addTempRoot` has returned
      for a valid path it stays valid as long as the client lives, through any
      number of collections that overtake nobody. */
  lemma {:induction false} RootedPathStaysValid(s: State, ls: seq<Label>, later: seq<Label>, c: nat, p: StorePath)
    requires Init(s) && Run(Do, s, ls).Some? && Relied(Run(Do, s, ls).value, c, p)
    requires Die(c) !in later && Prompt(s, ls + later)
    ensures var t := Run(Do, s, ls + later);
            t.Some? ==> Relied(t.value, c, p)
    decreases |later|
  {
    if later == [] {
      assert ls + later == ls;
    } else {
      var front := later[..|later| - 1];
      assert (ls + later)[..|ls + later| - 1] == ls + front;
      RootedPathStaysValid(s, ls, front, c, p);
      ValidPathsAreComplete(s, ls + front);
      hide Safe, Coherent, Relied, RefClosed, Do;
      if Run(Do, s, ls + later).Some? {
        ReliedKept(Run(Do, s, ls + front).value, later[|later| - 1], c, p);
      }
    }
  }

  // ---------------------------------------------------------------------
  // What a client has achieved.

  /** Registration records the references it is given beside those the path may
      have had, and touches no other path. */
  lemma RegisterRecords(s: State, c: nat, refs: set<StorePath>)
    requires Do(s, Register(c, refs)).Some?
    ensures var t, p := Do(s, Register(c, refs)).value, s.clients[c].pc.p;
            && t.db.Keys == s.db.Keys + {p} && (forall q | q in s.db && q != p :: t.db[q] == s.db[q])
            && (forall q :: q in t.db[p] <==> q in refs || (p in s.db && q in s.db[p]))
            && refs <= t.db.Keys && t.disk == s.disk && t.gc == s.gc
            && t.clients == s.clients[c := s.clients[c].(pc := Idle)]
  {
    hide HashParts, RefClosed, GcStep, AddTempRootStep;
  }

  /** `addToStore` ends with the path valid, unless it is abandoned or dies. */
  lemma FinishedIsValid(s: State, l: Label)
    requires !ByGc(l) && !InAddTempRoot(l) && Do(s, l).Some? && l.c in s.clients
    requires !s.clients[l.c].pc.Idle? && Do(s, l).value.clients[l.c].pc.Idle?
    ensures l.Abandon? || l.Die? || s.clients[l.c].pc.p in Do(s, l).value.db
  {
    hide HashParts, RefClosed, GcStep, AddTempRootStep, Referrers;
  }

  /** References of a path that stays valid only grow. */
  lemma ReferencesGrow(s: State, l: Label, p: StorePath)
    requires p in s.db && Do(s, l).Some? && p in Do(s, l).value.db
    ensures s.db[p] <= Do(s, l).value.db[p]
  {
    hide HashParts, RefClosed;
  }

  /** The path is valid now and after every step. */
  predicate StaysValid(s: State, ls: seq<Label>, p: StorePath) {
    && (ls != [] ==> StaysValid(s, ls[..|ls| - 1], p))
    && (Run(Do, s, ls).Some? ==> p in Run(Do, s, ls).value.db)
  }

  lemma {:induction false} ReferencesGrowOn(s: State, ls: seq<Label>, p: StorePath)
    requires p in s.db && StaysValid(s, ls, p)
    ensures Run(Do, s, ls).Some? ==> s.db[p] <= Run(Do, s, ls).value.db[p]
  {
    if ls != [] {
      ReferencesGrowOn(s, ls[..|ls| - 1], p);
      hide Do;
      if Run(Do, s, ls).Some? {
        ReferencesGrow(Run(Do, s, ls[..|ls| - 1]).value, ls[|ls| - 1], p);
      }
    }
  }

  /** From its registration on, as long as a path stays valid, it has all the
      references it was registered with, they are valid, and their trees are
      complete, through any number of collections that overtake nobody. */
  lemma RegisteredReferencesAreKept(s: State, ls: seq<Label>, c: nat, refs: set<StorePath>, later: seq<Label>)
    requires Init(s) && Run(Do, s, ls + [Register(c, refs)]).Some? && Prompt(s, ls + [Register(c, refs)] + later)
    requires StaysValid(Run(Do, s, ls + [Register(c, refs)]).value, later, Run(Do, s, ls).value.clients[c].pc.p)
    ensures var p, t := Run(Do, s, ls).value.clients[c].pc.p, Run(Do, s, ls + [Register(c, refs)] + later);
            t.Some? ==>
              && p in t.value.db && refs <= t.value.db[p]
              && forall q | q in refs :: q in t.value.db && TreeDone(t.value, q)
  {
    var mid := ls + [Register(c, refs)];
    assert mid[..|mid| - 1] == ls;
    RegisterRecords(Run(Do, s, ls).value, c, refs);
    var u, p := Run(Do, s, mid).value, Run(Do, s, ls).value.clients[c].pc.p;
    Append(Do, s, mid, later);
    ReferencesGrowOn(u, later, p);
    ValidPathsAreComplete(s, mid + later);
    hide Do, Safe, Coherent, Prompt, Init;
    if Run(Do, u, later).Some? {
      var t := Run(Do, u, later).value;
      assert StaysValid(u, later, p) && p in t.db && refs <= u.db[p] <= t.db[p] <= t.db.Keys;
    }
    hide Run;
  }

  /** In particular as long as the client lives. */
  lemma {:induction false} RootedStaysValid(s: State, ls: seq<Label>, later: seq<Label>, c: nat, p: StorePath)
    requires Init(s) && Run(Do, s, ls).Some? && Relied(Run(Do, s, ls).value, c, p)
    requires Die(c) !in later && Prompt(s, ls + later)
    ensures StaysValid(Run(Do, s, ls).value, later, p)
    decreases |later|
  {
    RootedPathStaysValid(s, ls, later, c, p);
    Append(Do, s, ls, later);
    if later != [] {
      var front := later[..|later| - 1];
      assert (ls + later)[..|ls + later| - 1] == ls + front;
      RootedStaysValid(s, ls, front, c, p);
    }
    hide Do, Prompt, Init;
  }

  lemma {:induction false} PromptBefore(s: State, xs: seq<Label>, ys: seq<Label>)
    requires Prompt(s, xs + ys)
    ensures Prompt(s, xs)
    decreases |ys|
  {
    if ys == [] {
      assert xs + ys == xs;
    } else {
      assert (xs + ys)[..|xs + ys| - 1] == xs + ys[..|ys| - 1];
      PromptBefore(s, xs, ys[..|ys| - 1]);
    }
  }

  lemma RegistersRelied(s: State, c: nat, refs: set<StorePath>)
    requires Safe(s) && Do(s, Register(c, refs)).Some?
    ensures Relied(Do(s, Register(c, refs)).value, c, s.clients[c].pc.p)
  {
    assert ClientSafe(s, c, s.clients[c]);
    RegisterRecords(s, c, refs);
    hide Safe, ClientSafe, GcStep, AddTempRootStep, Merge, ReferencesValid;
  }

  /** What `addToStore` promises: as long as the client that added a path lives,
      the path stays valid with its references, and theirs and its own trees are
      complete. */
  lemma AddedIsKept(s: State, ls: seq<Label>, c: nat, refs: set<StorePath>, later: seq<Label>)
    requires Init(s) && Run(Do, s, ls + [Register(c, refs)]).Some? && Prompt(s, ls + [Register(c, refs)] + later)
    requires Die(c) !in later
    ensures var p, t := Run(Do, s, ls).value.clients[c].pc.p, Run(Do, s, ls + [Register(c, refs)] + later);
            t.Some? ==>
              Relied(t.value, c, p) && refs <= t.value.db[p] && forall q | q in refs + {p} :: TreeDone(t.value, q)
  {
    var mid := ls + [Register(c, refs)];
    assert mid[..|mid| - 1] == ls;
    assert ls + ([Register(c, refs)] + later) == mid + later;
    PromptBefore(s, ls, [Register(c, refs)] + later);
    ValidPathsAreComplete(s, ls);
    hide Do, Safe, Coherent, Init, Prompt, Relied;
    RegistersRelied(Run(Do, s, ls).value, c, refs);
    var p := Run(Do, s, ls).value.clients[c].pc.p;
    RootedStaysValid(s, mid, later, c, p);
    RootedPathStaysValid(s, mid, later, c, p);
    RegisteredReferencesAreKept(s, ls, c, refs, later);
    ValidPathsAreComplete(s, mid + later);
    hide Run, StaysValid;
  }

  // ---------------------------------------------------------------------
  // What a client can achieve.

  /** `c` wants a root for `p` and has not got it yet, and lives. */
  ghost predicate Asks(s: State, c: nat, p: StorePath) {
    c in s.clients && s.clients[c].alive && s.clients[c].pc == WantRoot(p)
  }

  ghost predicate HasRoot(s: State, c: nat, p: StorePath) {
    c in s.clients && s.clients[c].alive && s.clients[c].pc == Rooted(p) && p in s.clients[c].file
  }

  /** While no collection runs it takes the shared lock. */
  lemma RootsAlone(s: State, c: nat, p: StorePath) returns (ls: seq<Label>, t: State)
    requires Asks(s, c, p) && s.gc.Off?
    ensures Run(Do, s, ls) == Some(t) && HasRoot(t, c, p) && ls == [TakeShared(c), WriteShared(c)]
  {
    hide Run, AddToStoreStep, GcStep;
    Nothing(Do, s);
    ls, t := Extend(Do, s, [], TakeShared(c));
    ls, t := Extend(Do, s, ls, WriteShared(c));
  }

  /** The collection ends what it does with a path, if anything. */
  lemma Unpends(s: State, before: seq<Label>, c: nat, me: Client) returns (ls: seq<Label>, t: State)
    requires Run(Do, s, before).Some? && Coherent(Run(Do, s, before).value)
    requires var u := Run(Do, s, before).value;
             u.gc.On? && u.gc.serverUp && c in u.clients && u.clients[c] == me && u.runs == s.runs
    ensures Run(Do, s, ls) == Some(t) && before <= ls && EndRun !in ls[|before|..] && LockGc !in ls[|before|..]
    ensures t.gc.On? && t.gc.serverUp && t.gc.pending.None? && c in t.clients && t.clients[c] == me && t.runs == s.runs
  {
    hide Run, ClientStep, Referrers, HashParts;
    ls, t := before, Run(Do, s, before).value;
    if t.gc.deleting.Checked? {
      ls, t := Extend(Do, s, ls, Invalidate);
    }
    if t.gc.deleting.Invalidated? {
      ls, t := Extend(Do, s, ls, RemoveAll);
    }
    if t.gc.pending.Some? {
      ls, t := Extend(Do, s, ls, ReleasePending);
    }
  }

  /** It asks the server of the run. */
  lemma AsksServer(s: State, c: nat, p: StorePath) returns (ls: seq<Label>, t: State)
    requires Coherent(s) && Asks(s, c, p) && s.gc.On?
    ensures Run(Do, s, ls) == Some(t) && EndRun !in ls && LockGc !in ls && Coherent(t)
    ensures t.gc.On? && t.gc.serverUp && t.runs == s.runs
    ensures c in t.clients && t.clients[c] == s.clients[c].(pc := Inserted(p, s.runs))
  {
    hide Run, AddToStoreStep, HashParts;
    Nothing(Do, s);
    ls, t := Extend(Do, s, [], StartServer);
    assert t.gc.serverUp && t.clients == s.clients && t.runs == s.runs;
    hide GcStep;
    ls, t := Extend(Do, s, ls, Send(c));
    ls, t := Extend(Do, s, ls, Receive(c));
    ReachableIsCoherent(s, ls);
  }

  /** During a collection it gets its root without waiting for the end of it. */
  lemma RootsDuringRun(s: State, c: nat, p: StorePath) returns (ls: seq<Label>, t: State)
    requires Coherent(s) && Asks(s, c, p) && s.gc.On?
    ensures Run(Do, s, ls) == Some(t) && HasRoot(t, c, p) && EndRun !in ls && LockGc !in ls
  {
    hide Run, Coherent, AddToStoreStep, GcStep;
    ls, t := AsksServer(s, c, p);
    var me := t.clients[c];
    ls, t := Unpends(s, ls, c, me);
    ls, t := Extend(Do, s, ls, Ack(c));
    ls, t := Extend(Do, s, ls, WriteAcked(c));
  }

  /** A client whose server has gone away asks again. */
  lemma AsksAgain(s: State, c: nat)
    requires c in s.clients && s.clients[c].alive && (s.clients[c].pc.Sent? || s.clients[c].pc.Inserted?)
    ensures var t := Do(s, Disconnect(c)); t.Some? && Asks(t.value, c, s.clients[c].pc.p) && t.value.gc == s.gc
  {
    hide HashParts, AddToStoreStep, GcStep;
  }

  /** With its root in the file, and the path owned by nobody, a client can make
      the path valid: with the tree complete, and the references it wants if the
      path was not valid before. */
  lemma CanAdd(s: State, c: nat, p: StorePath, refs: set<StorePath>) returns (ls: seq<Label>, t: State)
    requires Safe(s) && HasRoot(s, c, p) && refs <= s.db.Keys + {p}
    requires forall d | d in s.clients :: !s.clients[d].Owns(p)
    ensures Run(Do, s, ls) == Some(t) && forall n | 0 <= n < |ls| :: !ByGc(ls[n]) && ls[n].c == c
    ensures p in t.db && TreeDone(t, p) && t.clients == s.clients[c := s.clients[c].(pc := Idle)]
    ensures t.db == if p in s.db then s.db else s.db[p := refs]
  {
    hide Run, GcStep, AddTempRootStep, RefClosed, OneOwner, ClientSafe, HashParts;
    Nothing(Do, s);
    ls, t := Extend(Do, s, [], LockPath(c));
    if p in s.db {
      ls, t := Extend(Do, s, ls, FoundValid(c));
    } else {
      hide Safe, StoreSafe;
      ls, t := Stores(s, ls, c, p, refs);
    }
  }

  /** It finds the path invalid and restores its tree. */
  lemma RestoresTree(s: State, before: seq<Label>, c: nat, p: StorePath) returns (ls: seq<Label>, t: State)
    requires Run(Do, s, before).Some?
    requires var u := Run(Do, s, before).value;
             c in u.clients && u.clients[c].alive && u.clients[c].pc == Locked(p) && p !in u.db
    ensures Run(Do, s, ls) == Some(t) && ls == before + [FoundInvalid(c), Finish(c)]
    ensures var u := Run(Do, s, before).value;
            t.db == u.db && TreeDone(t, p) && t.clients == u.clients[c := u.clients[c].(pc := Restored(p))]
  {
    hide Run, GcStep, AddTempRootStep, Merge, ReferencesValid;
    ls, t := Extend(Do, s, before, FoundInvalid(c));
    ls, t := Extend(Do, s, ls, Finish(c));
  }

  lemma MayRegister(s: State, c: nat, p: StorePath, refs: set<StorePath>)
    requires c in s.clients && s.clients[c].alive && s.clients[c].pc == Restored(p)
    requires p !in s.db && refs <= s.db.Keys + {p}
    ensures var t := Do(s, Register(c, refs));
            t.Some? && t.value.db == s.db[p := refs] && t.value.disk == s.disk
            && t.value.clients == s.clients[c := s.clients[c].(pc := Idle)]
  {
    hide GcStep, AddTempRootStep, HashParts, RefClosed;
    assert Do(s, Register(c, refs)).Some?;
    RegisterRecords(s, c, refs);
    hide Do;
    var t := Do(s, Register(c, refs)).value;
    assert t.db.Keys == s.db[p := refs].Keys && t.db[p] == refs;
  }

  lemma Stores(s: State, before: seq<Label>, c: nat, p: StorePath, refs: set<StorePath>)
      returns (ls: seq<Label>, t: State)
    requires Run(Do, s, before).Some?
    requires var u := Run(Do, s, before).value;
             && c in u.clients && u.clients[c].alive && u.clients[c].pc == Locked(p)
             && p !in u.db && refs <= u.db.Keys + {p}
    ensures Run(Do, s, ls) == Some(t) && ls == before + [FoundInvalid(c), Finish(c), Register(c, refs)]
    ensures var u := Run(Do, s, before).value;
            t.db == u.db[p := refs] && TreeDone(t, p) && t.clients == u.clients[c := u.clients[c].(pc := Idle)]
  {
    hide Run, Do;
    ls, t := RestoresTree(s, before, c, p);
    MayRegister(t, c, p, refs);
    ls, t := Extend(Do, s, ls, Register(c, refs));
  }

  /** A client that restores can leave anything in place of the tree, one that
      finds the path valid need not restore it, and one that has its root can give
      up without touching the store. */
  lemma MayStop(s: State, c: nat, tree: Option<Tree>)
    requires c in s.clients && s.clients[c].alive && !s.clients[c].pc.Idle?
    ensures var me := s.clients[c];
            var idle := s.(clients := s.clients[c := me.(pc := Idle)]);
            && (me.pc.Restoring? ==>
                  var t := Do(s, Change(c, tree));
                  && t.Some? && t.value.db == s.db && t.value.clients == s.clients
                  && (if tree.Some? then me.pc.p in t.value.disk && t.value.disk[me.pc.p] == tree.value
                      else me.pc.p !in t.value.disk)
                  && forall q | q != me.pc.p :: q in s.disk <==> q in t.value.disk && t.value.disk[q] == s.disk[q])
            && (me.pc.Rooted? && me.pc.p in s.db ==> Do(s, SkipValid(c)) == Some(idle))
            && (Do(s, Abandon(c)).Some? <==> me.pc.Rooted? || me.Owns(me.pc.p))
            && (Do(s, Abandon(c)).Some? ==> Do(s, Abandon(c)) == Some(idle))
  {
    hide HashParts, RefClosed, GcStep, AddTempRootStep;
  }

  /** A client that lives asks for a root when it has nothing else to do. */
  lemma MayBegin(s: State, c: nat, p: StorePath)
    requires c in s.clients && s.clients[c].alive
    ensures Do(s, Begin(c, p)).Some? <==> s.clients[c].pc.Idle?
    ensures Do(s, Begin(c, p)).Some? ==> Asks(Do(s, Begin(c, p)).value, c, p)
  {
    hide GcStep, AddToStoreStep;
  }

  // ---------------------------------------------------------------------
  // What a collection does to those who wait.

  /** A new collection knows no root and has every file to read; before its server
      is up nobody can ask it, and it picks no path. */
  lemma FreshRun(s: State, c: nat, p: StorePath)
    requires Do(s, LockGc).Some?
    ensures var t := Do(s, LockGc).value;
            && t.gc.On? && t.gc.unread == s.clients.Keys && t.gc.tempRoots == {} && t.gc.pending.None?
            && Do(t, Send(c)).None? && Do(t, Scan(p)).None? && Do(t, Check(p)).None? && Do(t, LockGc).None?
  {
    hide AddToStoreStep;
  }

  /** When all files are read it may pick exactly the paths that are no roots, and
      while it looks at one nobody is told that it has a root for it. */
  lemma Picks(s: State, p: StorePath, c: nat)
    requires s.gc.On? && s.gc.serverUp && s.gc.unread == {} && s.gc.deleting.NoDeletion?
    requires c in s.clients && s.clients[c].pc.Inserted? && s.clients[c].pc.p.hashPart == p.hashPart
    ensures p.hashPart in s.gc.tempRoots ==> Do(s, Scan(p)).None? && Do(s, Check(p)).None?
    ensures p.hashPart !in s.gc.tempRoots ==>
              && Do(s, Scan(p)).Some? && Do(Do(s, Scan(p)).value, Ack(c)).None?
              && Do(s, Check(p)).Some? && Do(Do(s, Check(p)).value, Ack(c)).None?
  {
    hide AddToStoreStep;
  }

  /** When a deletion is over or given up, nobody has to wait any longer. */
  lemma DeletionReleases(s: State, l: Label)
    requires s.gc.On? && !s.gc.deleting.NoDeletion? && Do(s, l).Some?
    ensures var t := Do(s, l).value;
            t.gc.On? && t.gc.deleting.NoDeletion? ==> t.gc.pending.None?
    ensures l.EndRun? ==> Do(s, l).value.gc.Off? && Do(Do(s, l).value, EndRun).None?
  {
    hide Referrers, Merge, ReferencesValid, HashParts;
  }

  // ---------------------------------------------------------------------
  // A collection that overtakes a client.

  /** All clients but `c` are dead or still to be read; `c` waits to write its
      file, and the collection does not know its root. */
  ghost predicate Overtaking(s: State, c: nat, me: Client, db: Db) {
    && Coherent(s) && s.gc.On? && s.gc.serverUp && s.gc.deleting.NoDeletion?
    && c in s.clients && s.clients[c] == me && Exposed(me) && me.pc.p.hashPart !in s.gc.tempRoots
    && s.gc.unread <= s.clients.Keys
    && (forall d | d in s.clients && d !in s.gc.unread && d != c :: !s.clients[d].alive)
    && s.db == db
  }

  lemma OvertakingReads(s: State, c: nat, me: Client, db: Db, d: nat)
    requires Overtaking(s, c, me, db) && d in s.gc.unread
    ensures d != c && s.clients[d].alive ==>
              Do(s, Die(d)).Some? && Overtaking(Do(s, Die(d)).value, c, me, db) && Do(s, Die(d)).value.gc == s.gc
              && !Do(s, Die(d)).value.clients[d].alive
    ensures d == c || !s.clients[d].alive ==>
              Do(s, ReadFile(d)).Some? && Overtaking(Do(s, ReadFile(d)).value, c, me, db)
              && Do(s, ReadFile(d)).value.gc.unread == s.gc.unread - {d}
  {
    CoherentKept(s, Die(d));
    CoherentKept(s, ReadFile(d));
    hide Coherent, AddTempRootStep, HashParts;
  }

  /** The other clients die, and the collection reads every file. */
  lemma {:induction false} AllRead(s: State, before: seq<Label>, c: nat, me: Client, db: Db)
      returns (ls: seq<Label>, t: State)
    requires Run(Do, s, before).Some? && Overtaking(Run(Do, s, before).value, c, me, db)
    ensures Run(Do, s, ls) == Some(t) && Overtaking(t, c, me, db) && t.gc.unread == {}
    ensures before <= ls && EndRun !in ls[|before|..]
    decreases |Run(Do, s, before).value.gc.unread|
  {
    hide Run, Do, Coherent;
    ls, t := before, Run(Do, s, before).value;
    if d :| d in t.gc.unread {
      OvertakingReads(t, c, me, db, d);
      if d != c && t.clients[d].alive {
        ls, t := Extend(Do, s, ls, Die(d));
        OvertakingReads(t, c, me, db, d);
      }
      ls, t := Extend(Do, s, ls, ReadFile(d));
      ls, t := AllRead(s, ls, c, me, db);
    }
  }

  /** The collection has invalidated `p`, and no client but `c` is at work. */
  ghost predicate Doomed(s: State, c: nat, me: Client, p: StorePath) {
    && s.gc.On? && s.gc.deleting == Invalidated(p) && p !in s.db
    && c in s.clients && s.clients[c] == me && me.alive
    && forall d | d in s.clients && d != c :: s.clients[d].pc.Idle?
  }

  /** It picks `p` for deletion. */
  lemma Picked(s: State, before: seq<Label>, c: nat, me: Client, db: Db) returns (ls: seq<Label>, t: State)
    requires Run(Do, s, before).Some? && Overtaking(Run(Do, s, before).value, c, me, db)
    requires Run(Do, s, before).value.gc.unread == {} && (me.pc.p !in db || Referrers(db, me.pc.p) <= {me.pc.p})
    ensures Run(Do, s, ls) == Some(t) && Doomed(t, c, me, me.pc.p) && before <= ls && EndRun !in ls[|before|..]
  {
    hide Run, AddTempRootStep, AddToStoreStep;
    var u := Run(Do, s, before).value;
    assert forall d | d in u.clients :: ClientCoherent(u, u.clients[d]);
    ls, t := Extend(Do, s, before, Check(me.pc.p));
    ls, t := Extend(Do, s, ls, Invalidate);
  }

  /** The client takes `addTempRoot` to have succeeded. */
  lemma Misled(s: State, before: seq<Label>, c: nat, me: Client, p: StorePath) returns (ls: seq<Label>, t: State)
    requires Run(Do, s, before).Some? && Doomed(Run(Do, s, before).value, c, me, p) && me.pc == Acked(p)
    ensures Run(Do, s, ls) == Some(t) && Doomed(t, c, Client(true, me.file + {p}, Rooted(p)), p)
    ensures before <= ls && EndRun !in ls[|before|..]
  {
    hide Run, GcStep, AddToStoreStep;
    ls, t := Extend(Do, s, before, WriteAcked(c));
  }

  /** It finds `p` invalid. */
  lemma Restores(s: State, before: seq<Label>, c: nat, me: Client, p: StorePath) returns (ls: seq<Label>, t: State)
    requires Run(Do, s, before).Some? && Doomed(Run(Do, s, before).value, c, me, p) && me.pc == Rooted(p)
    ensures Run(Do, s, ls) == Some(t) && Doomed(t, c, me.(pc := Restoring(p)), p)
    ensures before <= ls && EndRun !in ls[|before|..]
  {
    hide Run, GcStep, AddTempRootStep, Merge, ReferencesValid;
    ls, t := Extend(Do, s, before, LockPath(c));
    assert Doomed(t, c, me.(pc := Locked(p)), p);
    ls, t := Extend(Do, s, ls, FoundInvalid(c));
  }

  /** The client registers `p` while its tree is being deleted. */
  lemma Registered(s: State, before: seq<Label>, c: nat, me: Client, p: StorePath) returns (ls: seq<Label>, t: State)
    requires Run(Do, s, before).Some? && Doomed(Run(Do, s, before).value, c, me, p) && me.pc == Restoring(p)
    ensures Run(Do, s, ls) == Some(t) && before <= ls && EndRun !in ls[|before|..]
    ensures t.gc.On? && t.gc.deleting == Invalidated(p) && p in t.db && TreeDone(t, p)
    ensures c in t.clients && t.clients[c] == me.(pc := Idle)
  {
    hide Run, Referrers, AddTempRootStep, GcStep, HashParts, RefClosed;
    ls, t := Extend(Do, s, before, Finish(c));
    assert Doomed(t, c, me.(pc := Restored(p)), p);
    assert ReferencesValid(t.db, map[p := {}]);
    hide ReferencesValid, Doomed;
    ls, t := Extend(Do, s, ls, Register(c, {}));
  }

  /** Then its tree is deleted, a part first. */
  lemma Destroyed(s: State, before: seq<Label>, p: StorePath) returns (ls: seq<Label>, t: State)
    requires Run(Do, s, before).Some?
    requires var u := Run(Do, s, before).value;
             u.gc.On? && u.gc.deleting == Invalidated(p) && p in u.db && TreeDone(u, p)
    ensures var u := Run(Do, s, before).value;
            Run(Do, s, ls) == Some(t) && t.clients == u.clients && p in t.db && p !in t.disk
    ensures ls == before + [RemovePart, RemoveAll]
    ensures var m := Run(Do, s, before + [RemovePart]);
            m.Some? && p in m.value.db && p in m.value.disk && m.value.disk[p].Partial?
  {
    hide Run, ClientStep;
    ls, t := Extend(Do, s, before, RemovePart);
    ls, t := Extend(Do, s, ls, RemoveAll);
  }

  /** The other half: from any coherent state in which a collection may overtake
      a client whose path is not valid, or used by nothing else, it has a course
      that leaves the path valid and its tree gone. */
  lemma OvertakenRootIsLost(s: State, c: nat) returns (ls: seq<Label>, t: State)
    requires Coherent(s) && Do(s, LockGc).Some? && c in s.clients && Exposed(s.clients[c])
    requires var p := s.clients[c].pc.p; p !in s.db || Referrers(s.db, p) <= {p}
    ensures var p := s.clients[c].pc.p;
            && Run(Do, s, [LockGc] + ls) == Some(t) && EndRun !in ls
            && Relied(t, c, p) && p !in t.disk
  {
    hide Run, AddTempRootStep, AddToStoreStep, HashParts, Coherent, Referrers;
    var me, p := s.clients[c], s.clients[c].pc.p;
    Nothing(Do, s);
    CoherentKept(s, LockGc);
    var all: seq<Label>;
    all, t := Extend(Do, s, [], LockGc);
    CoherentKept(t, StartServer);
    all, t := Extend(Do, s, all, StartServer);
    assert Overtaking(t, c, me, s.db);
    hide Do, Overtaking, Doomed;
    all, t := AllRead(s, all, c, me, s.db);
    all, t := OvertakenToTheEnd(s, all, c, me, s.db);
    ls := all[1..];
    assert all == [LockGc] + ls;
  }

  lemma OvertakenToTheEnd(s: State, before: seq<Label>, c: nat, me: Client, db: Db) returns (ls: seq<Label>, t: State)
    requires Run(Do, s, before).Some? && Overtaking(Run(Do, s, before).value, c, me, db)
    requires Run(Do, s, before).value.gc.unread == {} && (me.pc.p !in db || Referrers(db, me.pc.p) <= {me.pc.p})
    ensures Run(Do, s, ls) == Some(t) && Relied(t, c, me.pc.p) && me.pc.p !in t.disk
    ensures before <= ls && EndRun !in ls[|before|..]
  {
    hide Run, Do, Doomed, Referrers;
    ls, t := Picked(s, before, c, me, db);
    ls, t := Misled(s, ls, c, me, me.pc.p);
    ls, t := Restores(s, ls, c, Client(true, me.file + {me.pc.p}, Rooted(me.pc.p)), me.pc.p);
    ls, t := Registered(s, ls, c, Client(true, me.file + {me.pc.p}, Restoring(me.pc.p)), me.pc.p);
    ls, t := Destroyed(s, ls, me.pc.p);
  }

  // ---------------------------------------------------------------------
  // Two collections one after the other can do so.

  /** One client, no collection, nothing in the store. */
  ghost predicate Alone(t: State, me: Client, runs: nat) {
    t.db == map[] && t.disk == map[] && t.clients.Keys == {0} && t.clients[0] == me && t.runs == runs
  }

  /** A client appears and wants to root `p`, and a collection starts. */
  lemma Started(s: State, p: StorePath) returns (ls: seq<Label>, t: State)
    requires s == State(map[], map[], map[], Off, 0)
    ensures Run(Do, s, ls) == Some(t) && Alone(t, Client(true, {}, WantRoot(p)), 1)
    ensures t.gc.On? && t.gc.pending.None?
  {
    hide Run, Referrers, AddToStoreStep, HashParts;
    Nothing(Do, s);
    ls, t := Extend(Do, s, [], Spawn(0));
    assert Alone(t, Client(true, {}, Idle), 0);
    ls, t := Extend(Do, s, ls, Begin(0, p));
    ls, t := Extend(Do, s, ls, LockGc);
  }

  /** The client sends the root to the server of the run. */
  lemma Asked(s: State, before: seq<Label>, p: StorePath) returns (ls: seq<Label>, t: State)
    requires Run(Do, s, before).Some? && Alone(Run(Do, s, before).value, Client(true, {}, WantRoot(p)), 1)
    requires Run(Do, s, before).value.gc.On? && Run(Do, s, before).value.gc.pending.None?
    ensures Run(Do, s, ls) == Some(t) && Alone(t, Client(true, {}, Sent(p, 1)), 1)
    ensures t.gc.On? && t.gc.pending.None?
  {
    hide Run, Referrers, AddToStoreStep, HashParts;
    ls, t := Extend(Do, s, before, StartServer);
    ls, t := Extend(Do, s, ls, Send(0));
  }

  /** The run acknowledges `p` and ends before the client writes its file. */
  lemma Acknowledged(s: State, before: seq<Label>, p: StorePath) returns (ls: seq<Label>, t: State)
    requires Run(Do, s, before).Some? && Alone(Run(Do, s, before).value, Client(true, {}, Sent(p, 1)), 1)
    requires Run(Do, s, before).value.gc.On? && Run(Do, s, before).value.gc.pending.None?
    ensures Run(Do, s, ls) == Some(t) && Alone(t, Client(true, {}, Acked(p)), 1) && t.gc.Off?
  {
    hide Run, Referrers, Merge, ReferencesValid;
    ls, t := Extend(Do, s, before, Receive(0));
    ls, t := Extend(Do, s, ls, Ack(0));
    ls, t := Extend(Do, s, ls, EndRun);
  }

  /** Between the server's acknowledgement and the client's write to its own
      file the root is in nobody's file; when one collection ends there and the
      next starts, a path can end up valid and not on disk. */
  lemma TwoRunsAreNotSafe(p: StorePath) returns (s: State, ls: seq<Label>, t: State)
    ensures s == State(map[], map[], map[], Off, 0) && Init(s)
    ensures Run(Do, s, ls) == Some(t) && Relied(t, 0, p) && p !in t.disk
  {
    s := State(map[], map[], map[], Off, 0);
    hide Run, AddTempRootStep, AddToStoreStep, Referrers;
    ls, t := Started(s, p);
    ls, t := Asked(s, ls, p);
    ls, t := Acknowledged(s, ls, p);
    ReachableIsCoherent(s, ls);
    var rest, u := OvertakenRootIsLost(t, 0);
    Append(Do, s, ls, [LockGc] + rest);
    ls, t := ls + ([LockGc] + rest), u;
  }
}
