/** The garbage collector without concurrent clients: `collectGarbage` in
    src/libstore/gc.cc, with no derivers and with keep-outputs and
    keep-derivations off. */
module Collector {
  import opened Bytes
  import opened Finite
  import opened Reachability
  import opened StoreDb
  import WorkList

  /** An entry of the store directory whose name is or is not a store path. */
  datatype Entry = Known(path: StorePath) | Junk(name: string)

  datatype Target = WholeStore | SpecificPaths(paths: set<StorePath>, deleteReferrers: bool) {
    /** `SpecificPaths` without `deleteReferrers` touches no other path. */
    predicate Allows(p: StorePath) {
      SpecificPaths? && !deleteReferrers ==> p in paths
    }
  }

  datatype Action = ReturnLive | ReturnDead | DeleteDead | DeleteSpecific

  /** How a step ends: `GCLimitReached` and the cycle error are exceptions. */
  datatype Status = Continue | LimitReached | CycleError

  datatype Outcome = Done | Stopped | CycleFound | StillAlive(path: StorePath) | CannotDeleteWholeStore

  // ---------------------------------------------------------------------
  // The store directory.

  class StoreDirectory {
    const size: Entry -> nat
    const maxFreed: nat
    /** Temporary directories some other process holds a lock on. */
    const locked: set<string>
    var entries: set<Entry>
    var results: set<Entry>
    var bytesFreed: nat
    ghost const initial: set<Entry>
    ghost var removed: seq<Entry>

    /** The bytes freed are the sizes of the entries that are gone. */
    ghost predicate Valid()
      reads this
    {
      && Distinct(removed) && Elements(removed) <= initial
      && entries == initial - Elements(removed)
      && bytesFreed == Total(size, removed)
    }

    constructor (entries: set<Entry>, size: Entry -> nat, maxFreed: nat, locked: set<string>)
      ensures Valid() && this.entries == entries == initial && bytesFreed == 0 && results == {}
      ensures this.maxFreed == maxFreed && this.size == size && this.locked == locked
    {
      this.entries, initial, this.size, this.maxFreed, this.locked := entries, entries, size, maxFreed, locked;
      results, bytesFreed, removed := {}, 0, [];
    }

    ghost predicate UnderLimit()
      reads this
    {
      bytesFreed <= maxFreed
    }

    /** The last entry removed was the one that exceeded the limit. */
    ghost predicate JustOverLimit()
      reads this
    {
      removed != [] && Total(size, removed[..|removed| - 1]) <= maxFreed < bytesFreed
    }

    predicate Skipped(entry: Entry) {
      entry.Junk? && |entry.name| >= 4 && entry.name[..4] == "tmp-" && entry.name in locked
    }

    /** `deleteFromStore`. */
    method DeleteFromStore(entry: Entry) returns (limitReached: bool)
      requires Valid()
      modifies this
      ensures Valid()
      ensures Skipped(entry) ==> !limitReached && unchanged(this)
      ensures !Skipped(entry) ==> entries == old(entries) - {entry} && results == old(results) + {entry}
      ensures !Skipped(entry) ==> bytesFreed == old(bytesFreed) + (if entry in old(entries) then size(entry) else 0)
      ensures !Skipped(entry) ==> limitReached == (bytesFreed > maxFreed)
      ensures old(UnderLimit()) ==> if limitReached then JustOverLimit() else UnderLimit()
    {
      if Skipped(entry) {
        return false;
      }
      results := results + {entry};
      if entry in entries {
        assert (removed + [entry])[..|removed|] == removed;
        ElementsSnoc(removed, entry);
        assert Total(size, removed + [entry]) == Total(size, removed) + size(entry);
        hide Distinct, Elements, Total;
        bytesFreed := bytesFreed + size(entry);
        entries := entries - {entry};
        removed := removed + [entry];
      }
      limitReached := bytesFreed > maxFreed;
    }
  }

  // ---------------------------------------------------------------------
  // What is alive.

  /** What a collection starts from: the table of valid paths, the permanent
      and temporary roots, and the hash parts of the temporary roots. */
  datatype Context = Context(db: Db, roots: set<StorePath>, tempRoots: set<string>) {
    predicate IsRoot(p: StorePath) {
      p in roots || p.hashPart in tempRoots
    }

    ghost predicate Live(p: StorePath) {
      exists r :: IsRoot(r) && Reaches(db, r, p)
    }

    /** A set the collector may delete: no root, and all referrers are in it. */
    ghost predicate Garbage(s: set<StorePath>) {
      UpClosed(db, s) && forall p | p in s :: !IsRoot(p)
    }

    /** What a collection for `target` may delete. */
    ghost predicate Deletable(target: Target, p: StorePath) {
      !Live(p) && forall q | Reaches(db, q, p) :: target.Allows(q)
    }

    lemma GarbageIsNotLive(s: set<StorePath>)
      requires Garbage(s)
      ensures forall p | p in s :: !Live(p)
    {
      forall p, r | p in s && Reaches(db, r, p) ensures r in s {
        UpClosedKeeps(db, s, r, p);
      }
    }

    lemma LiveDown(q: StorePath, p: StorePath)
      requires Live(q) && Reaches(db, q, p)
      ensures Live(p)
    {
      var r :| IsRoot(r) && Reaches(db, r, q);
      ReachesTransitive(db, r, q, p);
    }

    lemma RootIsLive(r: StorePath)
      requires IsRoot(r)
      ensures Live(r)
    {
      ReachesSelf(db, r);
    }

    /** Deleting garbage leaves every reference of a valid path valid. */
    lemma GarbageLeavesRefClosed(s: set<StorePath>)
      requires RefClosed(db) && Garbage(s)
      ensures RefClosed(db - s)
    {
      forall p | p in db - s ensures (db - s)[p] <= (db - s).Keys {
        assert db[p] <= db.Keys;
        assert forall q | q in db[p] :: q !in s;
      }
    }
  }

  /** The referrers `cache` has for a path, up to paths that are dead by now. */
  ghost predicate CacheSound(db: Db, dead: set<StorePath>, cache: map<StorePath, set<StorePath>>) {
    forall p | p in cache :: Referrers(db, p) - dead <= cache[p] <= Referrers(db, p)
  }

  /** The search upwards from `start`: all it has visited reaches `start`, and
      what is not in `open` any more has its referrers visited. */
  ghost predicate Searched(ctx: Context, target: Target, dead: set<StorePath>, start: StorePath,
                           visited: set<StorePath>, open: set<StorePath>)
  {
    && start in visited && open <= visited <= {start} + ctx.db.Keys
    && (forall q | q in visited :: Reaches(ctx.db, q, start))
    && (forall p | p in visited && p !in open ::
          p in dead || (!ctx.IsRoot(p) && target.Allows(p) && Referrers(ctx.db, p) <= visited + dead))
  }

  lemma SearchedOpen(ctx: Context, target: Target, dead: set<StorePath>, start: StorePath,
                     visited: set<StorePath>, open: set<StorePath>, p: StorePath)
    requires Searched(ctx, target, dead, start, visited, open) && p in open
    ensures Reaches(ctx.db, p, start) && p in visited && p in {start} + ctx.db.Keys
  {
  }

  lemma SearchedDead(ctx: Context, target: Target, dead: set<StorePath>, start: StorePath,
                     visited: set<StorePath>, open: set<StorePath>, p: StorePath)
    requires Searched(ctx, target, dead, start, visited, open) && p in dead
    ensures Searched(ctx, target, dead, start, visited, open - {p})
  {
    hide Reaches, Context.IsRoot, Target.Allows;
  }

  lemma SearchedStep(ctx: Context, target: Target, dead: set<StorePath>, start: StorePath,
                     visited: set<StorePath>, open: set<StorePath>, p: StorePath, found: set<StorePath>)
    requires Searched(ctx, target, dead, start, visited, open) && p in open
    requires !ctx.IsRoot(p) && target.Allows(p)
    requires Referrers(ctx.db, p) - dead <= found <= Referrers(ctx.db, p)
    ensures Searched(ctx, target, dead, start, visited + found, open - {p} + (found - visited))
  {
    hide Reaches, Context.IsRoot, Target.Allows;
    forall q | q in found ensures Reaches(ctx.db, q, start) {
      ReachesStep(ctx.db, q, p);
      ReachesTransitive(ctx.db, q, p, start);
    }
  }

  /** A finished search that met no root and nothing alive found garbage. */
  lemma SearchedIsGarbage(ctx: Context, target: Target, dead: set<StorePath>, start: StorePath, visited: set<StorePath>)
    requires Searched(ctx, target, dead, start, visited, {}) && ctx.Garbage(dead)
    ensures ctx.Garbage(dead + visited)
  {
    forall x, y | x in ctx.db && y in ctx.db[x] && y in dead + visited ensures x in dead + visited {
      assert x in Referrers(ctx.db, y);
    }
  }

  /** `enqueue` for every element of a set. */
  method Enqueue(visited: set<StorePath>, todo: seq<StorePath>, paths: set<StorePath>)
      returns (visited': set<StorePath>, todo': seq<StorePath>)
    requires Distinct(todo) && Elements(todo) <= visited
    ensures visited' == visited + paths
    ensures Distinct(todo') && Elements(todo') == Elements(todo) + (paths - visited)
  {
    visited', todo' := visited, todo;
    var rest := paths;
    while rest != {}
      invariant rest <= paths && visited' == visited + (paths - rest)
      invariant Distinct(todo') && Elements(todo') == Elements(todo) + (paths - rest - visited)
      decreases rest
    {
      var p :| p in rest;
      rest := rest - {p};
      if p !in visited' {
        ElementsSnoc(todo', p);
        visited', todo' := visited' + {p}, todo' + [p];
      }
    }
  }

  /** A closure query for a valid path meets valid paths only. */
  lemma ClosureSucceeds(db: Db, p: StorePath)
    ensures p in db && RefClosed(db) ==> !WorkList.SomeFails(db, {p}, {})
  {
    if p in db && RefClosed(db) {
      forall x | WorkList.Found(db, {p}, {}, x) ensures x in db {
        var h := Without(db, {});
        assert Closed(h, db.Keys);
        ClosedKeeps(h, db.Keys, p, x);
      }
    }
  }

  lemma ClosureIsLive(ctx: Context, db: Db, r: StorePath)
    requires ctx.IsRoot(r) && forall p | p in db :: p in ctx.db && db[p] <= ctx.db[p]
    ensures forall p | ReachedFrom(db, {r}, p) :: ctx.Live(p)
    ensures forall p :: ReachedFrom(db, {r}, p) <==> Reaches(db, r, p)
  {
    forall p | ReachedFrom(db, {r}, p) ensures ctx.Live(p) {
      SubgraphReaches(db, ctx.db, r, p);
    }
    forall p ensures ReachedFrom(db, {r}, p) <==> Reaches(db, r, p) {
      assert r in {r};
    }
  }

  class Collection {
    const ctx: Context
    const target: Target
    const action: Action
    const database: Database
    const dir: StoreDirectory
    var alive: set<StorePath>
    var dead: set<StorePath>
    var referrersCache: map<StorePath, set<StorePath>>

    predicate ShouldDelete() {
      action.DeleteDead? || action.DeleteSpecific?
    }

    ghost predicate Valid()
      reads this, database, dir
    {
      && RefClosed(ctx.db) && dir.Valid()
      && ctx.Garbage(dead) && (forall p | p in dead :: target.Allows(p))
      && (forall p | p in alive :: ctx.Live(p))
      && database.db == (if ShouldDelete() then ctx.db - dead else ctx.db)
      && CacheSound(ctx.db, dead, referrersCache)
      && (forall p :: Known(p) in dir.entries <==> Known(p) in dir.initial && !(ShouldDelete() && p in dead))
      && (forall p :: Known(p) in dir.results <==> ShouldDelete() && p in dead)
      && (forall n :: Junk(n) in dir.results <==> Junk(n) in dir.initial && Junk(n) !in dir.entries)
    }

    constructor (ctx: Context, target: Target, action: Action, database: Database, dir: StoreDirectory)
      requires RefClosed(ctx.db) && database.db == ctx.db
      requires dir.Valid() && dir.entries == dir.initial && dir.results == {}
      ensures Valid() && alive == {} && dead == {}
      ensures this.ctx == ctx && this.target == target && this.action == action
      ensures this.database == database && this.dir == dir
    {
      this.ctx, this.target, this.action, this.database, this.dir := ctx, target, action, database, dir;
      alive, dead, referrersCache := {}, {}, map[];
    }

    /** `markAlive`. */
    method MarkAlive(p: StorePath)
      requires Valid() && ctx.IsRoot(p)
      modifies this`alive
      ensures Valid() && old(alive) + {p} <= alive
      ensures p in database.db && RefClosed(database.db) ==> forall q | Reaches(database.db, p, q) :: q in alive
    {
      hide T.Acyclic, RefClosed, CacheSound, Context.Garbage;
      ctx.RootIsLive(p);
      alive := alive + {p};
      var closure, error, _ := WorkList.Run({p}, {}, database.db, 1024);
      ClosureSucceeds(database.db, p);
      hide WorkList.SomeFails, WorkList.Found;
      if !error {
        ClosureIsLive(ctx, database.db, p);
        assert Closed(database.db, {});
        alive := alive + closure;
      }
    }

    /** `queryGCReferrers` through `referrersCache`. */
    method QueryReferrers(path: StorePath) returns (referrers: set<StorePath>)
      requires Valid() && path in database.db
      modifies this`referrersCache
      ensures Valid() && Referrers(ctx.db, path) - dead <= referrers <= Referrers(ctx.db, path)
    {
      hide T.Acyclic, RefClosed, Context.Garbage, Context.Live;
      if path !in referrersCache {
        referrersCache := referrersCache[path := Referrers(database.db, path)];
      }
      referrers := referrersCache[path];
    }

    /** One round of the search: either it bails out, or `path` needs no
        further visit and its referrers are enqueued. */
    method Visit(start: StorePath, path: StorePath, visited: set<StorePath>, todo: seq<StorePath>)
        returns (bail: bool, visited': set<StorePath>, todo': seq<StorePath>)
      requires Valid() && Reaches(ctx.db, path, start)
      requires Distinct(todo) && path in visited && path !in todo
      requires Searched(ctx, target, dead, start, visited, Elements(todo) + {path})
      modifies this`alive, this`referrersCache
      ensures Valid() && old(alive) <= alive
      ensures !bail ==> Distinct(todo') && Searched(ctx, target, dead, start, visited', Elements(todo'))
      ensures !bail ==> visited - Elements(todo) <= visited' - Elements(todo') && path in visited' && path !in todo'
      ensures bail ==> start in alive || !target.Allows(path)
    {
      assert Elements(todo) <= visited;
      hide T.Acyclic, RefClosed, Context.Garbage, CacheSound, Searched, Reaches;
      bail, visited', todo' := true, visited, todo;
      if path in alive {
        MarkStart(path, start);
        return;
      }
      if path in dead {
        SearchedDead(ctx, target, dead, start, visited, Elements(todo) + {path}, path);
        assert Elements(todo) + {path} - {path} == Elements(todo);
        bail := false;
        return;
      }
      if path in ctx.roots {
        ctx.RootIsLive(path);
        MarkStart(path, start);
        MarkAlive(path);
        return;
      }
      if !target.Allows(path) {
        return;
      }
      if path.hashPart in ctx.tempRoots {
        ctx.RootIsLive(path);
        MarkStart(path, start);
        MarkAlive(path);
        return;
      }
      var referrers := {};
      if path in database.db {
        referrers := QueryReferrers(path);
        visited', todo' := Enqueue(visited, todo, referrers);
      } else {
        NoReferrers(ctx.db, path);
      }
      SearchedStep(ctx, target, dead, start, visited, Elements(todo) + {path}, path, referrers);
      assert Elements(todo) + {path} - {path} + (referrers - visited) == Elements(todo');
      assert visited' == visited + referrers;
      bail := false;
    }

    /** `alive.insert(start)`, for a path that reaches `start` and is alive. */
    method MarkStart(path: StorePath, start: StorePath)
      requires Valid() && Reaches(ctx.db, path, start) && ctx.Live(path)
      modifies this`alive
      ensures Valid() && alive == old(alive) + {start}
    {
      ctx.LiveDown(path, start);
      alive := alive + {start};
    }

    ghost function Unvisited(start: StorePath, visited: set<StorePath>, todo: seq<StorePath>): nat {
      |{start} + ctx.db.Keys - (visited - Elements(todo))|
    }

    /** Pops a path off the queue and visits it. */
    method Round(start: StorePath, visited: set<StorePath>, todo: seq<StorePath>)
        returns (bail: bool, visited': set<StorePath>, todo': seq<StorePath>)
      requires Valid() && todo != []
      requires Distinct(todo) && Searched(ctx, target, dead, start, visited, Elements(todo))
      modifies this`alive, this`referrersCache
      ensures Valid() && old(alive) <= alive
      ensures !bail ==> Distinct(todo') && Searched(ctx, target, dead, start, visited', Elements(todo'))
      ensures !bail ==> Unvisited(start, visited', todo') < Unvisited(start, visited, todo)
      ensures bail ==> start in alive || exists q :: Reaches(ctx.db, q, start) && !target.Allows(q)
    {
      hide Collection.Valid, Searched, Reaches, Distinct;
      var path := todo[0];
      ElementsTail(todo);
      SearchedOpen(ctx, target, dead, start, visited, Elements(todo), path);
      assert Elements(todo[1..]) + {path} == Elements(todo);
      bail, visited', todo' := Visit(start, path, visited, todo[1..]);
      if !bail {
        assert visited - Elements(todo) <= visited - Elements(todo[1..]);
        Shrinks({start} + ctx.db.Keys, visited - Elements(todo), visited' - Elements(todo'), path);
      }
    }

    /** The breadth-first search of `maybeDeleteReferrersClosure`: none if it
        bails out, else everything that reaches `start`. */
    method Search(start: StorePath) returns (found: Option<set<StorePath>>)
      requires Valid()
      modifies this`alive, this`referrersCache
      ensures Valid() && old(alive) <= alive
      ensures found.Some? ==> Searched(ctx, target, dead, start, found.value, {})
      ensures found.None? ==> start in alive || exists q :: Reaches(ctx.db, q, start) && !target.Allows(q)
    {
      var visited, todo := {start}, [start];
      ReachesSelf(ctx.db, start);
      hide T.Acyclic, RefClosed, Context.Garbage, Context.Live, CacheSound;
      assert Distinct(todo) && Searched(ctx, target, dead, start, visited, Elements(todo));
      hide Collection.Valid, Searched, Reaches, Distinct, Unvisited;
      while todo != []
        invariant Valid() && old(alive) <= alive
        invariant Distinct(todo) && Searched(ctx, target, dead, start, visited, Elements(todo))
        decreases Unvisited(start, visited, todo)
      {
        var bail: bool;
        bail, visited, todo := Round(start, visited, todo);
        if bail {
          return None;
        }
      }
      assert Elements(todo) == {};
      return Some(visited);
    }

    /** The body of the deletion loop for a path that is not yet dead. */
    method DeletePath(path: StorePath) returns (limitReached: bool)
      requires Valid() && path !in dead && ctx.Garbage(dead + {path}) && target.Allows(path)
      modifies this`dead, this`referrersCache, database, dir
      ensures Valid() && dead == old(dead) + {path}
      ensures forall n :: Junk(n) in dir.entries <==> Junk(n) in old(dir.entries)
      ensures if ShouldDelete() then limitReached <==> !dir.UnderLimit() else !limitReached && unchanged(dir)
      ensures old(dir.UnderLimit()) ==> if limitReached then dir.JustOverLimit() else dir.UnderLimit()
    {
      hide T.Acyclic, RefClosed, Context.Live, StoreDirectory.Valid, StoreDirectory.JustOverLimit;
      assert path.hashPart !in ctx.tempRoots;
      Unreferenced(ctx, dead, path);
      DatabaseWithout(ctx.db, dead, path);
      CacheErased(ctx.db, dead, referrersCache, path);
      hide Context.Garbage, CacheSound, Context.IsRoot, Referrers;
      dead := dead + {path};
      limitReached := false;
      if ShouldDelete() {
        // No client adds a root meanwhile, so the second look at `tempRoots`
        // finds nothing, and `PathInUse` is not thrown.
        assert path.hashPart !in ctx.tempRoots;
        var inUse := database.InvalidatePathChecked(path);
        assert !inUse;
        limitReached := dir.DeleteFromStore(Known(path));
        referrersCache := referrersCache - {path};
      }
    }

    /** The deletion loop over the topologically sorted visited paths. */
    method DeleteAll(order: seq<StorePath>, ghost visited: set<StorePath>) returns (st: Status)
      requires Valid() && ctx.Garbage(dead + visited) && (forall p | p in visited :: target.Allows(p))
      requires T.Topological(database.db, visited, order)
      modifies this`dead, this`referrersCache, database, dir
      ensures Valid() && !st.CycleError?
      ensures forall n :: Junk(n) in dir.entries <==> Junk(n) in old(dir.entries)
      ensures st.Continue? ==> dead == old(dead) + visited
      ensures st.LimitReached? ==> old(dead) <= dead <= old(dead) + visited && ShouldDelete()
      ensures old(dir.UnderLimit()) ==> if st.LimitReached? then dir.JustOverLimit() else dir.UnderLimit()
    {
      ghost var db, dead0 := database.db, dead;
      PrefixEnds(order);
      assert forall p | p in ctx.db && p !in dead :: p in db && db[p] == ctx.db[p];
      assert Elements(order) == visited;
      assert ctx.Garbage(dead);
      hide Collection.Valid, Context.Garbage, Context.IsRoot, T.Topological, Distinct, Target.Allows, Elements;
      hide StoreDirectory.UnderLimit, StoreDirectory.JustOverLimit;
      for k := 0 to |order|
        invariant Valid() && dead == dead0 + Elements(order[..k]) && ctx.Garbage(dead)
        invariant forall n :: Junk(n) in dir.entries <==> Junk(n) in old(dir.entries)
        invariant old(dir.UnderLimit()) ==> dir.UnderLimit()
      {
        var path := order[k];
        PrefixGrows(order, k);
        PrefixIsGarbage(ctx, db, dead0, visited, order, k);
        if path !in dead {
          var limitReached := DeletePath(path);
          if limitReached {
            return LimitReached;
          }
        }
      }
      return Continue;
    }

    /** `maybeDeleteReferrersClosure`: without a limit or a cycle, `start` dies
        exactly when no root reaches it and all that reaches it may be deleted. */
    method MaybeDeleteReferrersClosure(start: StorePath) returns (st: Status)
      requires Valid()
      modifies this, database, dir
      ensures Valid() && old(alive) <= alive && old(dead) <= dead
      ensures forall n :: Junk(n) in dir.entries <==> Junk(n) in old(dir.entries)
      ensures forall p | p in dead && p !in old(dead) :: Reaches(ctx.db, p, start)
      ensures st.Continue? ==> (start in dead <==> ctx.Deletable(target, start))
      ensures st.Continue? && start !in dead ==> start in alive || !(target.WholeStore? || target.deleteReferrers)
      ensures st.LimitReached? ==> ShouldDelete()
      ensures old(dir.UnderLimit()) ==> if st.LimitReached? then dir.JustOverLimit() else dir.UnderLimit()
      ensures st.CycleError? ==> !T.Acyclic(ctx.db, ctx.db.Keys)
    {
      hide StoreDirectory.UnderLimit, StoreDirectory.JustOverLimit;
      var found := Search(start);
      DeadIsDeletable(ctx, target, dead);
      if found.None? {
        return Continue;
      }
      var visited := found.value;
      SearchedIsGarbage(ctx, target, dead, start, visited);
      var sorted := T.Sort(visited, database.db);
      if sorted.Cycle? {
        CycleInWhole(ctx.db, database.db, visited);
        return CycleError;
      }
      st := DeleteAll(sorted.order, visited);
      DeadIsDeletable(ctx, target, dead);
    }

    /** The loop over the specified paths, in any order. */
    method CollectSpecificPaths() returns (r: Outcome)
      requires Valid() && target.SpecificPaths? && dead == {}
      modifies this, database, dir
      ensures Valid()
      ensures r.Done? ==> forall p | p in target.paths :: p in dead <==> ctx.Deletable(target, p)
      ensures r.Done? && action.DeleteSpecific? ==> target.paths <= dead
      ensures r.StillAlive? ==> action.DeleteSpecific? && r.path in target.paths && !ctx.Deletable(target, r.path)
      ensures r.Stopped? ==> ShouldDelete()
      ensures old(dir.UnderLimit()) ==> if r.Stopped? then dir.JustOverLimit() else dir.UnderLimit()
      ensures r.CycleFound? ==> !T.Acyclic(ctx.db, ctx.db.Keys)
      ensures !r.CannotDeleteWholeStore?
      ensures forall n :: Junk(n) in dir.entries <==> Junk(n) in old(dir.entries)
      ensures forall p | p in dead :: exists q :: q in target.paths && Reaches(ctx.db, p, q)
    {
      hide T.Acyclic, Reaches, StoreDirectory.UnderLimit, StoreDirectory.JustOverLimit;
      var rest := target.paths;
      while rest != {}
        invariant Valid() && rest <= target.paths
        invariant forall p | p in target.paths && p !in rest :: p in dead <==> ctx.Deletable(target, p)
        invariant action.DeleteSpecific? ==> target.paths - rest <= dead
        invariant old(dir.UnderLimit()) ==> dir.UnderLimit()
        invariant forall p | p in dead :: exists q :: q in target.paths && Reaches(ctx.db, p, q)
        invariant forall n :: Junk(n) in dir.entries <==> Junk(n) in old(dir.entries)
        decreases rest
      {
        var i :| i in rest;
        rest := rest - {i};
        var st := MaybeDeleteReferrersClosure(i);
        DeadIsDeletable(ctx, target, dead);
        if st.LimitReached? {
          return Stopped;
        } else if st.CycleError? {
          return CycleFound;
        }
        if action.DeleteSpecific? && i !in dead {
          return StillAlive(i);
        }
      }
      return Done;
    }

    /** One directory entry. An entry that is not a store path is deleted
        whatever the action. */
    method CollectEntry(entry: Entry) returns (st: Status)
      requires Valid() && target.WholeStore? && entry in dir.initial
      modifies this, database, dir
      ensures Valid() && old(alive) <= alive && old(dead) <= dead
      ensures forall n | Junk(n) in dir.entries :: Junk(n) in old(dir.entries)
      ensures forall n | Junk(n) in old(dir.entries) && dir.Skipped(Junk(n)) :: Junk(n) in dir.entries
      ensures st.Continue? && entry.Known? ==>
                (if ctx.Live(entry.path) then entry.path in alive && entry.path !in dead
                 else entry.path in dead && entry.path !in alive)
      ensures st.Continue? && entry.Junk? ==> entry !in dir.entries || dir.Skipped(entry)
      ensures old(dir.UnderLimit()) ==> if st.LimitReached? then dir.JustOverLimit() else dir.UnderLimit()
      ensures st.CycleError? ==> !T.Acyclic(ctx.db, ctx.db.Keys)
    {
      hide T.Acyclic, Reaches, RefClosed, CacheSound, Context.Garbage, Context.Live;
      hide StoreDirectory.UnderLimit, StoreDirectory.JustOverLimit;
      var returned: bool := *;
      if entry !in dir.entries && !returned {
        DeadIsDeletable(ctx, target, dead);
        return Continue;
      }
      match entry
      case Known(path) =>
        st := MaybeDeleteReferrersClosure(path);
      case Junk(name) =>
        var limitReached := dir.DeleteFromStore(entry);
        st := if limitReached then LimitReached else Continue;
    }

    /** The loop over the store directory, whatever order `readdir` has. An
        entry deleted meanwhile may or may not come up. */
    method CollectWholeStore(names: seq<Entry>) returns (r: Outcome)
      requires Valid() && target.WholeStore? && dead == {} && Elements(names) == dir.initial
      modifies this, database, dir
      ensures Valid()
      ensures dir.maxFreed == 0 ==> r.Done? && unchanged(this) && unchanged(database) && unchanged(dir)
      ensures r.CannotDeleteWholeStore? <==> dir.maxFreed != 0 && action.DeleteSpecific?
      ensures r.Done? && dir.maxFreed != 0 ==> forall p | Known(p) in dir.initial ::
                (p in dead <==> !ctx.Live(p)) && (p in alive <==> ctx.Live(p))
      ensures r.Done? && dir.maxFreed != 0 ==> forall n | Junk(n) in dir.entries :: dir.Skipped(Junk(n))
      ensures forall n | Junk(n) in dir.entries :: Junk(n) in old(dir.entries)
      ensures forall n | Junk(n) in old(dir.entries) && dir.Skipped(Junk(n)) :: Junk(n) in dir.entries
      ensures old(dir.UnderLimit()) ==> if r.Stopped? then dir.JustOverLimit() else dir.UnderLimit()
      ensures r.CycleFound? ==> !T.Acyclic(ctx.db, ctx.db.Keys)
      ensures !r.StillAlive?
    {
      hide T.Acyclic, Reaches, RefClosed, CacheSound, Context.Garbage, Context.Live;
      hide StoreDirectory.UnderLimit, StoreDirectory.JustOverLimit;
      if dir.maxFreed == 0 {
        return Done;
      }
      if action.DeleteSpecific? {
        return CannotDeleteWholeStore;
      }
      for k := 0 to |names|
        invariant Valid()
        invariant forall p | Known(p) in names[..k] ::
            (p in dead <==> !ctx.Live(p)) && (p in alive <==> ctx.Live(p))
        invariant forall n | Junk(n) in names[..k] && Junk(n) in dir.entries :: dir.Skipped(Junk(n))
        invariant forall n | Junk(n) in dir.entries :: Junk(n) in old(dir.entries)
        invariant forall n | Junk(n) in old(dir.entries) && dir.Skipped(Junk(n)) :: Junk(n) in dir.entries
        invariant old(dir.UnderLimit()) ==> dir.UnderLimit()
      {
        var st := CollectEntry(names[k]);
        DeadIsDeletable(ctx, target, dead);
        assert names[..k + 1] == names[..k] + [names[k]];
        if st.LimitReached? {
          return Stopped;
        } else if st.CycleError? {
          return CycleFound;
        }
      }
      return Done;
    }

    /** What a collection has done when it ends. */
    ghost predicate Achieved(r: Outcome)
      reads this, dir
    {
      && (match target
          case WholeStore =>
            && (r.CannotDeleteWholeStore? <==> dir.maxFreed != 0 && action.DeleteSpecific?)
            && !r.StillAlive? && (dir.maxFreed == 0 ==> r.Done? && dead == {} && dir.entries == dir.initial)
            && (r.Done? && dir.maxFreed != 0 ==>
                  && (forall p | Known(p) in dir.initial ::
                        (p in dead <==> !ctx.Live(p)) && (p in alive <==> ctx.Live(p)))
                  && (forall n | Junk(n) in dir.entries :: "tmp-" <= n && n in dir.locked))
          case SpecificPaths(paths, deleteReferrers) =>
            && !r.CannotDeleteWholeStore?
            && (paths == {} ==> r.Done? && dead == {} && dir.entries == dir.initial)
            && (r.Done? ==> forall p | p in paths ::
                  p in dead <==> !ctx.Live(p) && (deleteReferrers || forall q | Reaches(ctx.db, q, p) :: q in paths))
            && (r.Done? && action.DeleteSpecific? ==> paths <= dead)
            && (r.StillAlive? ==> action.DeleteSpecific? && r.path in paths && !ctx.Deletable(target, r.path))
            && (!deleteReferrers ==> dead <= paths)
            && (forall p | p in dead :: exists q :: q in paths && Reaches(ctx.db, p, q))
            && (forall n | Junk(n) in dir.initial :: Junk(n) in dir.entries))
      && (forall n | Junk(n) in dir.initial && "tmp-" <= n && n in dir.locked :: Junk(n) in dir.entries)
      && (r.CycleFound? ==> !T.Acyclic(ctx.db, ctx.db.Keys))
    }

    /** The paths asked for, or the whole store. */
    method CollectTarget(names: seq<Entry>) returns (r: Outcome)
      requires Valid() && dead == {} && dir.entries == dir.initial == Elements(names)
      modifies this, database, dir
      ensures Valid() && Achieved(r)
      ensures old(dir.UnderLimit()) ==> if r.Stopped? then dir.JustOverLimit() else dir.UnderLimit()
    {
      hide T.Acyclic, Context.Live, Context.Deletable, Total;
      match target
      case SpecificPaths(paths, _) =>
        if paths == {} {
          return Done;
        }
        r := CollectSpecificPaths();
        SpecificMeans(ctx, target, dead);
      case WholeStore =>
        r := CollectWholeStore(names);
    }
  }

  lemma PrefixGrows<T>(s: seq<T>, k: nat)
    requires k < |s|
    ensures Elements(s[..k + 1]) == Elements(s[..k]) + {s[k]} <= Elements(s)
  {
    assert s[..k + 1] == s[..k] + [s[k]];
  }

  lemma PrefixEnds<T>(s: seq<T>)
    ensures Elements(s[..0]) == {} && Elements(s[..|s|]) == Elements(s)
  {
    assert s[..|s|] == s;
  }

  /** With all its other referrers dead, a path is in use by nothing. */
  lemma Unreferenced(ctx: Context, dead: set<StorePath>, path: StorePath)
    requires UpClosed(ctx.db, dead + {path})
    ensures Referrers(ctx.db - dead, path) - {path} == {}
  {
  }

  lemma DatabaseWithout(db: Db, dead: set<StorePath>, path: StorePath)
    ensures db - dead - {path} == db - (dead + {path})
  {
  }

  lemma CacheErased(db: Db, dead: set<StorePath>, cache: map<StorePath, set<StorePath>>, path: StorePath)
    requires CacheSound(db, dead, cache)
    ensures CacheSound(db, dead + {path}, cache - {path}) && CacheSound(db, dead + {path}, cache)
  {
  }

  /** In a topological order of what the search visited, all other referrers of
      a path that is not yet dead are dead when the loop reaches it. */
  lemma PrefixIsGarbage(ctx: Context, db: Db, dead: set<StorePath>, visited: set<StorePath>,
          order: seq<StorePath>, k: nat)
    requires ctx.Garbage(dead + visited) && k < |order| && ctx.Garbage(dead + Elements(order[..k]))
    requires T.Topological(db, visited, order)
    requires forall p | p in ctx.db && p !in dead :: p in db && db[p] == ctx.db[p]
    ensures ctx.Garbage(dead + Elements(order[..k]) + {order[k]})
  {
    var path, before := order[k], dead + Elements(order[..k]);
    assert path in Elements(order);
    forall x | x in ctx.db && path in ctx.db[x] ensures x in before + {path} {
      assert x in dead + visited;
      if x !in dead && x != path {
        assert T.Edge(db, visited, x, path);
        assert x in Elements(order);
        var i :| 0 <= i < |order| && order[i] == x;
        assert order[..k][i] == x;
      }
    }
    assert forall p | p in before + {path} :: p in before || p in dead + visited;
    hide Context.IsRoot;
  }

  lemma DeadIsDeletable(ctx: Context, target: Target, dead: set<StorePath>)
    requires ctx.Garbage(dead) && forall p | p in dead :: target.Allows(p)
    ensures forall p | p in dead :: ctx.Deletable(target, p)
  {
    ctx.GarbageIsNotLive(dead);
    forall p, q | p in dead && Reaches(ctx.db, q, p) ensures target.Allows(q) {
      UpClosedKeeps(ctx.db, dead, q, p);
    }
  }

  /** A cycle among the visited paths is one among the valid paths. */
  lemma CycleInWhole(whole: Db, db: Db, visited: set<StorePath>)
    requires RefClosed(whole) && forall p | p in db :: p in whole && db[p] == whole[p]
    ensures !T.Acyclic(db, visited) ==> !T.Acyclic(whole, whole.Keys)
  {
    forall s: seq<StorePath> | T.IsCycle(db, visited, s) ensures T.IsCycle(whole, whole.Keys, s) {
      forall i | 0 <= i < |s| - 1 ensures T.Edge(whole, whole.Keys, s[i], s[i + 1]) {
        assert T.Edge(db, visited, s[i], s[i + 1]);
        assert whole[s[i]] <= whole.Keys;
      }
    }
  }

  /** What is left after a collection of the whole store that deleted and was
      not stopped: exactly the live part of the table, with references closed. */
  lemma LivePartLeft(ctx: Context, dead: set<StorePath>, onDisk: set<StorePath>)
    requires RefClosed(ctx.db) && ctx.Garbage(dead) && ctx.db.Keys <= onDisk
    requires forall p | p in onDisk :: p in dead <==> !ctx.Live(p)
    ensures RefClosed(ctx.db - dead)
    ensures forall p :: p in ctx.db - dead <==> p in ctx.db && ctx.Live(p)
  {
    ctx.GarbageLeavesRefClosed(dead);
  }

  /** What the specified paths are for. */
  lemma SpecificMeans(ctx: Context, target: Target, dead: set<StorePath>)
    requires target.SpecificPaths?
    ensures forall p :: ctx.Deletable(target, p) <==>
              !ctx.Live(p) && (target.deleteReferrers || forall q | Reaches(ctx.db, q, p) :: q in target.paths)
    ensures !target.deleteReferrers && (forall p | p in dead :: target.Allows(p)) ==> dead <= target.paths
  {
    hide Context.Live;
  }

  lemma NothingRemoved(dir: StoreDirectory)
    requires dir.Valid() && dir.entries == dir.initial
    ensures dir.removed == [] && dir.bytesFreed == 0
  {
    NoElements(dir.removed);
  }

  /** `collectGarbage` up to the sweep of unused links. However it ends, the
      table is the old one without `dead`, and its references are closed. */
  method CollectGarbage(ctx: Context, database: Database, dir: StoreDirectory, target: Target, action: Action,
          names: seq<Entry>)
      returns (r: Outcome, c: Collection, results: set<Entry>)
    requires RefClosed(ctx.db) && database.db == ctx.db
    requires dir.Valid() && dir.entries == dir.initial == Elements(names) && dir.results == {}
    modifies database, dir
    ensures c.Valid() && fresh(c) && c.ctx == ctx && c.target == target && c.action == action
    ensures c.database == database && c.dir == dir && c.Achieved(r)
    ensures RefClosed(database.db) && database.db == if c.ShouldDelete() then ctx.db - c.dead else ctx.db
    ensures r.Stopped? <==> dir.bytesFreed > dir.maxFreed
    ensures r.Stopped? ==> dir.JustOverLimit()
    ensures r.Done? || r.Stopped? ==>
              && (forall p :: Known(p) in results <==> p in if action.ReturnLive? then c.alive else c.dead)
              && (forall n :: Junk(n) in results <==> Junk(n) in dir.initial && Junk(n) !in dir.entries)
    ensures !r.Done? && !r.Stopped? ==> results == {}
  {
    hide T.Acyclic, CacheSound, Context.Live, Context.Deletable;
    assert dir.UnderLimit() by { NothingRemoved(dir); }
    c := new Collection(ctx, target, action, database, dir);
    hide Total, Collection.Achieved;
    r := c.CollectTarget(names);
    ctx.GarbageLeavesRefClosed(c.dead);
    results := {};
    if r.Done? || r.Stopped? {
      results := dir.results;
      if action.ReturnLive? {
        results := results + set p | p in c.alive :: Known(p);
      } else if action.ReturnDead? {
        results := results + set p | p in c.dead :: Known(p);
      }
    }
  }
}
