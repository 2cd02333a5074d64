/** The table of valid paths and their references, and the two transactions that
    change it (src/libstore/local-store.cc: `registerValidPaths`,
    `invalidatePathChecked`). */
module StoreDb {
  import opened Bytes
  import opened Finite
  import opened Reachability
  import T = TopoSort

  /** `<hashPart>-<name>` in the store directory. */
  datatype StorePath = StorePath(hashPart: string, name: string)

  /** The valid paths, each with its references. */
  type Db = Graph<StorePath>

  function Referrers(db: Db, p: StorePath): set<StorePath> {
    set q | q in db && p in db[q]
  }

  ghost predicate RefClosed(db: Db) {
    forall p | p in db :: db[p] <= db.Keys
  }

  // ---------------------------------------------------------------------
  // The transactions.

  datatype Registered = Committed | InvalidReference | CyclicReferences

  /** The table after registering `infos`: references of a path that was valid
      already are kept. */
  function Merge(db: Db, infos: Db): Db {
    map p | p in db.Keys + infos.Keys ::
      (if p in db then db[p] else {}) + (if p in infos then infos[p] else {})
  }

  /** Every reference of a new path is valid already or among the new ones. */
  predicate ReferencesValid(db: Db, infos: Db) {
    forall p | p in infos :: infos[p] <= db.Keys + infos.Keys
  }

  class Database {
    var db: Db

    constructor ()
      ensures db == map[]
    {
      db := map[];
    }

    /** `registerValidPaths`: one transaction; it commits exactly when every
        reference is valid afterwards and the new references have no cycle. */
    method RegisterValidPaths(infos: Db) returns (r: Registered)
      modifies this
      ensures db == if r.Committed? then Merge(old(db), infos) else old(db)
      ensures r.InvalidReference? <==> !ReferencesValid(old(db), infos)
      ensures r.Committed? <==> (ReferencesValid(old(db), infos) && T.Acyclic(infos, infos.Keys))
    {
      hide T.Acyclic, T.Topological;
      var rows := AddPaths(infos);
      var txn := AddReferences(rows, infos);
      if txn.None? {
        return InvalidReference;
      }
      var sorted := T.Sort(infos.Keys, infos);
      if sorted.Cycle? {
        return CyclicReferences;
      }
      assert txn.value == Merge(db, infos);
      db := txn.value;
      return Committed;
    }

    /** The second loop: `queryValidPathId` fails on a reference without a row. */
    method AddReferences(rows: Db, infos: Db) returns (r: Option<Db>)
      requires infos.Keys <= rows.Keys
      ensures r.Some? <==> forall p | p in infos :: infos[p] <= rows.Keys
      ensures r.Some? ==> r.value.Keys == rows.Keys
      ensures r.Some? ==> forall p | p in rows :: r.value[p] == rows[p] + if p in infos then infos[p] else {}
    {
      var txn := rows;
      var todo := infos.Keys;
      while todo != {}
        invariant todo <= infos.Keys && txn.Keys == rows.Keys
        invariant forall p | p in infos && p !in todo :: infos[p] <= rows.Keys
        invariant forall p | p in rows ::
          txn[p] == rows[p] + if p in infos && p !in todo then infos[p] else {}
        decreases todo
      {
        var p :| p in todo;
        todo := todo - {p};
        if !(infos[p] <= txn.Keys) {
          return None;
        }
        txn := txn[p := txn[p] + infos[p]];
      }
      return Some(txn);
    }

    /** The first loop: a row for every path. */
    method AddPaths(infos: Db) returns (txn: Db)
      ensures txn.Keys == db.Keys + infos.Keys
      ensures forall p | p in txn :: txn[p] == if p in db then db[p] else {}
    {
      txn := db;
      var todo := infos.Keys;
      while todo != {}
        invariant todo <= infos.Keys
        invariant txn.Keys == db.Keys + (infos.Keys - todo)
        invariant forall p | p in txn :: txn[p] == if p in db then db[p] else {}
        decreases todo
      {
        var p :| p in todo;
        todo := todo - {p};
        if p !in txn {
          txn := txn[p := {}];
        }
      }
    }

    /** `invalidatePathChecked`: removes a path nothing else refers to. */
    method InvalidatePathChecked(p: StorePath) returns (inUse: bool)
      modifies this
      ensures inUse <==> p in old(db) && Referrers(old(db), p) - {p} != {}
      ensures db == if inUse then old(db) else old(db) - {p}
    {
      inUse := false;
      if p in db {
        var referrers := Referrers(db, p) - {p};
        if referrers != {} {
          return true;
        }
        db := db - {p};
      } else {
        assert db - {p} == db;
      }
    }
  }

  /** Both transactions keep every reference of a valid path valid. */
  lemma RegisterKeepsRefClosed(db: Db, infos: Db)
    requires RefClosed(db)
    requires ReferencesValid(db, infos)
    ensures RefClosed(Merge(db, infos))
  {
    forall p | p in Merge(db, infos) ensures Merge(db, infos)[p] <= Merge(db, infos).Keys {
      assert p in db ==> db[p] <= db.Keys;
    }
  }

  lemma NoReferrers(db: Db, p: StorePath)
    ensures RefClosed(db) && p !in db ==> Referrers(db, p) == {}
  {
    assert RefClosed(db) ==> forall q | q in db :: db[q] <= db.Keys;
  }

  lemma InvalidateKeepsRefClosed(db: Db, p: StorePath)
    requires RefClosed(db) && Referrers(db, p) <= {p}
    ensures RefClosed(db - {p})
  {
    forall q | q in db - {p} ensures (db - {p})[q] <= (db - {p}).Keys {
      assert p in db[q] ==> q in Referrers(db, p);
    }
  }

  ghost predicate Acyclic(db: Db) {
    T.Acyclic(db, db.Keys)
  }

  /** No path refers to another one that leads back to it. */
  ghost predicate NoReturn(g: Db) {
    forall p, r | p in g && r in g[p] && r != p :: !Reaches(g, r, p)
  }

  /** A path's repetitions can be left out. */
  lemma {:induction false} Squeezed(g: Db, s: seq<StorePath>) returns (c: seq<StorePath>)
    requires Path(g, s)
    ensures Path(g, c) && c[0] == s[0] && c[|c| - 1] == s[|s| - 1]
    ensures forall i | 0 <= i < |c| - 1 :: c[i] != c[i + 1]
  {
    if |s| == 1 {
      c := s;
    } else {
      assert Path(g, s[1..]);
      c := Squeezed(g, s[1..]);
      if c[0] != s[0] {
        c := [s[0]] + c;
      }
    }
  }

  lemma AcyclicMeansNoReturn(g: Db)
    requires RefClosed(g)
    ensures Acyclic(g) <==> NoReturn(g)
  {
    forall s: seq<StorePath> | T.IsCycle(g, g.Keys, s) ensures !NoReturn(g) {
      assert forall i | 0 <= i < |s| - 1 :: T.Edge(g, g.Keys, s[i], s[i + 1]);
      var rest := s[1..];
      assert forall i | 0 <= i < |rest| - 1 :: rest[i] == s[i + 1] && T.Edge(g, g.Keys, s[i + 1], s[i + 2]);
      assert Path(g, rest) && rest[0] == s[1] && rest[|rest| - 1] == s[0];
    }
    forall p, r | Acyclic(g) && p in g && r in g[p] && r != p ensures !Reaches(g, r, p) {
      if Reaches(g, r, p) {
        var s :| Path(g, s) && s[0] == r && s[|s| - 1] == p;
        var c := Squeezed(g, s);
        var round := [p] + c;
        forall i | 0 <= i < |round| - 1 ensures T.Edge(g, g.Keys, round[i], round[i + 1]) {
          assert round[i] in g && g[round[i]] <= g.Keys;
        }
        assert T.IsCycle(g, g.Keys, round);
      }
    }
  }

  /** From each path in the request to those in the request that one of its
      references, other than itself, is or leads to in the old table. */
  ghost function Via(db: Db, infos: Db): Db {
    map p | p in infos :: set q | q in infos && LeadsTo(db, infos, p, q)
  }

  ghost predicate LeadsTo(db: Db, infos: Db, p: StorePath, q: StorePath) {
    p in infos && exists r :: r in infos[p] && r != p && Reaches(db, r, q)
  }

  lemma MergeReaches(db: Db, infos: Db, p: StorePath, q: StorePath)
    ensures Reaches(db, p, q) ==> Reaches(Merge(db, infos), p, q)
    ensures LeadsTo(db, infos, p, q) ==>
              exists r :: r in Merge(db, infos)[p] && r != p && Reaches(Merge(db, infos), r, q)
  {
    SubgraphReaches(db, Merge(db, infos), p, q);
    if LeadsTo(db, infos, p, q) {
      var r :| r in infos[p] && r != p && Reaches(db, r, q);
      SubgraphReaches(db, Merge(db, infos), r, q);
    }
  }

  lemma {:induction false} ViaReaches(db: Db, infos: Db, s: seq<StorePath>)
    requires Path(Via(db, infos), s)
    ensures Reaches(Merge(db, infos), s[0], s[|s| - 1])
    decreases |s|
  {
    var m := Merge(db, infos);
    if |s| == 1 {
      ReachesSelf(m, s[0]);
    } else {
      assert Path(Via(db, infos), s[1..]);
      ViaReaches(db, infos, s[1..]);
      MergeReaches(db, infos, s[0], s[1]);
      var r :| r in m[s[0]] && r != s[0] && Reaches(m, r, s[1]);
      ReachesStep(m, s[0], r);
      ReachesTransitive(m, s[0], r, s[1]);
      ReachesTransitive(m, s[0], s[1], s[|s| - 1]);
    }
  }

  /** A path in the new table uses references of the request, or it does not. */
  ghost predicate Detours(db: Db, infos: Db, x: StorePath, y: StorePath) {
    exists a, b :: Reaches(db, x, a) && a in infos && Reaches(Via(db, infos), a, b) && LeadsTo(db, infos, b, y)
  }

  lemma ReachesFirst(db: Db, infos: Db, x: StorePath, x': StorePath, y: StorePath)
    requires x in db && x' in db[x] && (Reaches(db, x', y) || Detours(db, infos, x', y))
    ensures Reaches(db, x, y) || Detours(db, infos, x, y)
  {
    ReachesStep(db, x, x');
    if Reaches(db, x', y) {
      ReachesTransitive(db, x, x', y);
    } else {
      var a, b :| Reaches(db, x', a) && a in infos && Reaches(Via(db, infos), a, b) && LeadsTo(db, infos, b, y);
      ReachesTransitive(db, x, x', a);
    }
  }

  lemma DetoursFirst(db: Db, infos: Db, x: StorePath, x': StorePath, y: StorePath)
    requires x in infos && x' in infos[x] && x != x' && (Reaches(db, x', y) || Detours(db, infos, x', y))
    ensures exists b :: Reaches(Via(db, infos), x, b) && LeadsTo(db, infos, b, y)
    ensures !Reaches(db, x', y) ==> exists a, b ::
              a in infos && LeadsTo(db, infos, x, a) && Reaches(Via(db, infos), a, b) && LeadsTo(db, infos, b, y)
  {
    ReachesSelf(Via(db, infos), x);
    if Reaches(db, x', y) {
      assert LeadsTo(db, infos, x, y);
    } else {
      var a, b :| Reaches(db, x', a) && a in infos && Reaches(Via(db, infos), a, b) && LeadsTo(db, infos, b, y);
      assert LeadsTo(db, infos, x, a) && a in Via(db, infos)[x];
      ReachesStep(Via(db, infos), x, a);
      ReachesTransitive(Via(db, infos), x, a, b);
    }
  }

  lemma {:induction false} MergedPath(db: Db, infos: Db, s: seq<StorePath>)
    requires Path(Merge(db, infos), s)
    ensures Reaches(db, s[0], s[|s| - 1]) || Detours(db, infos, s[0], s[|s| - 1])
    decreases |s|
  {
    if |s| == 1 {
      ReachesSelf(db, s[0]);
    } else {
      assert Path(Merge(db, infos), s[1..]);
      MergedPath(db, infos, s[1..]);
      if s[0] in db && s[1] in db[s[0]] {
        ReachesFirst(db, infos, s[0], s[1], s[|s| - 1]);
      } else if s[0] != s[1] {
        DetoursFirst(db, infos, s[0], s[1], s[|s| - 1]);
        ReachesSelf(db, s[0]);
      }
    }
  }

  lemma ReturnIsVia(db: Db, infos: Db, x: StorePath, y: StorePath)
    requires NoReturn(db) && x in Merge(db, infos)
    requires y in Merge(db, infos)[x] && y != x && Reaches(Merge(db, infos), y, x)
    ensures exists p, q :: p in infos && q in Via(db, infos)[p] && Reaches(Via(db, infos), q, p)
  {
    var v := Via(db, infos);
    var s :| Path(Merge(db, infos), s) && s[0] == y && s[|s| - 1] == x;
    MergedPath(db, infos, s);
    if x in db && y in db[x] {
      var a, b :| Reaches(db, y, a) && a in infos && Reaches(v, a, b) && LeadsTo(db, infos, b, x);
      var r :| r in infos[b] && r != b && Reaches(db, r, x);
      ReachesStep(db, x, y);
      ReachesTransitive(db, r, x, y);
      ReachesTransitive(db, r, y, a);
      assert a in v[b];
    } else {
      DetoursFirst(db, infos, x, y, x);
      ReachesSelf(v, x);
      if Reaches(db, y, x) {
        assert x in v[x];
      } else {
        var a, b :| a in infos && LeadsTo(db, infos, x, a) && Reaches(v, a, b) && LeadsTo(db, infos, b, x);
        assert x in v[b];
        ReachesStep(v, b, x);
        ReachesTransitive(v, a, b, x);
        assert a in v[x];
      }
    }
  }

  /** Exactly when registering keeps the references free of cycles: no path of
      the request leads back to itself over references in the request and what
      they lead to in the old table. `registerValidPaths` sorts by the references
      in the request alone. */
  lemma RegisterKeepsAcyclicIff(db: Db, infos: Db)
    requires RefClosed(db) && Acyclic(db) && ReferencesValid(db, infos)
    ensures Acyclic(Merge(db, infos)) <==>
            forall p, q | p in infos && q in Via(db, infos)[p] :: !Reaches(Via(db, infos), q, p)
  {
    var m, v := Merge(db, infos), Via(db, infos);
    RegisterKeepsRefClosed(db, infos);
    AcyclicMeansNoReturn(m);
    AcyclicMeansNoReturn(db);
    hide Acyclic, T.Acyclic;
    if p, q :| p in infos && q in v[p] && Reaches(v, q, p) {
      MergeReaches(db, infos, p, q);
      var r :| r in m[p] && r != p && Reaches(m, r, q);
      var s :| Path(v, s) && s[0] == q && s[|s| - 1] == p;
      ViaReaches(db, infos, s);
      ReachesTransitive(m, r, q, p);
    } else {
      forall x, y | x in m && y in m[x] && y != x ensures !Reaches(m, y, x) {
        if Reaches(m, y, x) {
          ReturnIsVia(db, infos, x, y);
        }
      }
    }
  }

  /** One path that is valid already: none of its references leads back to it. */
  lemma RegisterAgainKeepsAcyclic(db: Db, p: StorePath, refs: set<StorePath>)
    requires RefClosed(db) && Acyclic(db) && refs <= db.Keys + {p}
    ensures Acyclic(Merge(db, map[p := refs])) <==> forall r | r in refs && r != p :: !Reaches(db, r, p)
  {
    var infos := map[p := refs];
    RegisterKeepsAcyclicIff(db, infos);
    hide Acyclic;
    var v := Via(db, infos);
    ReachesSelf(v, p);
    assert p in v[p] <==> exists r :: r in refs && r != p && Reaches(db, r, p);
  }

  /** The check of `registerValidPaths` decides when no path that is valid already
      brings a new reference. */
  lemma RegisterKeepsAcyclic(db: Db, infos: Db)
    requires RefClosed(db) && Acyclic(db) && ReferencesValid(db, infos)
    requires forall p | p in infos && p in db :: infos[p] <= db[p]
    ensures Acyclic(Merge(db, infos)) <==> T.Acyclic(infos, infos.Keys)
  {
    var m := Merge(db, infos);
    forall s: seq<StorePath> | T.IsCycle(infos, infos.Keys, s) ensures T.IsCycle(m, m.Keys, s) {
      assert forall i | 0 <= i < |s| - 1 :: T.Edge(infos, infos.Keys, s[i], s[i + 1]);
    }
    forall s: seq<StorePath> | T.Acyclic(infos, infos.Keys) ensures !T.IsCycle(m, m.Keys, s) {
      if T.IsCycle(m, m.Keys, s) {
        CycleIsOldOrNew(db, infos, s);
      }
    }
  }

  /** A chain that has reached an old path stays among the old paths. */
  lemma {:induction false} ChainStaysOld(db: Db, infos: Db, s: seq<StorePath>, i: nat, j: nat)
    requires RefClosed(db) && (forall p | p in infos && p in db :: infos[p] <= db[p])
    requires T.Chain(Merge(db, infos), Merge(db, infos).Keys, s)
    requires i <= j < |s| && s[i] in db
    ensures s[j] in db
    decreases j
  {
    if i < j {
      ChainStaysOld(db, infos, s, i, j - 1);
      assert T.Edge(Merge(db, infos), Merge(db, infos).Keys, s[j - 1], s[j]);
      assert db[s[j - 1]] <= db.Keys;
    }
  }

  lemma CycleIsOldOrNew(db: Db, infos: Db, s: seq<StorePath>)
    requires RefClosed(db) && (forall p | p in infos && p in db :: infos[p] <= db[p])
    ensures T.IsCycle(Merge(db, infos), Merge(db, infos).Keys, s) ==>
              T.IsCycle(db, db.Keys, s) || T.IsCycle(infos, infos.Keys, s)
  {
    var m := Merge(db, infos);
    if T.IsCycle(m, m.Keys, s) {
      forall k | 0 <= k < |s| ensures s[k] in m && (s[k] in db <==> s[0] in db) {
        assert k < |s| - 1 ==> T.Edge(m, m.Keys, s[k], s[k + 1]);
        assert T.Edge(m, m.Keys, s[0], s[1]);
        if s[k] in db {
          ChainStaysOld(db, infos, s, k, |s| - 1);
        }
        if s[0] in db {
          ChainStaysOld(db, infos, s, 0, k);
        }
      }
      forall k | 0 <= k < |s| - 1
        ensures if s[0] in db then T.Edge(db, db.Keys, s[k], s[k + 1]) else T.Edge(infos, infos.Keys, s[k], s[k + 1])
      {
        assert T.Edge(m, m.Keys, s[k], s[k + 1]);
        assert s[k] in db ==> m[s[k]] == db[s[k]];
      }
    }
  }

  /** Registering a path again may add a reference that closes a cycle: only the
      references in the request are sorted. */
  lemma RegisteringAgainCanCloseACycle(a: StorePath, b: StorePath)
    requires a != b
    ensures
      var db: Db := map[a := {b}, b := {}];
      var infos: Db := map[b := {a}];
      && RefClosed(db) && Acyclic(db) && ReferencesValid(db, infos) && T.Acyclic(infos, infos.Keys)
      && !Acyclic(Merge(db, infos))
  {
    var db: Db := map[a := {b}, b := {}];
    var infos: Db := map[b := {a}];
    var m := Merge(db, infos);
    assert T.Topological(db, db.Keys, [a, b]) by {
      assert db.Keys == {a, b} && Elements([a, b]) == {a, b};
    }
    T.TopologicalIsAcyclic(db, db.Keys, [a, b]);
    assert T.Topological(infos, infos.Keys, [b]) by {
      assert infos.Keys == {b} && Elements([b]) == {b};
    }
    T.TopologicalIsAcyclic(infos, infos.Keys, [b]);
    assert T.Edge(m, m.Keys, a, b) && T.Edge(m, m.Keys, b, a);
    assert T.IsCycle(m, m.Keys, [a, b, a]);
  }
}
