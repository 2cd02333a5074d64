/** Exporting paths from one store and importing them into another: the loops of
    src/libstore/export-import.cc on top of ExportImport, and the part of
    `addToStore` (src/libstore/local-store.cc) they rely on. */
module Closures {
  import opened Bytes
  import opened Finite
  import opened Serialise
  import opened Nar
  import opened NarProperties
  import opened StoreDb
  import opened Streams
  import opened ExportImport
  import T = TopoSort
  import Archive

  /** What a store knows about a valid path; `nar` is the tree on disk and
      `narHash` the registered hash, zero if unknown. */
  datatype Info = Info(nar: Node, refs: set<StorePath>, deriver: Option<StorePath>, narHash: nat)

  type Infos = map<StorePath, Info>

  /** The record `exportPath` writes for a valid path. */
  ghost predicate RecordOf(infos: Infos, r: Record) {
    && r.path in infos && r.nar == infos[r.path].nar && r.deriver == infos[r.path].deriver
    && Distinct(r.refs) && Elements(r.refs) == infos[r.path].refs
  }

  function InfoOf(hash: bytes -> nat, r: Imported): Info {
    var t := ParseDump(r.nar, false);
    Info(if t.Ok? then t.value else Regular(false, []), r.refs, r.deriver, hash(r.nar))
  }

  function AddOne(hash: bytes -> nat, infos: Infos, r: Imported): Infos {
    if r.path in infos then infos else infos[r.path := InfoOf(hash, r)]
  }

  /** A record the importing store accepts when it knows the paths `known`. */
  predicate Acceptable(known: set<StorePath>, r: Imported) {
    r.path in known || (r.refs <= known + {r.path} && ParseDump(r.nar, false).Ok? && ParseDump(r.nar, false).rest == [])
  }

  /** A whole import: the table after it, and the imported paths. */
  function ImportFrom(names: Names, hash: bytes -> nat, infos: Infos, res: seq<StorePath>,
          b: bytes): Parsed<(Infos, seq<StorePath>)>
    decreases |b|
  {
    var (n, b1) :- ReadNum(b);
    if n == 0 then Ok((infos, res), b1) else
    if n != 1 then Bad else
    var (r, b2) :- ReadRecord(names, b1);
    if !Acceptable(infos.Keys, r) then Bad else
    ImportFrom(names, hash, AddOne(hash, infos, r), res + [r.path], b2)
  }

  lemma SingleIsAcyclic(p: StorePath, refs: set<StorePath>)
    ensures T.Acyclic(map[p := refs], {p})
  {
    forall s: seq<StorePath> ensures !T.IsCycle(map[p := refs], {p}, s) {
      if |s| >= 2 {
        assert !T.Edge(map[p := refs], {p}, s[0], s[1]);
      }
    }
  }

  /** Registering one new path. */
  lemma RegisterOne(db: Db, p: StorePath, refs: set<StorePath>)
    requires p !in db
    ensures ReferencesValid(db, map[p := refs]) <==> refs <= db.Keys + {p}
    ensures Merge(db, map[p := refs]) == db[p := refs]
    ensures RefClosed(db) && refs <= db.Keys + {p} ==> RefClosed(db[p := refs])
    ensures T.Acyclic(map[p := refs], (map[p := refs]).Keys)
  {
    assert (map[p := refs]).Keys == {p};
    assert Merge(db, map[p := refs])[p] == refs;
    assert forall q | q in db :: Merge(db, map[p := refs])[q] == db[q];
    SingleIsAcyclic(p, refs);
    hide T.Acyclic;
  }

  class LocalStore {
    const names: Names
    const hash: bytes -> nat
    const database: Database
    var infos: Infos

    ghost predicate Valid()
      reads this, database
    {
      && names.Lawful()
      && infos.Keys == database.db.Keys && RefClosed(database.db)
      && forall p | p in infos :: infos[p].refs == database.db[p]
    }

    constructor (names: Names, hash: bytes -> nat)
      requires names.Lawful()
      ensures Valid() && fresh(database) && infos == map[] && this.names == names && this.hash == hash
    {
      this.names, this.hash, infos := names, hash, map[];
      database := new Database();
    }

    /** `addToStore` for an imported path: the tree is restored from the archive
        and the path registered, unless it is valid already. */
    method AddToStore(r: Imported) returns (ok: bool)
      requires Valid()
      modifies this, database
      ensures Valid() && ok == Acceptable(old(infos.Keys), r)
      ensures infos == if ok then AddOne(hash, old(infos), r) else old(infos)
    {
      hide ParseDump, Names.Lawful, RefClosed;
      if r.path in infos {
        return true;
      }
      var tree := ParseDump(r.nar, false);
      if tree.Bad? || tree.rest != [] {
        return false;
      }
      ok := Register(r.path, InfoOf(hash, r));
    }

    /** `registerValidPath` for a path that is not valid yet. */
    method Register(path: StorePath, info: Info) returns (ok: bool)
      requires Valid() && path !in infos
      modifies this, database
      ensures Valid() && ok == (info.refs <= old(infos.Keys) + {path})
      ensures infos == if ok then old(infos)[path := info] else old(infos)
    {
      hide T.Acyclic, Names.Lawful, RefClosed, Merge, ReferencesValid;
      RegisterOne(database.db, path, info.refs);
      var registered := database.RegisterValidPaths(map[path := info.refs]);
      ok := registered.Committed?;
      if ok {
        infos := infos[path := info];
      }
    }

    // -------------------------------------------------------------------
    // Exporting.

    predicate Exportable(p: StorePath)
      reads this
    {
      && p in infos && Archive.DepthFits(infos[p].nar, 0)
      && (hash(Dump(infos[p].nar, [])) == infos[p].narHash || infos[p].narHash == 0)
    }

    /** The references of a path in the order of their set. */
    method InOrder(refs: set<StorePath>) returns (order: seq<StorePath>)
      ensures Distinct(order) && Elements(order) == refs
    {
      order := [];
      var rest := refs;
      while rest != {}
        invariant rest <= refs && Distinct(order) && Elements(order) == refs - rest
        decreases rest
      {
        var p :| p in rest;
        ElementsSnoc(order, p);
        rest := rest - {p};
        order := order + [p];
      }
    }

    /** The first half of `exportPath`: a path that has changed is refused. */
    method DumpChecked(path: StorePath, sink: Sink) returns (ok: bool)
      requires path in infos
      modifies sink
      ensures ok == Exportable(path)
      ensures ok ==> sink.data == old(sink.data) + Dump(infos[path].nar, [])
    {
      hide Dump, Archive.DepthFits;
      ghost var before := sink.data;
      var start := |sink.data|;
      ok := Archive.DumpPath(infos[path].nar, sink);
      if ok {
        assert sink.data[start..] == Dump(infos[path].nar, []);
        var h := hash(sink.data[start..]);
        if h != infos[path].narHash && infos[path].narHash != 0 {
          ok := false;
        }
      }
    }

    /** `exportPath`. */
    method ExportPath(path: StorePath, sink: Sink) returns (ok: bool, r: Record)
      modifies sink
      ensures ok == Exportable(path)
      ensures ok ==> r.path == path && RecordOf(infos, r)
      ensures ok ==> sink.data == old(sink.data) + Dump(r.nar, EncodeTrailer(names, r, []))
    {
      hide Dump, EncodeTrailer, Archive.DepthFits, Distinct, Elements;
      r := Record(path, Regular(false, []), [], None);
      if path !in infos {
        return false, r;
      }
      ok := DumpChecked(path, sink);
      if ok {
        var order := InOrder(infos[path].refs);
        r := Record(path, infos[path].nar, order, infos[path].deriver);
        DumpThen(r.nar, EncodeTrailer(names, r, []));
        WriteTrailer(r, sink);
      }
    }

    method WriteTrailer(r: Record, sink: Sink)
      modifies sink
      ensures sink.data == old(sink.data) + EncodeTrailer(names, r, [])
    {
      hide EncodeString, EncodeNum, EncodePaths;
      ghost var k6 := EncodeNum(0) + [];
      ghost var k5 := EncodeString(EncodeDeriver(names, r.deriver), k6);
      ghost var k3 := EncodeNum(|r.refs|) + EncodePaths(names, r.refs, k5);
      sink.WriteNum(MAGIC);
      ghost var d1 := sink.data;
      sink.WriteString(names.text(r.path), k3);
      ghost var d2 := sink.data;
      sink.WriteNum(|r.refs|);
      assert sink.data + EncodePaths(names, r.refs, k5) == d2 + k3;
      WritePaths(r.refs, sink, k5);
      sink.WriteString(EncodeDeriver(names, r.deriver), k6);
      ghost var d5 := sink.data;
      sink.WriteNum(0);
      assert sink.data == d5 + k6;
      assert old(sink.data) + EncodeTrailer(names, r, []) == d1 + EncodeString(names.text(r.path), k3);
    }

    method WritePaths(refs: seq<StorePath>, sink: Sink, ghost k: bytes)
      modifies sink
      ensures sink.data + k == old(sink.data) + EncodePaths(names, refs, k)
    {
      hide EncodeString;
      for i := 0 to |refs|
        invariant sink.data + EncodePaths(names, refs[i..], k) == old(sink.data) + EncodePaths(names, refs, k)
      {
        sink.WriteString(names.text(refs[i]), EncodePaths(names, refs[i + 1..], k));
        assert refs[i..][0] == refs[i] && refs[i..][1..] == refs[i + 1..];
      }
    }

    method ExportBlock(path: StorePath, sink: Sink) returns (ok: bool, r: Record)
      modifies sink
      ensures ok == Exportable(path)
      ensures ok ==> r.path == path && RecordOf(infos, r) && sink.data == old(sink.data) + Block(names, r)
    {
      hide Dump, EncodeTrailer, Exportable, RecordOf, EncodeNum;
      sink.WriteNum(1);
      ok, r := ExportPath(path, sink);
    }

    /** The reversed order, which holds the same paths. */
    method Reversed(paths: set<StorePath>, sorted: seq<StorePath>) returns (order: seq<StorePath>)
      requires T.Topological(database.db, paths, sorted)
      ensures T.Reverse(order) == sorted && Elements(order) == paths
    {
      order := T.Reverse(sorted);
      forall p ensures p in order <==> p in sorted {
        if p in sorted { var i :| 0 <= i < |sorted| && sorted[i] == p; assert order[|sorted| - 1 - i] == p; }
      }
      assert Elements(sorted) == paths;
      hide T.Topological;
    }

    /** `exportPaths`: every path after those it refers to. */
    method ExportPaths(paths: set<StorePath>, sink: Sink) returns (ok: bool, rs: seq<Record>)
      modifies sink
      ensures ok <==> T.Acyclic(database.db, paths) && forall p | p in paths :: Exportable(p)
      ensures ok ==> sink.data == old(sink.data) + EncodeStream(names, rs, [])
      ensures ok ==> (forall r | r in rs :: RecordOf(infos, r))
      ensures ok ==> T.Topological(database.db, paths, T.Reverse(RecordPaths(rs)))
    {
      hide T.Acyclic, T.Topological, T.Reverse, Exportable, RecordOf, Blocks, EncodeStream, EncodeNum;
      var sorted := T.Sort(paths, database.db);
      rs := [];
      if sorted.Cycle? {
        return false, rs;
      }
      var order := Reversed(paths, sorted.order);
      ok, rs := WriteBlocks(order, sink);
      if ok {
        sink.WriteNum(0);
        StreamEnds(names, rs);
        assert RecordPaths(rs) == order;
      }
    }

    method WriteBlocks(order: seq<StorePath>, sink: Sink) returns (ok: bool, rs: seq<Record>)
      modifies sink
      ensures ok <==> forall p | p in Elements(order) :: Exportable(p)
      ensures ok ==> sink.data == old(sink.data) + Blocks(names, rs)
      ensures ok ==> |rs| == |order| && forall i | 0 <= i < |rs| :: rs[i].path == order[i] && RecordOf(infos, rs[i])
    {
      hide Exportable, RecordOf, Block;
      rs := [];
      for i := 0 to |order|
        invariant sink.data == old(sink.data) + Blocks(names, rs) && |rs| == i
        invariant forall j | 0 <= j < i :: rs[j].path == order[j] && RecordOf(infos, rs[j]) && Exportable(order[j])
      {
        var r;
        ok, r := ExportBlock(order[i], sink);
        if !ok {
          assert order[i] in Elements(order);
          return;
        }
        assert (rs + [r])[..i] == rs;
        rs := rs + [r];
      }
      ok := true;
    }

    // -------------------------------------------------------------------
    // Importing.

    method GetPath(source: Source) returns (p: StorePath, ok: bool)
      requires source.Valid()
      modifies source
      ensures source.Valid()
      ensures ReadPath(names, old(source.Remaining())) == if ok then Ok(p, source.Remaining()) else Bad
    {
      hide ReadString;
      p := StorePath("", "");
      var s;
      s, ok := source.GetString(MAX_STRING);
      if ok {
        var parsed := names.parse(s);
        ok := parsed.Some?;
        if ok { p := parsed.value; }
      }
    }

    method GetPaths(source: Source, count: nat) returns (ps: set<StorePath>, ok: bool)
      requires source.Valid()
      modifies source
      ensures source.Valid()
      ensures ReadPaths(names, old(source.Remaining()), count) == if ok then Ok(ps, source.Remaining()) else Bad
    {
      hide ReadPath;
      ps, ok := {}, true;
      var size: nat := count;
      assert forall qs: set<StorePath> :: {} + qs == qs;
      while size > 0
        invariant source.Valid() && size <= count && ok
        invariant var whole := ReadPaths(names, old(source.Remaining()), count);
                  var rest := ReadPaths(names, source.Remaining(), size);
                  if rest.Ok? then whole == Ok(ps + rest.value, rest.rest) else whole.Bad?
      {
        var p;
        p, ok := GetPath(source);
        if !ok { return; }
        size := size - 1;
        assert forall qs: set<StorePath> :: ps + ({p} + qs) == ps + {p} + qs;
        ps := ps + {p};
      }
    }

    method GetDeriver(source: Source) returns (deriver: Option<StorePath>, ok: bool)
      requires source.Valid()
      modifies source
      ensures source.Valid()
      ensures ReadDeriver(names, old(source.Remaining())) == if ok then Ok(deriver, source.Remaining()) else Bad
    {
      hide ReadString;
      deriver := None;
      var s;
      s, ok := source.GetString(MAX_STRING);
      if ok && s != [] {
        deriver := names.parse(s);
        ok := deriver.Some?;
      }
    }

    method SkipSignature(source: Source) returns (ok: bool)
      requires source.Valid()
      modifies source
      ensures source.Valid()
      ensures ReadSignature(old(source.Remaining())) == if ok then Ok((), source.Remaining()) else Bad
    {
      hide ReadString, ReadNum;
      var n;
      n, ok := source.GetNum();
      if ok && n >= 0x1_0000_0000 { ok := false; }
      if ok && n == 1 {
        var s;
        s, ok := source.GetString(MAX_STRING);
      }
    }

    method GetTrailer(source: Source, nar: bytes) returns (r: Imported, ok: bool)
      requires source.Valid()
      modifies source
      ensures source.Valid()
      ensures ReadTrailer(names, nar, old(source.Remaining())) == if ok then Ok(r, source.Remaining()) else Bad
    {
      hide ReadNum, ReadPath, ReadPaths, ReadDeriver, ReadSignature;
      r := Imported(StorePath("", ""), nar, {}, None);
      var magic, path, count, refs, deriver;
      magic, ok := source.GetNum();
      if !ok || magic != MAGIC { return r, false; }
      path, ok := GetPath(source);
      if !ok { return; }
      count, ok := source.GetNum();
      if !ok { return; }
      refs, ok := GetPaths(source, count);
      if !ok { return; }
      deriver, ok := GetDeriver(source);
      if !ok { return; }
      ok := SkipSignature(source);
      r := Imported(path, nar, refs, deriver);
    }

    /** Extracts the archive with a tee around the skipping parser, then reads
        what follows it. */
    method GetRecord(source: Source) returns (r: Imported, ok: bool)
      requires source.Valid()
      modifies source
      ensures source.Valid()
      ensures ReadRecord(names, old(source.Remaining())) == if ok then Ok(r, source.Remaining()) else Bad
    {
      hide ParseDump, ReadTrailer;
      r := Imported(StorePath("", ""), [], {}, None);
      var start := source.pos;
      var ether := new Archive.FileHashingSink(true);
      ghost var b := source.Remaining();
      ok := Archive.ParseDumpInto(source, ether);
      if !ok { return; }
      assert source.data[start..source.pos] == b[..|b| - |source.Remaining()|];
      r, ok := GetTrailer(source, source.data[start..source.pos]);
    }

    /** `importPaths`: adds the paths one after the other, and stops at the first
        that is malformed or not acceptable. */
    method ImportPaths(source: Source) returns (ok: bool, res: seq<StorePath>)
      requires Valid() && source.Valid()
      modifies this, database, source
      ensures Valid() && source.Valid()
      ensures match ImportFrom(names, hash, old(infos), [], old(source.Remaining()))
              case Bad => !ok
              case Ok(all, k) => ok && (infos, res) == all && source.Remaining() == k
    {
      hide ReadNum, ReadRecord, Acceptable, AddOne, Names.Lawful, RefClosed;
      res := [];
      ghost var whole := ImportFrom(names, hash, infos, [], source.Remaining());
      while true
        invariant Valid() && source.Valid()
        invariant whole == ImportFrom(names, hash, infos, res, source.Remaining())
        decreases |source.Remaining()|
      {
        var n;
        n, ok := source.GetNum();
        if !ok || n > 1 {
          return false, res;
        }
        if n == 0 {
          return;
        }
        var r;
        r, ok := GetRecord(source);
        if !ok {
          return;
        }
        ok := AddToStore(r);
        if !ok {
          return;
        }
        res := res + [r.path];
      }
    }
  }

  function RecordPaths(rs: seq<Record>): (ps: seq<StorePath>)
    ensures |ps| == |rs| && forall i | 0 <= i < |rs| :: ps[i] == rs[i].path
  {
    seq(|rs|, i requires 0 <= i < |rs| => rs[i].path)
  }

  // ---------------------------------------------------------------------
  // Export, then import.

  /** The table after importing the records one after the other. */
  function ImportedInto(hash: bytes -> nat, infos: Infos, rs: seq<Record>): Infos
    decreases |rs|
  {
    if rs == [] then infos else ImportedInto(hash, AddOne(hash, infos, Received(rs[0])), rs[1..])
  }

  /** References come before referrers, unless the receiver knows them. */
  ghost predicate ReferencesFirst(known: set<StorePath>, rs: seq<Record>) {
    forall i, q | 0 <= i < |rs| && q in rs[i].refs ::
      q in known || q == rs[i].path || exists j :: 0 <= j < i && rs[j].path == q
  }

  lemma ReferencesFirstTail(known: set<StorePath>, rs: seq<Record>)
    requires rs != [] && ReferencesFirst(known, rs)
    ensures Elements(rs[0].refs) <= known + {rs[0].path}
    ensures ReferencesFirst(known + {rs[0].path}, rs[1..])
  {
    forall i, q | 0 <= i < |rs[1..]| && q in rs[1..][i].refs
      ensures q in known + {rs[0].path} || q == rs[1..][i].path || exists j :: 0 <= j < i && rs[1..][j].path == q
    {
      assert rs[1..][i] == rs[i + 1];
      if q !in known && q != rs[i + 1].path {
        var j :| 0 <= j < i + 1 && rs[j].path == q;
        if j > 0 { assert rs[1..][j - 1].path == q; }
      }
    }
  }

  lemma ReceivedIsAcceptable(known: set<StorePath>, r: Record)
    requires Fits(r) && Elements(r.refs) <= known + {r.path}
    ensures Acceptable(known, Received(r))
    ensures ParseDump(Received(r).nar, false) == Ok(r.nar, [])
  {
    ReceivedParses(r);
    hide ParseDump, Dump;
  }

  lemma RecordIsImported(names: Names, hash: bytes -> nat, infos: Infos, res: seq<StorePath>, r: Record, rest: bytes)
    requires names.Lawful() && Fits(r) && Elements(r.refs) <= infos.Keys + {r.path}
    ensures ImportFrom(names, hash, infos, res, EncodeNum(1) + Dump(r.nar, EncodeTrailer(names, r, rest)))
            == ImportFrom(names, hash, AddOne(hash, infos, Received(r)), res + [r.path], rest)
  {
    hide ReadNum, EncodeNum, ReadRecord, EncodeTrailer, Dump, Fits, Acceptable, AddOne;
    var b1 := Dump(r.nar, EncodeTrailer(names, r, rest));
    ReadNumIffEncoded(EncodeNum(1) + b1, 1, b1);
    RecordRead(names, r, rest);
    ReceivedIsAcceptable(infos.Keys, r);
  }

  lemma EndIsImported(names: Names, hash: bytes -> nat, infos: Infos, res: seq<StorePath>, k: bytes)
    ensures ImportFrom(names, hash, infos, res, EncodeNum(0) + k) == Ok((infos, res), k)
  {
    hide ReadNum, EncodeNum, ReadRecord, Acceptable;
    ReadNumIffEncoded(EncodeNum(0) + k, 0, k);
  }

  lemma {:induction false} StreamIsImported(names: Names, hash: bytes -> nat, infos: Infos,
          res: seq<StorePath>, rs: seq<Record>, k: bytes)
    requires names.Lawful() && (forall r | r in rs :: Fits(r)) && ReferencesFirst(infos.Keys, rs)
    ensures ImportFrom(names, hash, infos, res, EncodeStream(names, rs, k)) ==
            Ok((ImportedInto(hash, infos, rs), res + RecordPaths(rs)), k)
    decreases |rs|
  {
    hide EncodeNum, EncodeTrailer, Dump, Fits, InfoOf, ReferencesFirst, ImportFrom, Names.Lawful;
    if rs == [] {
      EndIsImported(names, hash, infos, res, k);
      assert res + RecordPaths(rs) == res;
    } else {
      ReferencesFirstTail(infos.Keys, rs);
      RecordIsImported(names, hash, infos, res, rs[0], EncodeStream(names, rs[1..], k));
      var infos' := AddOne(hash, infos, Received(rs[0]));
      assert infos'.Keys == infos.Keys + {rs[0].path};
      StreamIsImported(names, hash, infos', res + [rs[0].path], rs[1..], k);
      assert res + [rs[0].path] + RecordPaths(rs[1..]) == res + RecordPaths(rs);
    }
  }

  lemma AddOneKnows(hash: bytes -> nat, infos: Infos, r: Record)
    requires Fits(r)
    ensures var infos' := AddOne(hash, infos, Received(r));
            && infos'.Keys == infos.Keys + {r.path}
            && (forall p | p in infos :: infos'[p] == infos[p])
            && (r.path !in infos ==> infos'[r.path] == Info(r.nar, Elements(r.refs), r.deriver, hash(Dump(r.nar, []))))
  {
    ReceivedParses(r);
    hide ParseDump, Dump;
  }

  /** What the receiver knows afterwards. */
  lemma {:induction false} ImportedKnows(hash: bytes -> nat, infos: Infos, rs: seq<Record>)
    requires (forall r | r in rs :: Fits(r)) && Distinct(RecordPaths(rs))
    ensures ImportedInto(hash, infos, rs).Keys == infos.Keys + Elements(RecordPaths(rs))
    ensures forall p | p in infos :: ImportedInto(hash, infos, rs)[p] == infos[p]
    ensures forall i | 0 <= i < |rs| && rs[i].path !in infos ::
              ImportedInto(hash, infos, rs)[rs[i].path] ==
              Info(rs[i].nar, Elements(rs[i].refs), rs[i].deriver, hash(Dump(rs[i].nar, [])))
    decreases |rs|
  {
    hide Dump, ParseDump, Fits, AddOne, Received;
    var ps := RecordPaths(rs);
    if rs == [] {
      assert Elements(ps) == {};
    } else {
      var infos' := AddOne(hash, infos, Received(rs[0]));
      AddOneKnows(hash, infos, rs[0]);
      assert RecordPaths(rs[1..]) == ps[1..];
      ElementsTail(ps);
      assert Distinct(ps[1..]) && forall i | 0 < i < |ps| :: ps[i] != ps[0];
      hide Distinct;
      ImportedKnows(hash, infos', rs[1..]);
      forall i | 0 <= i < |rs| && rs[i].path !in infos
        ensures ImportedInto(hash, infos, rs)[rs[i].path] ==
                Info(rs[i].nar, Elements(rs[i].refs), rs[i].deriver, hash(Dump(rs[i].nar, [])))
      {
        if i > 0 {
          assert rs[1..][i - 1] == rs[i] && ps[i] != ps[0];
        }
      }
    }
  }

  lemma ReceivedParses(r: Record)
    requires Fits(r)
    ensures ParseDump(Received(r).nar, false) == Ok(r.nar, [])
  {
    ParseDumpIff(Dump(r.nar, []), r.nar, []);
  }

  /** The reverse of a topological order puts references first. */
  lemma ReversedOrder(db: Db, paths: set<StorePath>, ps: seq<StorePath>)
    requires T.Topological(db, paths, T.Reverse(ps))
    ensures Elements(ps) == paths && Distinct(ps)
    ensures forall i, j | 0 <= i < |ps| && 0 <= j < |ps| && T.Edge(db, paths, ps[i], ps[j]) :: j < i
  {
    var order := T.Reverse(ps);
    assert forall i | 0 <= i < |ps| :: ps[i] == order[|ps| - 1 - i];
    assert Elements(order) == paths && Distinct(order);
    forall p ensures p in ps <==> p in order {
      if p in order { var i :| 0 <= i < |order| && order[i] == p; assert ps[|ps| - 1 - i] == p; }
      if p in ps { var i :| 0 <= i < |ps| && ps[i] == p; assert order[|ps| - 1 - i] == p; }
    }
    forall i, j | 0 <= i < |ps| && 0 <= j < |ps| && T.Edge(db, paths, ps[i], ps[j]) ensures j < i {
      assert T.Edge(db, paths, order[|ps| - 1 - i], order[|ps| - 1 - j]);
    }
  }

  /** In the exported order every reference to another exported path is met first. */
  lemma ExportedReferencesFirst(infos: Infos, db: Db, paths: set<StorePath>, known: set<StorePath>, rs: seq<Record>)
    requires T.Topological(db, paths, T.Reverse(RecordPaths(rs)))
    requires infos.Keys == db.Keys && forall p | p in infos :: infos[p].refs == db[p]
    requires forall r | r in rs :: RecordOf(infos, r)
    requires forall p | p in paths && p in infos :: infos[p].refs <= paths + known
    ensures ReferencesFirst(known, rs) && Elements(RecordPaths(rs)) == paths && Distinct(RecordPaths(rs))
    ensures forall r | r in rs :: r.path in paths
  {
    var ps := RecordPaths(rs);
    ReversedOrder(db, paths, ps);
    hide T.Topological, Distinct;
    assert forall i | 0 <= i < |rs| :: ps[i] in Elements(ps);
    forall i, q | 0 <= i < |rs| && q in rs[i].refs && q !in known && q != rs[i].path
      ensures exists j :: 0 <= j < i && rs[j].path == q
    {
      assert RecordOf(infos, rs[i]) && q in Elements(rs[i].refs);
      assert q in Elements(ps);
      var j :| 0 <= j < |ps| && ps[j] == q;
      assert T.Edge(db, paths, ps[i], ps[j]);
    }
  }

  /** What `exportPaths` is for: paths whose references are exported with them or
      known to the receiver arrive with their trees, references and derivers;
      every registration succeeds. */
  method ExportThenImport(src: LocalStore, dst: LocalStore, paths: set<StorePath>) returns (ok: bool,
          res: seq<StorePath>)
    requires src.Valid() && dst.Valid() && src != dst && src.database != dst.database && src.names == dst.names
    requires forall p | p in paths :: src.Exportable(p)
    requires forall p | p in paths && p in src.infos ::
               && WellFormed(src.infos[p].nar, 0) && Skippable(src.infos[p].nar)
               && src.infos[p].refs <= paths + dst.infos.Keys && |src.infos[p].refs| < TWO64
    requires T.Acyclic(src.database.db, paths)
    modifies dst, dst.database
    ensures ok && dst.Valid() && Elements(res) == paths && Distinct(res)
    ensures dst.infos.Keys == old(dst.infos.Keys) + paths
    ensures forall p | p in old(dst.infos) :: dst.infos[p] == old(dst.infos[p])
    ensures forall p | p in paths && p !in old(dst.infos) && p in src.infos ::
              dst.infos[p] == src.infos[p].(narHash := dst.hash(Dump(src.infos[p].nar, [])))
  {
    hide T.Acyclic, T.Topological, Names.Lawful, Dump, RefClosed, WellFormed, Skippable;
    hide ReferencesFirst, ImportFrom, EncodeStream;
    var sink := new Sink();
    var rs;
    ok, rs := src.ExportPaths(paths, sink);
    ghost var before, known := dst.infos, dst.infos.Keys;
    var source := new Source(sink.data);
    assert [] + EncodeStream(src.names, rs, []) == EncodeStream(src.names, rs, []);
    assert source.Remaining() == EncodeStream(src.names, rs, []);
    ExportedReferencesFirst(src.infos, src.database.db, paths, known, rs);
    ExportedFits(src.infos, paths, rs);
    StreamIsImported(src.names, dst.hash, before, [], rs, []);
    ImportedKnows(dst.hash, before, rs);
    ok, res := dst.ImportPaths(source);
    assert [] + RecordPaths(rs) == RecordPaths(rs);
    PathsHaveRecords(rs, paths);
  }

  lemma PathsHaveRecords(rs: seq<Record>, paths: set<StorePath>)
    requires Elements(RecordPaths(rs)) == paths
    ensures forall p | p in paths :: exists i :: 0 <= i < |rs| && rs[i].path == p
  {
    forall p | p in paths ensures exists i :: 0 <= i < |rs| && rs[i].path == p {
      assert p in RecordPaths(rs);
    }
  }

  lemma ExportedFits(infos: Infos, paths: set<StorePath>, rs: seq<Record>)
    requires forall r | r in rs :: RecordOf(infos, r) && r.path in paths
    requires forall p | p in paths && p in infos ::
               && WellFormed(infos[p].nar, 0) && Skippable(infos[p].nar)
               && |infos[p].refs| < TWO64
    ensures forall r | r in rs :: Fits(r)
  {
    forall r | r in rs ensures Fits(r) {
      DistinctSize(r.refs);
    }
  }

  lemma {:induction false} DistinctSize<A>(s: seq<A>)
    requires Distinct(s)
    ensures |Elements(s)| == |s|
    decreases |s|
  {
    if s == [] {
      assert Elements(s) == {};
    } else {
      ElementsTail(s);
      assert s[0] in Elements(s);
      DistinctSize(s[1..]);
    }
  }
}
