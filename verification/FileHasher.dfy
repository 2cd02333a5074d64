/** The per-file hash tap on a NAR restore (src/libstore/local-store.cc,
    `AsyncFileHasher` and `FileHashingSink`). A digest is modelled by its
    pre-image, the bytes that were fed to the hash. */
module FileHasher {
  import opened Bytes
  import opened Serialise
  import opened Nar

  /** A canonical path: the names from the root down. */
  type Path = seq<bytes>

  datatype Event =
    | Begin(key: Path)
    | Exec
    | Size(size: nat)
    | Data(data: bytes)
    | End

  /** The worker's per-file state machine and the map it fills. */
  datatype Hasher = Hasher(key: Path, hash: bytes, size: nat, files: map<Path, bytes>)

  function Apply(h: Hasher, ev: Event): Hasher {
    match ev
    case Begin(key) =>
      h.(key := key,
         hash := EncodeString(VERSION_MAGIC, EncodeString(OPEN, EncodeString(TYPE, EncodeString(REGULAR, [])))))
    case Exec => h.(hash := h.hash + EncodeString(EXECUTABLE, EncodeString([], [])))
    case Size(size) => h.(size := size, hash := h.hash + EncodeString(CONTENTS, EncodeNum(size)))
    case Data(data) => h.(hash := h.hash + data)
    case End =>
      var digest := h.hash + Zeros(PadLength(h.size)) + EncodeString(CLOSE, []);
      h.(hash := [], files := h.files[h.key := digest])
  }

  function ApplyAll(h: Hasher, evs: seq<Event>): Hasher {
    if evs == [] then h else Apply(ApplyAll(h, evs[..|evs| - 1]), evs[|evs| - 1])
  }

  /** What is restored at a path. */
  datatype Object = Folder | File(executable: bool, contents: bytes) | Link(target: bytes)

  /** Restoring a tree below `path` on top of `m`. */
  function Restore(t: Node, path: Path, m: map<Path, Object>): map<Path, Object> {
    match t
    case Regular(executable, contents) => m[path := File(executable, contents)]
    case Symlink(target) => m[path := Link(target)]
    case Directory(es) => RestoreEntries(es, path, m[path := Folder])
  }

  function RestoreEntries(es: Entries, path: Path, m: map<Path, Object>): map<Path, Object> {
    match es
    case NoEntries => m
    case Entry(name, node, others) => RestoreEntries(others, path, Restore(node, path + [name], m))
  }

  /** The map the hasher is to fill: each regular file's own archive. */
  function Hashes(t: Node, path: Path, m: map<Path, bytes>): map<Path, bytes> {
    match t
    case Regular(_, _) => m[path := Dump(t, [])]
    case Symlink(_) => m
    case Directory(es) => HashesOfEntries(es, path, m)
  }

  function HashesOfEntries(es: Entries, path: Path, m: map<Path, bytes>): map<Path, bytes> {
    match es
    case NoEntries => m
    case Entry(name, node, others) => HashesOfEntries(others, path, Hashes(node, path + [name], m))
  }

  // ---------------------------------------------------------------------
  // The restored tree and the hash map agree.

  predicate Below(path: Path, q: Path) {
    |path| <= |q| && q[..|path|] == path
  }

  predicate DisjointFrom(path: Path, keys: set<Path>) {
    forall q | q in keys :: !Below(path, q)
  }

  /** The keys of `hashes` are the regular files of `m`, and each value is the
      archive of that file alone. */
  ghost predicate Agree(m: map<Path, Object>, hashes: map<Path, bytes>) {
    && (forall q :: q in hashes <==> q in m && m[q].File?)
    && (forall q | q in hashes :: hashes[q] == Dump(Regular(m[q].executable, m[q].contents), []))
  }

  /** Nothing outside the subtree changes, and names after `prevName` are free. */
  ghost predicate FreeAfter(path: Path, prevName: bytes, m: map<Path, Object>) {
    forall q | q in m && Below(path, q) && |q| > |path| :: !Less(prevName, q[|path|])
  }

  lemma BelowChild(path: Path, name: bytes, q: Path)
    ensures Below(path + [name], q) ==> Below(path, q) && |q| > |path| && q[|path|] == name
  {
    var sub := path + [name];
    if Below(sub, q) {
      assert q[..|path|] == q[..|sub|][..|path|] == path;
      assert q[|path|] == q[..|sub|][|path|];
    }
  }

  lemma {:induction false} RestoreAgrees(t: Node, path: Path, depth: nat, m: map<Path, Object>,
          hashes: map<Path, bytes>)
    requires WellFormed(t, depth)
    requires Agree(m, hashes) && DisjointFrom(path, m.Keys)
    ensures Agree(Restore(t, path, m), Hashes(t, path, hashes))
    ensures forall q | q in Restore(t, path, m) && q !in m :: Below(path, q)
    ensures forall q | q in m :: q in Restore(t, path, m) && Restore(t, path, m)[q] == m[q]
    decreases t
  {
    hide Dump;
    assert Below(path, path);
    match t {
      case Regular(executable, contents) =>
      case Symlink(target) =>
      case Directory(es) =>
        RestoreEntriesAgree(es, path, [], depth, m[path := Folder], hashes);
    }
  }

  lemma {:induction false} RestoreEntriesAgree(es: Entries, path: Path, prevName: bytes, depth: nat,
                                               m: map<Path, Object>, hashes: map<Path, bytes>)
    requires WellFormedEntries(es, prevName, depth)
    requires Agree(m, hashes) && FreeAfter(path, prevName, m)
    ensures Agree(RestoreEntries(es, path, m), HashesOfEntries(es, path, hashes))
    ensures forall q | q in RestoreEntries(es, path, m) && q !in m :: Below(path, q)
    ensures forall q | q in m :: q in RestoreEntries(es, path, m) && RestoreEntries(es, path, m)[q] == m[q]
    decreases es
  {
    hide Dump, Agree;
    match es {
      case NoEntries =>
      case Entry(name, node, others) =>
        var sub := path + [name];
        var m' := Restore(node, sub, m);
        forall q: Path
          ensures Below(sub, q) ==> Below(path, q) && |q| > |path| && q[|path|] == name
        {
          BelowChild(path, name, q);
        }
        RestoreAgrees(node, sub, depth + 1, m, hashes);
        LessIrreflexive(name);
        forall q | q in m && Below(path, q) && |q| > |path|
          ensures !Less(name, q[|path|])
        {
          if Less(name, q[|path|]) { LessTransitive(prevName, name, q[|path|]); }
        }
        RestoreEntriesAgree(others, path, name, depth, m', Hashes(node, sub, hashes));
    }
  }

  /** The captured map of a whole archive: its keys are exactly the regular
      files, its values what re-hashing each restored file would feed the hash. */
  lemma CapturedHashesAgree(t: Node)
    requires WellFormed(t, 0)
    ensures Agree(Restore(t, [], map[]), Hashes(t, [], map[]))
  {
    RestoreAgrees(t, [], 0, map[], map[]);
  }

  // ---------------------------------------------------------------------
  // One file's events give its archive, however its contents are split.

  lemma ApplyAllSnoc(h: Hasher, evs: seq<Event>, ev: Event)
    ensures ApplyAll(h, evs + [ev]) == Apply(ApplyAll(h, evs), ev)
  {
    assert (evs + [ev])[..|evs|] == evs;
  }

  lemma {:induction false} ApplyAllAppend(h: Hasher, a: seq<Event>, b: seq<Event>)
    ensures ApplyAll(h, a + b) == ApplyAll(ApplyAll(h, a), b)
    decreases |b|
  {
    if b == [] {
      assert a + b == a;
    } else {
      var b' := b[..|b| - 1];
      assert a + b == (a + b') + [b[|b| - 1]];
      ApplyAllAppend(h, a, b');
      ApplyAllSnoc(h, a + b', b[|b| - 1]);
    }
  }

  /** The tokens in front of a file's contents. */
  function FileTokens(executable: bool): bytes {
    var h := EncodeString(VERSION_MAGIC, EncodeString(OPEN, EncodeString(TYPE, EncodeString(REGULAR, []))));
    if executable then h + EncodeString(EXECUTABLE, EncodeString([], [])) else h
  }

  /** What the hash has been fed when a file ends. */
  function FileDigest(executable: bool, contents: bytes): bytes {
    FileTokens(executable) + EncodeString(CONTENTS, EncodeNum(|contents|)) + contents
      + Zeros(PadLength(|contents|)) + EncodeString(CLOSE, [])
  }

  lemma FileTokensThen(executable: bool, k: bytes)
    ensures FileTokens(executable) + k
         == EncodeString(VERSION_MAGIC, EncodeString(OPEN, EncodeString(TYPE, EncodeString(REGULAR,
              if executable then EncodeString(EXECUTABLE, EncodeString([], k)) else k))))
  {
    hide EncodeString;
    var h := EncodeString(VERSION_MAGIC, EncodeString(OPEN, EncodeString(TYPE, EncodeString(REGULAR, []))));
    var e := EncodeString(EXECUTABLE, EncodeString([], []));
    assert e + k == EncodeString(EXECUTABLE, EncodeString([], k)) by {
      EncodeThen([], [], k);
      EncodeThen(EXECUTABLE, EncodeString([], []), k);
      assert [] + k == k;
    }
    var k2 := if executable then e + k else k;
    assert FileTokens(executable) + k == h + k2;
    EncodeThen(REGULAR, [], k2);
    assert [] + k2 == k2;
    EncodeThen(TYPE, EncodeString(REGULAR, []), k2);
    EncodeThen(OPEN, EncodeString(TYPE, EncodeString(REGULAR, [])), k2);
    EncodeThen(VERSION_MAGIC, EncodeString(OPEN, EncodeString(TYPE, EncodeString(REGULAR, []))), k2);
  }

  /** The tap's framing is the framing of `dumpPath`. */
  lemma FileDigestIsDump(executable: bool, contents: bytes)
    ensures FileDigest(executable, contents) == Dump(Regular(executable, contents), [])
  {
    var close := EncodeString(CLOSE, []);
    var tail := contents + (Zeros(PadLength(|contents|)) + close);
    assert EncodeNum(|contents|) + tail == EncodeString(contents, close);
    hide EncodeString, EncodeNum;
    var c := EncodeString(CONTENTS, EncodeNum(|contents|));
    EncodeThen(CONTENTS, EncodeNum(|contents|), tail);
    FileTokensThen(executable, c + tail);
    Regroup(FileTokens(executable), c, contents, Zeros(PadLength(|contents|)), close);
    hide FileTokens;
  }

  lemma Regroup(a: bytes, b: bytes, c: bytes, d: bytes, e: bytes)
    ensures a + b + c + d + e == a + (b + (c + (d + e)))
  {
  }

  // ---------------------------------------------------------------------
  // What is restored, by walking down the tree.

  function Get(m: map<Path, Object>, q: Path): Option<Object> {
    if q in m then Some(m[q]) else None
  }

  function At(t: Node, q: Path): Option<Object> {
    match t
    case Regular(executable, contents) => if q == [] then Some(File(executable, contents)) else None
    case Symlink(target) => if q == [] then Some(Link(target)) else None
    case Directory(es) => if q == [] then Some(Folder) else AtEntries(es, q)
  }

  function AtEntries(es: Entries, q: Path): Option<Object>
    requires q != []
  {
    match es
    case NoEntries => None
    case Entry(name, node, others) => if q[0] == name then At(node, q[1..]) else AtEntries(others, q)
  }

  lemma {:induction false} EntriesComeAfter(es: Entries, prevName: bytes, depth: nat, q: Path)
    requires WellFormedEntries(es, prevName, depth) && q != [] && AtEntries(es, q).Some?
    ensures Less(prevName, q[0])
  {
    if q[0] != es.name {
      EntriesComeAfter(es.others, es.name, depth, q);
      LessTransitive(prevName, es.name, q[0]);
    }
  }

  /** Below its path stands the tree, and nothing else changes. */
  lemma {:induction false} RestoredAt(t: Node, path: Path, depth: nat, m: map<Path, Object>, q: Path)
    requires WellFormed(t, depth) && DisjointFrom(path, m.Keys)
    ensures Get(Restore(t, path, m), q) == if Below(path, q) then At(t, q[|path|..]) else Get(m, q)
    decreases t
  {
    assert Below(path, q) && |q| == |path| ==> q == path;
    if t.Directory? {
      EntriesRestoredAt(t.entries, path, [], depth, m[path := Folder], q);
      if Below(path, q) && |q| > |path| && AtEntries(t.entries, q[|path|..]).Some? {
        EntriesComeAfter(t.entries, [], depth, q[|path|..]);
      }
    }
  }

  lemma {:induction false} EntriesRestoredAt(es: Entries, path: Path, prevName: bytes, depth: nat,
                                             m: map<Path, Object>, q: Path)
    requires WellFormedEntries(es, prevName, depth) && FreeAfter(path, prevName, m)
    ensures Get(RestoreEntries(es, path, m), q) ==
            if Below(path, q) && |q| > |path| && Less(prevName, q[|path|]) then AtEntries(es, q[|path|..])
            else Get(m, q)
    decreases es
  {
    if es.Entry? {
      var Entry(name, node, others) := es;
      var m1 := Restore(node, path + [name], m);
      NewNameIsFree(path, prevName, name, m);
      forall p ensures Get(m1, p) == if Below(path + [name], p) then At(node, p[|path| + 1..]) else Get(m, p) {
        RestoredAt(node, path + [name], depth + 1, m, p);
      }
      LaterNamesAreFree(path, prevName, name, m, m1);
      EntriesRestoredAt(others, path, name, depth, m1, q);
      EntryRestoredAt(es, path, prevName, depth, q);
      hide Restore, RestoreEntries, At, Less, WellFormed;
    }
  }

  lemma NewNameIsFree(path: Path, prevName: bytes, name: bytes, m: map<Path, Object>)
    requires FreeAfter(path, prevName, m) && Less(prevName, name)
    ensures DisjointFrom(path + [name], m.Keys)
  {
    forall q | q in m.Keys ensures !Below(path + [name], q) {
      BelowChild(path, name, q);
    }
  }

  lemma LaterNamesAreFree(path: Path, prevName: bytes, name: bytes, m: map<Path, Object>, m1: map<Path, Object>)
    requires FreeAfter(path, prevName, m) && Less(prevName, name)
    requires forall q | q in m1 :: q in m || Below(path + [name], q)
    ensures FreeAfter(path, name, m1)
  {
    LessIrreflexive(name);
    forall q | q in m1 && Below(path, q) && |q| > |path| ensures !Less(name, q[|path|]) {
      BelowChild(path, name, q);
      if Less(name, q[|path|]) { LessTransitive(prevName, name, q[|path|]); }
    }
  }

  /** Where a path below stands to the first name. */
  lemma EntryRestoredAt(es: Entries, path: Path, prevName: bytes, depth: nat, q: Path)
    requires es.Entry? && WellFormedEntries(es, prevName, depth)
    ensures Below(path + [es.name], q) <==> Below(path, q) && |q| > |path| && q[|path|] == es.name
    ensures !Less(es.name, es.name)
    ensures Below(path, q) && |q| > |path| ==>
              && q[|path|..][0] == q[|path|] && q[|path|..][1..] == q[|path| + 1..]
              && (Less(es.name, q[|path|]) ==> Less(prevName, q[|path|]))
              && (!Less(es.name, q[|path|]) ==> AtEntries(es.others, q[|path|..]).None?)
  {
    LessIrreflexive(es.name);
    BelowChild(path, es.name, q);
    if Below(path, q) && |q| > |path| {
      var rest := q[|path|..];
      if q[|path|] == es.name {
        assert q[..|path| + 1] == path + [es.name];
      }
      if Less(es.name, q[|path|]) { LessTransitive(prevName, es.name, q[|path|]); }
      if AtEntries(es.others, rest).Some? { EntriesComeAfter(es.others, es.name, depth, rest); }
    }
  }

  /** Restoring a tree makes exactly the objects met by walking down it. */
  lemma RestoreIsTree(t: Node, q: Path)
    requires WellFormed(t, 0)
    ensures Get(Restore(t, [], map[]), q) == At(t, q)
  {
    RestoredAt(t, [], 0, map[], q);
  }

  /** A name that leads one step down and nowhere else. */
  predicate StaysInside(name: bytes) {
    0 < |name| <= 255 && name != [46] && name != [46, 46] && 47 !in name && 0 !in name
  }

  /** Whatever an archive says, no restored path leaves the tree. */
  lemma RestoredPathsStayInside(t: Node, q: Path)
    requires WellFormed(t, 0) && q in Restore(t, [], map[])
    ensures |q| < 64 && forall i | 0 <= i < |q| :: StaysInside(q[i])
  {
    RestoreIsTree(t, q);
    WalkStaysInside(t, 0, q);
  }

  lemma {:induction false} WalkStaysInside(t: Node, depth: nat, q: Path)
    requires WellFormed(t, depth) && At(t, q).Some?
    ensures depth + |q| < 64 && forall i | 0 <= i < |q| :: StaysInside(q[i])
    decreases t
  {
    if q != [] {
      EntriesStayInside(t.entries, [], depth, q);
    }
  }

  lemma {:induction false} EntriesStayInside(es: Entries, prevName: bytes, depth: nat, q: Path)
    requires WellFormedEntries(es, prevName, depth) && q != [] && AtEntries(es, q).Some?
    ensures depth + |q| < 64 && forall i | 0 <= i < |q| :: StaysInside(q[i])
    decreases es
  {
    if q[0] == es.name {
      WalkStaysInside(es.node, depth + 1, q[1..]);
      assert Ascii(".") == [46] && Ascii("..") == [46, 46];
      assert forall i | 0 < i < |q| :: q[i] == q[1..][i - 1];
    } else {
      EntriesStayInside(es.others, es.name, depth, q);
    }
  }

  /** `n` directories in one another around an empty file. */
  function Nested(n: nat): Node {
    if n == 0 then Regular(false, []) else Directory(Entry([97], Nested(n - 1), NoEntries))
  }

  lemma SingleEntry(name: bytes, node: Node, depth: nat)
    ensures WellFormed(Directory(Entry(name, node, NoEntries)), depth) <==>
            depth < 64 && StaysInside(name) && WellFormed(node, depth + 1)
  {
    assert Ascii(".") == [46] && Ascii("..") == [46, 46];
    var es := Entry(name, node, NoEntries);
    assert name != [] ==> Less([], name);
    assert ValidName(name) && |name| <= 255 <==> StaysInside(name);
    assert WellFormedEntries(NoEntries, name, depth);
    assert WellFormedEntries(es, [], depth) <==> StaysInside(name) && WellFormed(node, depth + 1);
    assert WellFormed(Directory(es), depth) <==> depth < 64 && WellFormedEntries(es, [], depth);
  }

  lemma {:induction false} NestedFits(n: nat, depth: nat)
    ensures WellFormed(Nested(n), depth) <==> depth + n < 64
  {
    if n > 0 {
      var a: bytes := [97];
      NestedFits(n - 1, depth + 1);
      SingleEntry(a, Nested(n - 1), depth);
      assert StaysInside(a);
    }
  }

  /** What an archive can hold: names that stay inside, targets without NUL, and 64
      levels, each within its bound. */
  lemma ArchiveLimits(name: bytes, target: bytes, n: nat)
    ensures WellFormed(Directory(Entry(name, Regular(false, []), NoEntries)), 0) <==> StaysInside(name)
    ensures WellFormed(Symlink(target), 0) <==> 0 < |target| <= 4095 && 0 !in target
    ensures WellFormed(Nested(n), 0) <==> n < 64
  {
    NestedFits(n, 0);
    SingleEntry(name, Regular(false, []), 0);
  }
}
