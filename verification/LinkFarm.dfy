/** Deduplication by hard links: `optimisePath_`, `loadInodeHash` and
    `readDirectoryIgnoringInodes` in src/libstore/optimise-store.cc. */
module LinkFarm {
  import opened Bytes

  datatype Content = Regular(data: bytes, executable: bool) | Symlink(target: string) | Special

  datatype Inode = Inode(content: Content, writable: bool)

  function Size(c: Content): nat {
    match c
    case Regular(data, _) => |data|
    case Symlink(target) => |target|
    case Special => 0
  }

  /** A path to be optimised: what is below it, by the names of its files. */
  datatype Tree = File(path: string) | Directory(children: seq<Tree>)

  function Paths(t: Tree): set<string> {
    match t
    case File(path) => {path}
    case Directory(children) => set c, p | c in children && p in Paths(c) :: p
  }

  /** What linking may run into: `no_space_on_device` for the farm entry,
      `too_many_links` for the temporary link or the rename, or an error that
      is thrown. */
  datatype Fault = Works | NoSpace | TooManyLinks | Throws

  ghost predicate NoCollisions(hash: Content -> nat) {
    forall c, d :: hash(c) == hash(d) ==> c == d
  }

  /** What does not change: the hash function, the inodes, and what linking each
      file runs into. */
  datatype Setting = Setting(hash: Content -> nat, canLinkSymlink: bool, inodes: map<nat, Inode>,
          fault: string -> Fault) {
    predicate Eligible(i: Inode) {
      (i.content.Regular? && !i.writable && |i.content.data| > 0) || (i.content.Symlink? && canLinkSymlink)
    }
  }

  /** The store's files and the entries of the links directory, by inode number;
      `excused` are the files passed over for the link limit or lack of space. */
  datatype Store = Store(names: map<string, nat>, farm: map<nat, nat>, inodeHash: set<nat>,
                         filesLinked: nat, bytesFreed: nat, excused: set<string>)

  /** A corrupted farm entry shows in its size. */
  ghost predicate Detectable(e: Setting, farm: map<nat, nat>, h: nat)
    requires h in farm && farm[h] in e.inodes
  {
    forall c :: e.hash(c) == h && Size(c) == Size(e.inodes[farm[h]].content) ==> c == e.inodes[farm[h]].content
  }

  ghost predicate Valid(e: Setting, s: Store) {
    && NoCollisions(e.hash)
    && (forall p | p in s.names :: s.names[p] in e.inodes)
    && (forall h | h in s.farm :: s.farm[h] in e.inodes && Detectable(e, s.farm, h))
  }

  /** Every farm entry's name is the hash of its inode, which may be linked, and
      `inodeHash` holds inodes of the farm. */
  ghost predicate Clean(e: Setting, s: Store) {
    && (forall h | h in s.farm ::
          s.farm[h] in e.inodes && e.hash(e.inodes[s.farm[h]].content) == h && e.Eligible(e.inodes[s.farm[h]]))
    && (forall i | i in s.inodeHash :: exists h :: h in s.farm && s.farm[h] == i)
  }

  /** What a path shows. */
  function Show(e: Setting, s: Store, p: string): Content {
    if p in s.names && s.names[p] in e.inodes then e.inodes[s.names[p]].content else Special
  }

  /** The file is on the farm inode for its hash, or is none to be linked. */
  predicate Settled(e: Setting, s: Store, p: string) {
    p in s.names && s.names[p] in e.inodes && e.Eligible(e.inodes[s.names[p]]) ==>
      e.hash(Show(e, s, p)) in s.farm && s.farm[e.hash(Show(e, s, p))] == s.names[p]
  }

  /** Nothing a path shows has changed. */
  ghost predicate SameMeaning(e: Setting, a: Store, b: Store) {
    a.names.Keys == b.names.Keys && forall p | p in a.names :: Show(e, b, p) == Show(e, a, p)
  }

  /** What a pass over `paths` does to a clean farm. */
  ghost predicate Converges(e: Setting, a: Store, b: Store, paths: set<string>, failed: bool) {
    Clean(e, a) ==>
      && Clean(e, b)
      && (forall p | p in a.names && Settled(e, a, p) :: Settled(e, b, p))
      && (!failed ==> forall p | p in paths :: Settled(e, b, p) || p in b.excused)
      && ((forall p | p in paths :: Settled(e, a, p)) ==>
            b.names == a.names && b.farm == a.farm && b.filesLinked == a.filesLinked && b.bytesFreed == a.bytesFreed)
      && (forall p | p in a.names && p in b.names && b.names[p] != a.names[p] ::
            b.names[p] in e.inodes && e.Eligible(e.inodes[b.names[p]]))
  }

  /** Only files among `paths` that may be linked, and can be, move to another inode
      or get a farm entry. */
  ghost predicate Moves(e: Setting, a: Store, b: Store, paths: set<string>) {
    && (forall p | p in a.names && p in b.names && b.names[p] != a.names[p] ::
          p in paths && e.fault(p).Works? && a.names[p] in e.inodes && e.Eligible(e.inodes[a.names[p]]))
    && (forall h | h in b.farm && h !in a.farm ::
          exists p :: p in paths && p in a.names && e.fault(p).Works? && e.hash(Show(e, a, p)) == h)
  }

  /** A pass fails, and passes a file over, only where linking does not work. */
  ghost predicate Faultless(e: Setting, a: Store, b: Store, paths: set<string>, failed: bool) {
    && (failed ==> exists p :: p in paths && !e.fault(p).Works?)
    && (forall p | p in b.excused && p !in a.excused :: p in paths && (e.fault(p).NoSpace? || e.fault(p).TooManyLinks?))
  }

  ghost predicate Passed(e: Setting, a: Store, b: Store, paths: set<string>, failed: bool) {
    && SameMeaning(e, a, b) && a.excused <= b.excused && Moves(e, a, b, paths)
    && Converges(e, a, b, paths, failed) && Faultless(e, a, b, paths, failed)
  }

  lemma PassedAfterPassed(e: Setting, a: Store, b: Store, c: Store, ps: set<string>, qs: set<string>, failed: bool)
    requires ps + qs <= a.names.Keys
    requires Passed(e, a, b, ps, false) && Passed(e, b, c, qs, failed)
    ensures Passed(e, a, c, ps + qs, failed)
  {
    hide Clean;
    if (forall p | p in ps + qs :: Settled(e, a, p)) && Clean(e, a) {
      assert forall p | p in ps :: Settled(e, a, p);
      assert forall p | p in qs :: Settled(e, b, p);
    }
    hide Settled;
  }

  /** A file already on a farm inode is left alone. */
  lemma KnownStays(e: Setting, s: Store, p: string)
    requires p in s.names && s.names[p] in s.inodeHash
    ensures Passed(e, s, s, {p}, false)
  {
    if Clean(e, s) {
      var h :| h in s.farm && s.farm[h] == s.names[p];
    }
  }

  lemma IneligibleStays(e: Setting, s: Store, p: string)
    requires p in s.names && s.names[p] in e.inodes && !e.Eligible(e.inodes[s.names[p]])
    ensures Passed(e, s, s, {p}, false)
  {
  }

  /** A fault leaves the file where it is. */
  lemma FaultStays(e: Setting, s: Store, p: string, failed: bool)
    requires p in s.names && s.names[p] in e.inodes && !Settled(e, s, p) && !e.fault(p).Works?
    requires !failed ==> !e.fault(p).Throws?
    ensures Passed(e, s, s.(excused := s.excused + if failed then {} else {p}), {p}, failed)
  {
  }

  /** A new farm entry for a file. */
  lemma Entered(e: Setting, s: Store, p: string, h: nat)
    requires Valid(e, s) && p in s.names && h == e.hash(Show(e, s, p)) && h !in s.farm
    requires e.Eligible(e.inodes[s.names[p]]) && e.fault(p).Works?
    ensures var t := s.(farm := s.farm[h := s.names[p]], inodeHash := s.inodeHash + {s.names[p]});
            Valid(e, t) && Passed(e, s, t, {p}, false)
  {
    var t := s.(farm := s.farm[h := s.names[p]], inodeHash := s.inodeHash + {s.names[p]});
    assert t.farm[h] == s.names[p];
    assert !Settled(e, s, p) && Settled(e, t, p);
    forall j | j in s.inodeHash && Clean(e, s) ensures exists g :: g in t.farm && t.farm[g] == j {
      var g :| g in s.farm && s.farm[g] == j;
      assert t.farm[g] == j;
    }
  }

  /** A file replaced by the farm's copy. */
  lemma Relinked(e: Setting, s: Store, p: string, h: nat)
    requires Valid(e, s) && p in s.names && h == e.hash(Show(e, s, p)) && h in s.farm
    requires Size(Show(e, s, p)) == Size(e.inodes[s.farm[h]].content) && s.names[p] != s.farm[h]
    requires e.Eligible(e.inodes[s.names[p]]) && e.fault(p).Works?
    ensures var t := s.(names := s.names[p := s.farm[h]], filesLinked := s.filesLinked + 1,
                        bytesFreed := s.bytesFreed + Size(Show(e, s, p)));
            Valid(e, t) && Passed(e, s, t, {p}, false)
  {
    var t := s.(names := s.names[p := s.farm[h]], filesLinked := s.filesLinked + 1,
                bytesFreed := s.bytesFreed + Size(Show(e, s, p)));
    assert Detectable(e, s.farm, h);
    assert Show(e, t, p) == Show(e, s, p);
    assert !Settled(e, s, p) && Settled(e, t, p);
    assert Clean(e, s) ==> Clean(e, t);
    assert forall q | q in s.names && q != p :: Settled(e, s, q) == Settled(e, t, q);
  }

  /** Removing a farm entry whose size is wrong. */
  lemma EntryRemoved(e: Setting, s: Store, p: string, h: nat)
    requires Valid(e, s) && p in s.names && h == e.hash(Show(e, s, p)) && h in s.farm
    requires Size(Show(e, s, p)) != Size(e.inodes[s.farm[h]].content)
    ensures !Clean(e, s) && Valid(e, s.(farm := s.farm - {h}))
  {
  }

  class Optimiser {
    const setting: Setting
    var names: map<string, nat>
    var farm: map<nat, nat>
    var inodeHash: set<nat>
    var filesLinked: nat
    var bytesFreed: nat
    ghost var excused: set<string>

    ghost function Now(): Store
      reads this
    {
      Store(names, farm, inodeHash, filesLinked, bytesFreed, excused)
    }

    /** Starts a run with the inodes of the farm: `loadInodeHash`. */
    method LoadInodeHash()
      modifies this`inodeHash, this`excused
      ensures Now() == old(Now()).(inodeHash := farm.Values, excused := {})
    {
      inodeHash := farm.Values;
      excused := {};
    }

    function LinkCount(i: nat): nat
      reads this
    {
      |set p | p in names && names[p] == i| + |set h | h in farm && farm[h] == i|
    }

    /** `optimisePath_` for anything but a directory. */
    method OptimiseFile(p: string) returns (failed: bool)
      requires Valid(setting, Now()) && p in names
      modifies this
      ensures Valid(setting, Now()) && Passed(setting, old(Now()), Now(), {p}, failed)
    {
      var ino := names[p];
      assert ino in setting.inodes;
      hide Valid, Passed, Clean, Settled;
      var st := setting.inodes[ino];
      failed := false;
      if !st.content.Regular? && !(setting.canLinkSymlink && st.content.Symlink?) {
        IneligibleStays(setting, Now(), p);
        return;
      }
      if st.content.Regular? && (st.writable || |st.content.data| == 0) {
        IneligibleStays(setting, Now(), p);
        return;
      }
      if LinkCount(ino) > 1 && ino in inodeHash {
        KnownStays(setting, Now(), p);
        return;
      }
      var h := setting.hash(st.content);
      failed := LinkToFarm(p, h);
    }

    /** The second half: the farm has or gets an entry for the hash. */
    method LinkToFarm(p: string, h: nat) returns (failed: bool)
      requires Valid(setting, Now()) && p in names && names[p] in setting.inodes
      requires setting.Eligible(setting.inodes[names[p]]) && h == setting.hash(Show(setting, Now(), p))
      modifies this
      ensures Valid(setting, Now()) && Passed(setting, old(Now()), Now(), {p}, failed)
    {
      ghost var before := Now();
      if h in farm && Size(setting.inodes[names[p]].content) != Size(setting.inodes[farm[h]].content) {
        EntryRemoved(setting, before, p, h);
        farm := farm - {h};
      }
      if h !in farm {
        failed := Enter(p, h);
      } else if names[p] == farm[h] {
        failed := false;
      } else {
        failed := Relink(p, h);
      }
    }

    /** Makes the file the canonical copy in the links directory. */
    method Enter(p: string, h: nat) returns (failed: bool)
      requires Valid(setting, Now()) && p in names && names[p] in setting.inodes && h !in farm
      requires setting.Eligible(setting.inodes[names[p]]) && h == setting.hash(Show(setting, Now(), p))
      modifies this`farm, this`inodeHash, this`excused
      ensures Valid(setting, Now()) && Passed(setting, old(Now()), Now(), {p}, failed)
      ensures failed <==> setting.fault(p).TooManyLinks? || setting.fault(p).Throws?
      ensures setting.fault(p).Works? ==> h in farm && farm[h] == names[p] && names[p] in inodeHash
    {
      var fault := setting.fault(p);
      if fault.Works? {
        Entered(setting, Now(), p, h);
      } else {
        FaultStays(setting, Now(), p, !fault.NoSpace?);
      }
      hide Passed, Settled, Detectable;
      failed := false;
      if fault.Works? {
        farm := farm[h := names[p]];
        inodeHash := inodeHash + {names[p]};
      } else if fault.NoSpace? {
        excused := excused + {p};
      } else {
        failed := true;
        assert excused + {} == excused;
      }
    }

    /** Replaces the file by a hard link to the farm's copy. */
    method Relink(p: string, h: nat) returns (failed: bool)
      requires Valid(setting, Now()) && p in names && names[p] in setting.inodes && h in farm
      requires setting.Eligible(setting.inodes[names[p]]) && h == setting.hash(Show(setting, Now(), p))
      requires Size(setting.inodes[names[p]].content) == Size(setting.inodes[farm[h]].content) && names[p] != farm[h]
      modifies this`names, this`filesLinked, this`bytesFreed, this`excused
      ensures Valid(setting, Now()) && Passed(setting, old(Now()), Now(), {p}, failed)
      ensures failed <==> setting.fault(p).NoSpace? || setting.fault(p).Throws?
    {
      var fault := setting.fault(p);
      if fault.Works? {
        Relinked(setting, Now(), p, h);
      } else {
        FaultStays(setting, Now(), p, !fault.TooManyLinks?);
      }
      hide Passed, Settled, Detectable;
      failed := false;
      if fault.Works? {
        filesLinked := filesLinked + 1;
        bytesFreed := bytesFreed + Size(setting.inodes[names[p]].content);
        names := names[p := farm[h]];
      } else if fault.TooManyLinks? {
        excused := excused + {p};
      } else {
        failed := true;
        assert excused + {} == excused;
      }
    }

    /** `optimisePath_`. Whatever fails, every path shows what it did. */
    method OptimisePath(t: Tree) returns (failed: bool)
      requires Valid(setting, Now()) && Paths(t) <= names.Keys
      modifies this
      ensures Valid(setting, Now()) && Passed(setting, old(Now()), Now(), Paths(t), failed)
      decreases t
    {
      match t
      case File(p) =>
        failed := OptimiseFile(p);
      case Directory(children) =>
        failed := OptimiseDirectory(t);
    }

    /** A directory: the children whose inode is no known farm inode. */
    method OptimiseDirectory(t: Tree) returns (failed: bool)
      requires Valid(setting, Now()) && t.Directory? && Paths(t) <= names.Keys
      modifies this
      ensures Valid(setting, Now()) && Passed(setting, old(Now()), Now(), Paths(t), failed)
      decreases t, 0
    {
      ghost var a := Now();
      var todo := ReadDirectoryIgnoringInodes(t.children);
      ghost var skipped := set c | c in t.children && c !in todo && c.File? :: c.path;
      SkippedStay(setting, a, skipped);
      DirectoryPaths(t, todo, skipped);
      assert Paths(Directory(todo[..0])) == {} && todo[..|todo|] == todo;
      hide Valid, Passed, Paths;
      failed := false;
      for k := 0 to |todo|
        invariant Valid(setting, Now()) && names.Keys == a.names.Keys && !failed
        invariant Passed(setting, a, Now(), skipped + Paths(Directory(todo[..k])), false)
      {
        ghost var b := Now();
        ghost var j :| 0 <= j < |t.children| && t.children[j] == todo[k];
        failed := OptimisePath(todo[k]);
        ChildPassed(setting, a, b, Now(), skipped, todo, k, Paths(t), failed);
        if failed { return; }
      }
    }

    /** The children in some order, but for known farm inodes. */
    method ReadDirectoryIgnoringInodes(children: seq<Tree>) returns (todo: seq<Tree>)
      requires Paths(Directory(children)) <= names.Keys
      ensures forall c | c in todo :: c in children
      ensures forall c | c in children && c !in todo :: c.File? && c.path in names && names[c.path] in inodeHash
    {
      todo := [];
      for k := 0 to |children|
        invariant forall c | c in todo :: c in children
        invariant forall c | c in children[..k] && c !in todo ::
                    c.File? && c.path in names && names[c.path] in inodeHash
      {
        var c := children[k];
        assert c.File? ==> c.path in Paths(c) && c.path in Paths(Directory(children));
        if !(c.File? && names[c.path] in inodeHash) {
          todo := todo + [c];
        }
      }
    }
  }

  lemma PathsGrow(todo: seq<Tree>, k: nat)
    requires k < |todo|
    ensures Paths(Directory(todo[..k + 1])) == Paths(Directory(todo[..k])) + Paths(todo[k])
  {
    assert todo[..k + 1] == todo[..k] + [todo[k]];
  }

  lemma ChildPassed(e: Setting, a: Store, b: Store, c: Store, skipped: set<string>, todo: seq<Tree>, k: nat,
                    all: set<string>, failed: bool)
    requires k < |todo| && skipped + Paths(Directory(todo[..k + 1])) <= all <= a.names.Keys
    requires Passed(e, a, b, skipped + Paths(Directory(todo[..k])), false) && Passed(e, b, c, Paths(todo[k]), failed)
    ensures c.names.Keys == a.names.Keys
    ensures Passed(e, a, c, if failed then all else skipped + Paths(Directory(todo[..k + 1])), failed)
  {
    PathsGrow(todo, k);
    assert skipped + Paths(Directory(todo[..k])) + Paths(todo[k]) == skipped + Paths(Directory(todo[..k + 1]));
    PassedAfterPassed(e, a, b, c, skipped + Paths(Directory(todo[..k])), Paths(todo[k]), failed);
    if failed {
      PassedMore(e, a, c, skipped + Paths(Directory(todo[..k + 1])), all);
    }
    hide Converges, Paths;
  }

  lemma SkippedStay(e: Setting, s: Store, ps: set<string>)
    requires forall p | p in ps :: p in s.names && s.names[p] in s.inodeHash
    ensures Passed(e, s, s, ps, false)
  {
    forall p | p in ps ensures Passed(e, s, s, {p}, false) {
      KnownStays(e, s, p);
    }
    assert forall p | p in ps && Passed(e, s, s, {p}, false) ::
        p in {p} ==> (Clean(e, s) ==> Settled(e, s, p) || p in s.excused);
  }

  lemma PassedMore(e: Setting, a: Store, b: Store, ps: set<string>, qs: set<string>)
    requires Passed(e, a, b, ps, true) && ps <= qs
    ensures Passed(e, a, b, qs, true)
  {
  }

  /** The paths of a directory are those of the children it visits and of the
      files it skips. */
  lemma DirectoryPaths(t: Tree, todo: seq<Tree>, skipped: set<string>)
    requires t.Directory? && skipped == set c | c in t.children && c !in todo && c.File? :: c.path
    requires forall c | c in todo :: c in t.children
    requires forall c | c in t.children && c !in todo :: c.File?
    ensures skipped + Paths(Directory(todo)) == Paths(t)
    ensures forall k | 0 <= k < |todo| :: Paths(todo[k]) <= Paths(t)
    ensures forall k | 0 <= k <= |todo| :: skipped + Paths(Directory(todo[..k])) <= Paths(t)
  {
    forall p | p in Paths(t) ensures p in skipped + Paths(Directory(todo)) {
      var c :| c in t.children && p in Paths(c);
    }
    forall p | p in skipped ensures p in Paths(t) {
      var c :| c in t.children && c !in todo && c.File? && c.path == p;
      assert p in Paths(c);
    }
    assert todo[..|todo|] == todo;
  }

  /** A second run, with the inodes of the farm loaded afresh, links nothing once
      a run over a clean farm has passed over no file. */
  method OptimiseTwice(o: Optimiser, t: Tree) returns (first: bool, ghost middle: Store, second: bool)
    requires Valid(o.setting, o.Now()) && Paths(t) <= o.names.Keys
    modifies o
    ensures Valid(o.setting, o.Now()) && SameMeaning(o.setting, old(o.Now()), o.Now())
    ensures (forall p | p in Paths(t) :: o.setting.fault(p).Works?) ==> !first && !second && middle.excused == {}
    ensures old(Clean(o.setting, o.Now().(inodeHash := {}))) && !first && middle.excused == {} ==>
              && (forall p | p in Paths(t) :: Settled(o.setting, middle, p))
              && o.names == middle.names && o.farm == middle.farm && o.filesLinked == middle.filesLinked
  {
    o.LoadInodeHash();
    ghost var loaded := o.Now();
    first := o.OptimisePath(t);
    middle := o.Now();
    o.LoadInodeHash();
    ghost var again := o.Now();
    second := o.OptimisePath(t);
  }

  // ---------------------------------------------------------------------
  // What a pass is for.

  /** After a pass over a clean farm in which linking worked, read-only regular
      files with the same content are one inode. */
  lemma SameContentOneInode(e: Setting, a: Store, b: Store, paths: set<string>, p: string, q: string, data: bytes,
                            executable: bool)
    requires Clean(e, a) && Passed(e, a, b, paths, false)
    requires {p, q} <= paths * a.names.Keys && p !in b.excused && q !in b.excused
    requires a.names[p] in e.inodes && e.inodes[a.names[p]] == Inode(Regular(data, executable), false)
    requires a.names[q] in e.inodes && e.inodes[a.names[q]] == Inode(Regular(data, executable), false) && data != []
    ensures b.names[p] == b.names[q]
  {
    assert Show(e, b, p) == Show(e, b, q) == Regular(data, executable);
    assert Settled(e, b, p) && Settled(e, b, q);
    assert b.names[p] in e.inodes && b.names[q] in e.inodes;
  }

  /** Files that can be written to, empty ones, and others that are neither
      regular nor links, stay on their inodes. */
  lemma OthersStay(e: Setting, a: Store, b: Store, paths: set<string>, failed: bool, p: string)
    requires Passed(e, a, b, paths, failed) && p in a.names && a.names[p] in e.inodes
    requires var i := e.inodes[a.names[p]];
             i.content.Special? || (i.content.Regular? && (i.writable || i.content.data == []))
             || (i.content.Symlink? && !e.canLinkSymlink)
    ensures b.names[p] == a.names[p]
  {
  }
}
