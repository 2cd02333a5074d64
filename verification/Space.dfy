/** The byte accounting of a collection: `_deletePath` in
    src/libutil/unix/file-system.cc guesses from link counts what an unlink
    frees, and the sweep of the links directory in src/libstore/gc.cc counts
    nothing. */
module Space {
  import opened Finite
  import L = LinkFarm

  /** The names of an inode in a directory of names. */
  function NamesOf<K>(m: map<K, nat>, i: nat): set<K> {
    set k | k in m && m[k] == i
  }

  function LinkCount(names: map<string, nat>, farm: map<nat, nat>, i: nat): nat {
    |NamesOf(names, i)| + |NamesOf(farm, i)|
  }

  ghost predicate Linked(names: map<string, nat>, farm: map<nat, nat>, i: nat) {
    LinkCount(names, farm, i) > 0
  }

  /** How often an inode with `farmed` farm names has been counted when it had
      `before` names in the store and has `now`: at link counts 1 and 2. */
  function Counted(before: nat, farmed: nat, now: nat): int {
    var most := if farmed <= 2 then 2 - farmed else 0;
    Min(before, most) - Min(now, most)
  }

  function Min(a: int, b: int): int {
    if a <= b then a else b
  }

  /** No inode outside the farm with two names or more loses all of them, or all
      but one, and no farm entry starts with link count 1. */
  ghost predicate Accountable(names0: map<string, nat>, farm0: map<nat, nat>, names: map<string, nat>) {
    && (forall i :: |NamesOf(farm0, i)| == 0 && |NamesOf(names0, i)| >= 2 ==> |NamesOf(names, i)| >= 2)
    && (forall h | h in farm0 :: LinkCount(names0, farm0, farm0[h]) != 1)
  }

  lemma NoNames<K>(m: map<K, nat>, i: nat)
    ensures |NamesOf(m, i)| == 0 <==> i !in m.Values
  {
    if i in m.Values {
      var k :| k in m && m[k] == i;
      assert k in NamesOf(m, i);
    } else {
      assert NamesOf(m, i) == {};
    }
  }

  lemma OneLess<K>(m: map<K, nat>, k: K, i: nat)
    requires k in m
    ensures |NamesOf(m - {k}, i)| == |NamesOf(m, i)| - if m[k] == i then 1 else 0
  {
    assert NamesOf(m - {k}, i) == if m[k] == i then NamesOf(m, i) - {k} else NamesOf(m, i);
  }

  class Disk {
    const size: nat -> nat
    var names: map<string, nat>
    var farm: map<nat, nat>
    var bytesFreed: nat
    ghost const names0: map<string, nat>
    ghost const farm0: map<nat, nat>
    ghost var counted: seq<nat>

    /** The bytes counted are the sizes of the inodes unlinked at link counts 1
        and 2, each as often as that happened. */
    ghost predicate Valid()
      reads this
    {
      && (forall p | p in names :: p in names0 && names[p] == names0[p])
      && CountedOnes(names0, farm0, names, counted)
      && bytesFreed == Total(size, counted)
    }

    constructor (names: map<string, nat>, farm: map<nat, nat>, size: nat -> nat)
      ensures Valid() && this.names == names == names0 && this.farm == farm == farm0 && this.size == size
    {
      this.names, names0, this.farm, farm0, this.size := names, names, farm, farm, size;
      bytesFreed, counted := 0, [];
    }

    /** `_deletePath` for anything but a directory. */
    method DeleteFile(p: string)
      requires Valid() && farm == farm0
      modifies this`names, this`bytesFreed, this`counted
      ensures Valid() && names == old(names) - {p}
    {
      if p !in names {
        assert names - {p} == names;
        return;
      }
      var i := names[p];
      var count := LinkCount(names, farm, i);
      CountedGrows(names0, farm0, names, counted, p);
      assert (counted + [i])[..|counted|] == counted;
      assert Total(size, counted + [i]) == Total(size, counted) + size(i);
      hide LinkCount, CountedOnes, Total;
      if count == 1 || count == 2 {
        bytesFreed := bytesFreed + size(i);
        counted := counted + [i];
      }
      names := names - {p};
    }

    /** `_deletePath`: depth first, the directory after its children. */
    method DeletePath(t: L.Tree)
      requires Valid() && farm == farm0
      modifies this`names, this`bytesFreed, this`counted
      ensures Valid() && names == old(names) - L.Paths(t)
      decreases t
    {
      match t
      case File(p) =>
        DeleteFile(p);
      case Directory(children) =>
        ghost var done: set<string> := {};
        for k := 0 to |children|
          invariant Valid() && names == old(names) - done
          invariant done == L.Paths(L.Directory(children[..k]))
        {
          DeletePath(children[k]);
          L.PathsGrow(children, k);
          done := done + L.Paths(children[k]);
        }
        assert children[..|children|] == children;
    }

    /** The link sweep: unlinks every farm entry whose link count is 1. */
    method SweepLinks()
      requires Valid() && farm == farm0
      modifies this`farm
      ensures Valid() && Swept(names, farm0, farm)
    {
      var todo := farm.Keys;
      while todo != {}
        invariant todo <= farm.Keys <= farm0.Keys
        invariant forall h | h in farm :: farm[h] == farm0[h]
        invariant forall h | h in farm0 && h !in todo :: h in farm <==> LinkCount(names, farm0, farm0[h]) != 1
        decreases todo
      {
        var h :| h in todo;
        todo := todo - {h};
        SameEntries(names, farm0, farm, h);
        if LinkCount(names, farm, farm[h]) == 1 {
          farm := farm - {h};
        }
      }
    }
  }

  ghost predicate CountedOnes(names0: map<string, nat>, farm0: map<nat, nat>, names: map<string, nat>,
                              counted: seq<nat>) {
    forall i: nat ::
      multiset(counted)[i] == Counted(|NamesOf(names0, i)|, |NamesOf(farm0, i)|, |NamesOf(names, i)|)
  }

  /** The entries left are those whose inode has another link. */
  ghost predicate Swept(names: map<string, nat>, farm0: map<nat, nat>, farm: map<nat, nat>) {
    && (forall h | h in farm :: h in farm0 && farm[h] == farm0[h])
    && (forall h | h in farm0 :: h in farm <==> LinkCount(names, farm0, farm0[h]) != 1)
  }

  lemma CountedGrows(names0: map<string, nat>, farm0: map<nat, nat>, names: map<string, nat>, counted: seq<nat>,
                     p: string)
    requires CountedOnes(names0, farm0, names, counted) && p in names
    requires forall q | q in names :: q in names0 && names[q] == names0[q]
    ensures CountedOnes(names0, farm0, names - {p},
              if LinkCount(names, farm0, names[p]) in {1, 2} then counted + [names[p]] else counted)
  {
    forall i: nat
      ensures var counted' := if LinkCount(names, farm0, names[p]) in {1, 2} then counted + [names[p]] else counted;
              multiset(counted')[i] == Counted(|NamesOf(names0, i)|, |NamesOf(farm0, i)|, |NamesOf(names - {p}, i)|)
    {
      OneLess(names, p, i);
      assert i == names[p] ==> p in NamesOf(names, i);
      SubsetSize(NamesOf(names, i), NamesOf(names0, i));
      hide NamesOf;
    }
  }

  /** An unlink is counted exactly when it removes the last name the inode has in
      the store, unless it leaves one name of an inode that is not in the farm,
      or the inode has two names or more in the farm. */
  lemma LastNameCounts(names: map<string, nat>, farm: map<nat, nat>, p: string)
    requires p in names
    ensures var i := names[p];
            (LinkCount(names, farm, i) in {1, 2} <==> i !in (names - {p}).Values) <==>
            && !(|NamesOf(names, i)| == 2 && |NamesOf(farm, i)| == 0)
            && !(|NamesOf(names, i)| == 1 && |NamesOf(farm, i)| >= 2)
  {
    OneLess(names, p, names[p]);
    NoNames(names - {p}, names[p]);
    assert p in NamesOf(names, names[p]);
    hide NamesOf;
  }

  /** An inode outside the farm that loses two names or more, and with them all,
      is counted twice. */
  lemma UnfarmedPairIsCountedTwice(d: Disk, i: nat)
    requires d.Valid() && i !in d.farm0.Values && |NamesOf(d.names0, i)| >= 2 && i !in d.names.Values
    ensures multiset(d.counted)[i] == 2
  {
    NoNames(d.farm0, i);
    NoNames(d.names, i);
  }

  /** When the sweep comes to an entry, the others of its inode are still there. */
  lemma SameEntries(names: map<string, nat>, farm0: map<nat, nat>, farm: map<nat, nat>, h: nat)
    requires h in farm && forall g | g in farm :: g in farm0 && farm[g] == farm0[g]
    requires forall g | g in farm0 && g !in farm :: LinkCount(names, farm0, farm0[g]) == 1
    ensures NamesOf(farm, farm[h]) == NamesOf(farm0, farm[h])
  {
    forall g | g in farm0 && farm0[g] == farm[h] ensures g in farm {
      SubsetSize({g, h}, NamesOf(farm0, farm[h]));
    }
  }

  /** An inode loses its last link when it has no store name left and at most one
      name in the farm. */
  lemma Unlinked(names0: map<string, nat>, farm0: map<nat, nat>, names: map<string, nat>, farm: map<nat, nat>, i: nat)
    requires Swept(names, farm0, farm)
    ensures Linked(names0, farm0, i) && !Linked(names, farm, i) <==>
            && |NamesOf(names, i)| == 0
            && (|NamesOf(farm0, i)| == 1 || (|NamesOf(farm0, i)| == 0 && |NamesOf(names0, i)| >= 1))
  {
    NoNames(farm, i);
    NoNames(farm0, i);
    SubsetSize(NamesOf(farm, i), NamesOf(farm0, i));
    if i in farm0.Values {
      var h :| h in farm0 && farm0[h] == i;
      assert h in farm <==> LinkCount(names, farm0, i) != 1;
      forall g | g in farm0 && farm0[g] == i ensures g in farm <==> h in farm {
        assert g in farm <==> LinkCount(names, farm0, i) != 1;
      }
      assert NamesOf(farm, i) == if h in farm then NamesOf(farm0, i) else {};
    }
  }

  /** Exactly when each inode is counted once if it goes and never otherwise. */
  lemma CountedIsGone(names0: map<string, nat>, farm0: map<nat, nat>, names: map<string, nat>, farm: map<nat, nat>,
                      counted: seq<nat>, gone: seq<nat>)
    requires CountedOnes(names0, farm0, names, counted) && Swept(names, farm0, farm) && Distinct(gone)
    requires forall i :: i in gone <==> Linked(names0, farm0, i) && !Linked(names, farm, i)
    requires forall p | p in names :: p in names0 && names[p] == names0[p]
    ensures SameCounts(counted, gone) <==> Accountable(names0, farm0, names)
  {
    forall i: nat
      ensures multiset(counted)[i] == multiset(gone)[i] <==>
              (|NamesOf(farm0, i)| == 0 && |NamesOf(names0, i)| >= 2 ==> |NamesOf(names, i)| >= 2)
              && !(|NamesOf(farm0, i)| == 1 && |NamesOf(names0, i)| == 0)
    {
      Unlinked(names0, farm0, names, farm, i);
      DistinctCounts(gone, i);
      SubsetSize(NamesOf(names, i), NamesOf(names0, i));
      hide Linked, Swept, NamesOf;
    }
    forall i: nat
      ensures |NamesOf(farm0, i)| == 1 && |NamesOf(names0, i)| == 0 <==>
              i in farm0.Values && LinkCount(names0, farm0, i) == 1
    {
      NoNames(farm0, i);
    }
    hide CountedOnes, Swept, Linked, LinkCount, NamesOf;
    assert forall i: nat | i in farm0.Values :: exists h :: h in farm0 && farm0[h] == i;
    assert forall h | h in farm0 :: farm0[h] in farm0.Values;
  }

  /** Equal multiplicities are what makes the two totals agree whatever the sizes
      of the files. */
  lemma TotalsAgree(counted: seq<nat>, gone: seq<nat>)
    ensures SameCounts(counted, gone) <==>
            forall size: nat -> nat :: Total(size, counted) == Total(size, gone)
  {
    if SameCounts(counted, gone) {
      forall size: nat -> nat ensures Total(size, counted) == Total(size, gone) {
        TotalOfSameCounts(size, counted, gone);
      }
    } else {
      var i: nat :| multiset(counted)[i] != multiset(gone)[i];
      TotalOfOne(counted, i);
      TotalOfOne(gone, i);
      assert Total(Indicator(i), counted) != Total(Indicator(i), gone);
    }
  }

  /** Conservation: after the deletions and the sweep the bytes counted are the
      total size of the inodes that had a link before and have none now, for
      files of all sizes, exactly when the store is accountable. */
  lemma BytesFreedAreBytesGone(d: Disk) returns (gone: seq<nat>)
    requires d.Valid() && Swept(d.names, d.farm0, d.farm)
    ensures Distinct(gone) && forall i :: i in gone <==> Linked(d.names0, d.farm0, i) && !Linked(d.names, d.farm, i)
    ensures (forall size: nat -> nat :: Total(size, d.counted) == Total(size, gone)) <==>
            Accountable(d.names0, d.farm0, d.names)
    ensures Accountable(d.names0, d.farm0, d.names) ==> d.bytesFreed == Total(d.size, gone)
  {
    var linked := d.names0.Values + d.farm0.Values;
    gone := Listed(set i | i in linked && !Linked(d.names, d.farm, i));
    forall i ensures i in gone <==> Linked(d.names0, d.farm0, i) && !Linked(d.names, d.farm, i) {
      NoNames(d.names0, i);
      NoNames(d.farm0, i);
      assert i in gone <==> i in Elements(gone);
    }
    CountedIsGone(d.names0, d.farm0, d.names, d.farm, d.counted, gone);
    TotalsAgree(d.counted, gone);
  }

  /** Deduplication makes the accounting exact: when a pass has settled every
      multiply linked file and the farm holds no left-over entry, the store is
      accountable whatever is deleted. */
  lemma SettledStoreIsAccountable(e: L.Setting, s: L.Store, names: map<string, nat>)
    requires L.Valid(e, s) && L.Clean(e, s)
    requires forall p | p in s.names ::
               LinkCount(s.names, s.farm, s.names[p]) == 1 || (e.Eligible(e.inodes[s.names[p]]) && L.Settled(e, s, p))
    requires forall h | h in s.farm :: s.farm[h] in s.names.Values
    ensures Accountable(s.names, s.farm, names)
  {
    forall i: nat ensures LinkCount(s.names, s.farm, i) > 1 ==> |NamesOf(s.farm, i)| == 1 {
      OneEntryPerInode(e, s, i);
      NoNames(s.names, i);
      NoNames(s.farm, i);
      if i in s.names.Values {
        var p :| p in s.names && s.names[p] == i;
        assert L.Settled(e, s, p) || LinkCount(s.names, s.farm, i) == 1;
      }
    }
    forall h | h in s.farm ensures LinkCount(s.names, s.farm, s.farm[h]) != 1 {
      NoNames(s.names, s.farm[h]);
      NoNames(s.farm, s.farm[h]);
    }
  }

  /** In a clean farm an inode's entries all have the name of its hash. */
  lemma OneEntryPerInode(e: L.Setting, s: L.Store, i: nat)
    requires L.Valid(e, s) && L.Clean(e, s)
    ensures |NamesOf(s.farm, i)| <= 1
  {
    if i in e.inodes {
      SubsetSize(NamesOf(s.farm, i), {e.hash(e.inodes[i].content)});
    } else {
      assert NamesOf(s.farm, i) == {};
    }
  }

  /** The collector's use of the three: deletions, then the sweep. */
  method Collect(names: map<string, nat>, farm: map<nat, nat>, size: nat -> nat, garbage: seq<L.Tree>)
      returns (d: Disk, ghost gone: seq<nat>)
    ensures d.names == names - L.Paths(L.Directory(garbage)) && Swept(d.names, farm, d.farm)
    ensures Distinct(gone) && forall i :: i in gone <==> Linked(names, farm, i) && !Linked(d.names, d.farm, i)
    ensures d.bytesFreed == Total(size, d.counted)
    ensures (forall size: nat -> nat :: Total(size, d.counted) == Total(size, gone)) <==>
            Accountable(names, farm, d.names)
    ensures Accountable(names, farm, d.names) ==> d.bytesFreed == Total(size, gone)
  {
    d := new Disk(names, farm, size);
    d.DeletePath(L.Directory(garbage));
    d.SweepLinks();
    gone := BytesFreedAreBytesGone(d);
  }
}
