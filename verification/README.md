# A verified model of the local Nix store

Dafny models of the parts of the local store whose correctness is not visible
from one function: the garbage collector and its temporary-root protocol,
hashing modulo self-references, the NAR codec with the hashing tap on it, the
closure stream of export and import, deduplication by hard links with its byte
accounting, lock files that are deleted, and a handful of algorithms whose fast
form differs from their specification. `dafny verify dfyconfig.toml` checks the
whole project.

Code that changes state step by step is modelled as classes and methods proved
against specification functions; concurrent code is modelled as steps, with
theorems about every run; pure code as functions with lemmas.

| area | modules |
|---|---|
| hashing modulo self-references | `Rewriting`, `HashModulo`, `SelfReferences` |
| streams and archives | `Serialise`, `Streams`, `Nar`, `NarProperties`, `Archive` |
| hashing tap | `FileHasher`, `BoundedQueue`, `AsyncHashing` |
| sums, runs and graphs | `Finite`, `Runs`, `Reachability`, `TopoSort`, `WorkList` |
| the database | `StoreDb` |
| garbage collection | `Collector`, `GcProtocol`, `TempRootFiles` |
| locks | `LockFiles` |
| hard links and space | `LinkFarm`, `LinkFarmRaces`, `Space` |
| export and import | `ExportImport`, `Closures` |
| other algorithms | `ThreadPool`, `CanonPath`, `Canonicalise`, `Nix32` |

## How the parts are modelled

- The database is a map from valid paths to their references, changed by
  transactions that commit or leave it as it is.
- Hash functions are abstract. Where only the hash input matters, theorems are
  about the input; deduplication takes a collision-free hash as a condition.
- A run of a protocol is a sequence of labelled steps; theorems hold for every
  sequence, any number of processes and any paths. Locks, sockets and waiting
  are guards of steps.
- The number of processes, items, paths and inodes is not bounded anywhere.
- `printStorePath` and `parseStorePath` are a pair of functions of which only
  the round trip is used.

## Where code and documentation disagree

The model follows the code; each point is a lemma or a condition below.

- The comment above the hash modulo self-references (references.cc:74-77) asks
  for a proof. `SelfReferences.PreImageInjective` is one; it needs no condition
  on the modulus, but it does need contents of equal length or ending in NUL.
  `SelfReferences.CollidesIff` says which contents collide otherwise.
- A lock file that cannot be unlinked is said not to matter (pathlocks.cc:33-35);
  the token is written all the same and the path can no longer be locked
  (`LockFiles.FailedUnlinkSticks`, `LockFiles.StuckForGood`).
- A waiter is said to learn from the token that its file was deleted
  (pathlocks.cc:28-31). A process that dies before it writes the token, also
  because the write has failed, lets two processes lock the path
  (`LockFiles.HarmfulDeathIsUnsafe`).
- The collector is said not to delete a temporary-roots file once it is locked
  (gc.cc:108-110). A second scanner, or one scanner and a reused process number,
  can (`TempRootFiles.HarmIsUnsafe`).
- A root is in a client's own file only after the acknowledgement (gc.cc:186-188).
  A collection that starts in between can delete the path
  (`GcProtocol.OvertakenRootIsLost`).
- The count of freed bytes is said to be too high at worst for files with exactly
  two links (file-system.cc:162-168); `Space.CountedIsGone` is the exact condition.
- Path separators are said to sort before any other character
  (canon-path.hh:257-262). Where `char` is signed, bytes above 127 sort before
  them, and `isAllowed` misses a parent (`CanonPath.ShadowedParent`).
- A collection that only reports dead or live paths still deletes entries of the
  store directory that are no store paths (gc.cc:836-839).
- `computeClosure` never calls its handler when there are start elements and all
  of them are in the result already (closure.hh:138-153).
- Cycles are looked for among the references of one request only
  (local-store.cc:810-833); a request for a path that is valid already can close
  one, exactly as `StoreDb.RegisterKeepsAcyclicIff` says.

## Model

| member | source | states |
|---|---|---|
| `Rewriting.MatchesAscend` | src/libutil/util.cc:85-99 | The positions a pass reports ascend strictly, lie at or after its start, and leave room for the pattern |
| `Rewriting.RewriteMeaning` | src/libutil/util.cc:85-99 | When pattern and replacement share no byte: every reported position is an occurrence in the original string, and a byte changes exactly when a reported match covers it |
| `Rewriting.RewriteLeavesNone` | src/libutil/util.cc:85-99 | In that case no occurrence of the pattern survives the pass |
| `Rewriting.RewriteInjective` | src/libutil/util.cc:85-99 | For any pattern and equally long replacement, the rewritten bytes together with the positions determine the original string |
| `Rewriting.RewriteResume` | src/libstore/references.cc:30-47 | A pass over a longer string does what a pass over a prefix did, then goes on from the last bytes of its output, one fewer than the pattern has |
| `Rewriting.ChunkStep` | src/libstore/references.cc:30-47 | One call with the carried bytes and a new chunk gives the bytes and positions of the whole pass over old and new input |
| `HashModulo.RewriteStrings` | src/libutil/util.cc:85-99 | The in-place search loop terminates though it does not advance after a replacement; its string and position set are those of the one-pass specification, shifted by the offset |
| `HashModulo.LoopStep` | src/libutil/util.cc:85-99 | Replacing at the position found leaves the rest of the specification to do, and the part already searched holds no occurrence |
| `HashModulo.RewritingSink.Write` | src/libstore/references.cc:30-47 | However the input is split into chunks: bytes passed on plus carried bytes, the match set and the position are those of one pass over everything received |
| `HashModulo.RewritingSink.Flush` | src/libstore/references.cc:49-56 | After the flush everything has been passed on, the position is the total length and nothing is carried |
| `HashModulo.WriteStep` | src/libstore/references.cc:30-47 | The chunk law the sink relies on, stated for bytes and for match sets |
| `SelfReferences.HashModuloSink.Finish` | src/libstore/references.cc:58-83 | The hash has seen the content with its self-references zeroed, then a trailer; read back, the trailer gives ascending positions, each that of a self-reference, and a byte of the first part differs from the content exactly where one covers it; the digested size is the length of the content |
| `SelfReferences.PreImageReports` | src/libstore/references.cc:58-83 | The same for the hash input as a function of the content, and that no self-reference is left in the first part |
| `SelfReferences.PositionsOfTrailer` | src/libstore/references.cc:77-80 | Reading the trailer back gives the list it was written for |
| `SelfReferences.DecimalRoundTrip` | src/libstore/references.cc:77-80 | The decimal spelling of a position can be read back and contains neither a bar nor a NUL |
| `SelfReferences.TrailerInjective` | src/libstore/references.cc:72-80 | Position lists with equal trailers are equal |
| `SelfReferences.ZeroingKeepsFinalNul` | src/libstore/references.cc:58-63 | Zeroing self-references keeps a final NUL a NUL |
| `SelfReferences.PreImageInjective` | src/libstore/references.cc:58-83 | The proof the FIXME asks for: contents of equal length, or both ending in NUL, with equal hash input are equal; it needs no condition on the modulus |
| `SelfReferences.SpellingCollides` | src/libstore/references.cc:74-80 | Every content with a self-reference has the hash input of a longer content, the one that spells it out, whenever the modulus does not occur in the spelling |
| `SelfReferences.PreImageHasNone` | src/libstore/references.cc:58-83 | For a modulus without NUL and bar that is not all digits, the modulus never occurs in the hash input |
| `SelfReferences.CollidesIff` | src/libstore/references.cc:74-80 | For such a modulus, exactly when a content shares its hash input with another one: it has a self-reference, or it ends in the trailer of positions that zeroing another content gives |
| `Serialise.ReadNumIffEncoded` | src/libutil/include/nix/util/serialise.hh:598-609 | A number is read with a given rest exactly from its 64-bit little-endian encoding followed by that rest |
| `Serialise.ReadStringIffEncoded` | src/libutil/serialise.cc:519-595 | A string is read exactly from its length, bytes and zero padding, within the bound; non-zero padding is refused |
| `Serialise.EncodeStringInjective` | src/libutil/serialise.cc:519-524 | Encoded strings determine the string and what follows |
| `Serialise.LittleEndianDigit` | src/libutil/include/nix/util/serialise.hh:598-609 | The byte at each place of a number is the digit of that weight |
| `Streams.Sink.WriteString` | src/libutil/serialise.cc:510-524 | Length, bytes and padding are appended |
| `Streams.Source.ReadExact` | src/libutil/serialise.cc:121-128 | The loop over short reads delivers exactly the bytes asked for or fails at end of file |
| `Streams.Source.GetString` | src/libutil/serialise.cc:565-595 | Agrees with the reader specification, errors included |
| `Streams.Source.Skip` | src/libutil/serialise.cc:169-177 | Skipping in bounded pieces consumes exactly the length, or fails when the input is shorter |
| `Nar.ParsedNodeIsDump` | src/libutil/archive.cc:192-308 | Whatever the parser accepts is the dump of the parsed tree followed by the unread rest, and that tree is well formed |
| `Nar.DumpedNodeParses` | src/libutil/archive.cc:192-308 | The dump of every well-formed tree is accepted and gives the tree back |
| `Nar.ParseDumpIff` | src/libutil/archive.cc:310-322 | Exact inverse: an input parses to a tree and a rest if and only if the tree is well formed and the input is its dump followed by the rest |
| `Nar.DumpPrefixFree` | src/libutil/archive.cc:40-133 | The dump is injective and prefix-free |
| `Nar.EmptyFileArchive` | src/libutil/archive.cc:40-133 | The smallest archive with an executable file, byte by byte |
| `Nar.LinkInDirectoryArchive` | src/libutil/archive.cc:40-133 | So is the archive of a directory with a link in it |
| `Nar.LessIff` | src/libutil/archive.cc:260-270 | Names are in the order of the first byte in which they differ, a name before its extensions |
| `Nar.LessAfterCommonPart` | src/libutil/archive.cc:260-270 | After a common part the smaller byte decides, then what follows |
| `Nar.LessTotal` | src/libutil/archive.cc:260-270 | Of two different names one is less |
| `NarProperties.NodeSkip` | src/libutil/archive.cc:161-182 | When a full parse accepts, skip mode consumes the same bytes, unless a file is so large that rounding its size up to eight overflows |
| `NarProperties.SkipConsumesDump` | src/libutil/fs-sink.cc:368-383 | On a dump, skip mode stops exactly at its end |
| `NarProperties.NodeSkipIff` | src/libutil/archive.cc:161-182 | Exactly when skip mode accepts what a full parse accepts: the padding of every file along the parse is zero and no rounded size overflows |
| `NarProperties.SkipIff` | src/libutil/archive.cc:310-322 | The same for whole archives, and then both modes stop at the same byte |
| `NarProperties.SkipAcceptsNonZeroPadding` | src/libutil/archive.cc:161-182 | Skip mode does accept a file with non-zero padding, which a full parse refuses |
| `NarProperties.DumpEndsInNul` | src/libutil/archive.cc:40-133 | Every dump ends in a NUL byte |
| `NarProperties.SelfReferencesDoNotCollide` | src/libstore/references.cc:74-77 | Two trees whose archives give the same hash input modulo self-references are the same tree |
| `Archive.Dumper.DumpTree` | src/libutil/archive.cc:55-133 | The recursive printer writes the dump of the tree, and fails exactly when some node lies deeper than 64 |
| `Archive.DumpPath` | src/libutil/archive.cc:40-133 | Version string and dump, or failure for a tree that is too deep |
| `Archive.Parser.Contents` | src/libutil/archive.cc:161-182 | Contents reach the sink unchanged whatever pieces they are drained in; size and padding are checked as specified |
| `Archive.Parser.Listing` | src/libutil/archive.cc:244-293 | The entry loop accepts exactly the sorted, valid listings of the specification and restores them |
| `Archive.Parser.Parse` | src/libutil/archive.cc:192-308 | Accepts what the specification accepts; the sink receives the tree under its path |
| `Archive.ParseDumpInto` | src/libutil/archive.cc:310-322 | The restored objects are the tree of the archive and the captured hashes those of its files |
| `FileHasher.FileDigestIsDump` | src/libstore/local-store.cc:1104-1135 | The framing the hasher feeds for one file is the archive of that file alone |
| `FileHasher.RestoreAgrees` | src/libstore/local-store.cc:1342-1380 | Restoring a subtree keeps captured hashes and restored files in agreement |
| `FileHasher.RestoreIsTree` | src/libutil/archive.cc:192-308 | Restoring a tree makes exactly the objects met by walking down it, with their contents, execute bits and targets |
| `FileHasher.RestoredPathsStayInside` | src/libutil/archive.cc:258-270 | Whatever an archive says, no restored path leaves the tree: no empty, dot or dot-dot step, no separator or NUL in a name, fewer than 64 steps |
| `FileHasher.ArchiveLimits` | src/libutil/archive.cc:192-308 | Exactly which names, targets and depths an archive can hold |
| `FileHasher.CapturedHashesAgree` | src/libstore/local-store.cc:1064-1303 | The captured map has exactly the regular files as keys, and each value is the hash input of re-hashing that file |
| `Archive.FileHashingSink.EndFile` | src/libstore/local-store.cc:1342-1380 | Ends a file: its object and its hash are recorded under its path and nothing else changes |
| `BoundedQueue.FinishedInOrder` | src/libstore/local-store.cc:1173-1293 | Under every interleaving, a finish without failure means that the worker applied every item once and in order |
| `BoundedQueue.NeverStuck` | src/libstore/local-store.cc:1173-1293 | No deadlock, also after the worker has failed: a step is always enabled, and a full queue always has a worker that can move |
| `BoundedQueue.RunsAreBounded` | src/libstore/local-store.cc:1173-1293 | Every run ends after at most 4n + 3 steps for n items |
| `AsyncHashing.ThreadedEqualsInline` | src/libstore/local-store.cc:1222-1293 | The map computed by the worker thread equals the one computed inline |
| `AsyncHashing.RestoreCapturingHashes` | src/libstore/local-store.cc:1385-1420 | A whole import with a hashing thread: for every interleaving the map agrees with re-hashing what was restored |
| `AsyncHashing.AsyncHashSinkHashesStream` | src/libstore/local-store.cc:972-1055 | The store-path digest computed on another thread is that of the stream |
| `Reachability.AvoidingClosed` | src/libutil/include/nix/util/closure.hh:138-153 | Starting from a closed set, what the search adds without passing through it is all that is reachable |
| `Reachability.ClosedKeeps` | src/libstore/misc.cc:9-47 | A path of references never leaves a closed set |
| `Reachability.UpClosedKeeps` | src/libstore/gc.cc:599-603 | What reaches an element of a set closed under referrers is in the set |
| `TopoSort.Sorter.DfsVisit` | src/libutil/include/nix/util/topo-sort.hh:27-56 | Finished items stay in post-order; a reported cycle is one |
| `TopoSort.Sort` | src/libutil/include/nix/util/topo-sort.hh:20-68 | A sorted result exactly when the items have no cycle, self-references aside; it holds every item once, referrers before references; the reported pair is an edge |
| `TopoSort.ReversedIsTopological` | src/libutil/include/nix/util/topo-sort.hh:58-65 | Reversing the post-order puts every referrer before its references |
| `TopoSort.TopologicalIsAcyclic` | src/libutil/include/nix/util/topo-sort.hh:20-68 | An ordered set has no cycle |
| `WorkList.State.Enqueue` | src/libutil/include/nix/util/closure.hh:138-153 | A new element enters the result and is counted and placed once: a coroutine starts for it exactly below the limit, else it waits; after an error nothing changes |
| `WorkList.State.OnWorkDone` | src/libutil/include/nix/util/closure.hh:115-136 | `pending` keeps counting exactly the unfinished elements and `inFlight` the coroutines; remaining work is discarded after an error; completion fires when nothing is left |
| `WorkList.State.Resume` | src/libutil/include/nix/util/closure.hh:97-113 | A coroutine that gets its edges, or an error, keeps the invariant |
| `WorkList.ExploredAll` | src/libutil/include/nix/util/closure.hh:79-153 | When no handler is left the result is exactly what the search can find |
| `WorkList.Run` | src/libutil/include/nix/util/closure.hh:29-184 | For every schedule: the result is its start value united with everything reachable, an error is reported iff some reachable element has no edges to query, and the handler is called at most once; it is called iff there is nothing to start with or something new to start with |
| `StoreDb.Database.RegisterValidPaths` | src/libstore/local-store.cc:784-836 | Commits the merged table exactly when every reference is valid afterwards and the new references have no cycle; otherwise nothing changes |
| `StoreDb.Database.InvalidatePathChecked` | src/libstore/local-store.cc:1647-1668 | Refused exactly when another path refers to it; otherwise only that path is gone |
| `StoreDb.RegisterKeepsRefClosed` | src/libstore/local-store.cc:784-836 | Registration keeps every reference of a valid path valid |
| `StoreDb.InvalidateKeepsRefClosed` | src/libstore/local-store.cc:1647-1668 | So does invalidation of a path nothing else refers to |
| `StoreDb.RegisterKeepsAcyclicIff` | src/libstore/local-store.cc:795-833 | For every request with valid references: the merged table has no cycle exactly when no path of the request leads back to itself over references in the request and what those are or reach in the old table |
| `StoreDb.RegisterAgainKeepsAcyclic` | src/libstore/local-store.cc:795-833 | Registering one path again keeps the table acyclic exactly when none of its references, itself aside, reaches it in the old table |
| `StoreDb.RegisterKeepsAcyclic` | src/libstore/local-store.cc:810-833 | When no path that is valid already brings a new reference, sorting the request alone decides: all valid paths stay acyclic exactly when the request is |
| `StoreDb.RegisteringAgainCanCloseACycle` | src/libstore/local-store.cc:795-833 | In general it does not: a request that is committed and closes a cycle |
| `Collector.StoreDirectory.DeleteFromStore` | src/libstore/gc.cc:565-596 | Entry and byte count change together: the bytes freed are always the sizes of the entries gone; locked temporary directories are left |
| `Collector.Context.GarbageIsNotLive` | src/libstore/gc.cc:599-603 | A set closed under referrers and free of roots contains nothing a root reaches |
| `Collector.Context.GarbageLeavesRefClosed` | src/libstore/gc.cc:592-595 | Removing such a set keeps the table reference-closed |
| `Collector.Collection.MarkAlive` | src/libstore/gc.cc:621-646 | Only live paths are marked; for a valid root all it reaches is marked |
| `Collector.Collection.Visit` | src/libstore/gc.cc:650-731 | One round of the search keeps its invariant, or bails out for a path that is alive or may not be touched |
| `Collector.Collection.Search` | src/libstore/gc.cc:648-731 | Finds everything that reaches the start, all of it deletable, or shows that the start is alive or reached by a path that may not be touched |
| `Collector.PrefixIsGarbage` | src/libstore/gc.cc:732-772 | In topological order every other referrer of a path is dead before the path: each prefix of the deletions is garbage |
| `Collector.Collection.DeletePath` | src/libstore/gc.cc:733-772 | The in-use error is never raised and the second look at the temporary roots finds nothing; table, directory, cache and results change together; the limit is reported exactly when it is exceeded |
| `Collector.Collection.DeleteAll` | src/libstore/gc.cc:732-772 | Deletes exactly what was visited, or stops with the invariant intact right after the deletion that exceeded the byte limit |
| `Collector.Collection.MaybeDeleteReferrersClosure` | src/libstore/gc.cc:604-773 | The start dies exactly when no root reaches it and all that reaches it may be deleted; everything that died reaches the start |
| `Collector.Collection.CollectEntry` | src/libstore/gc.cc:829-839 | A store path of the directory ends in exactly one of alive and dead; any other entry is deleted whatever the action |
| `Collector.Collection.CollectWholeStore` | src/libstore/gc.cc:805-840 | For every readdir order: each store path of the directory is dead iff no root reaches it, else alive |
| `Collector.Collection.CollectSpecificPaths` | src/libstore/gc.cc:774-804 | Each specified path is dead iff deletable; `gcDeleteSpecific` succeeds only if all are; nothing dies that does not reach a specified path |
| `Collector.Collection.CollectTarget` | src/libstore/gc.cc:774-844 | What has been done however it ends: which paths are dead or alive, which other entries are left, and why it failed |
| `Collector.CollectGarbage` | src/libstore/gc.cc:384-856 | The whole call: exactness, results, reference-closed table however it ends, no cycle error for an acyclic table; it stops exactly when the byte limit is exceeded, and then the last removal was the one that exceeded it |
| `Collector.LivePartLeft` | src/libstore/gc.cc:805-840 | After a complete deletion the table is its live part, with references closed |
| `GcProtocol.AcknowledgedIsKept` | src/libstore/gc.cc:496-524 | After the acknowledgement of a root the run neither is deleting nor ever starts to delete a path with its hash part, for any clients and interleaving, even if the client dies |
| `GcProtocol.RootInFileIsKept` | src/libstore/gc.cc:193-243 | The same for a root that was in a living client's file when the run took the exclusive lock, while the client lives; from the reading of its file on unconditionally |
| `GcProtocol.CoherentKept` | src/libstore/gc.cc:441-530 | Every step keeps: `pending` announces the deletion under way, a shared lock excludes a run, and roots are inserted before they are acknowledged |
| `GcProtocol.SafeKept` | src/libstore/local-store.cc:852-957 | Every step of clients and collectors keeps the safety invariant, except a collection that starts while a living client has its acknowledgement and has not written its file |
| `GcProtocol.ValidPathsAreComplete` | src/libstore/local-store.cc:852-957 | Composed safety: in every interleaving of any number of collections and adders in which no collection overtakes a client in that way, every valid path has its complete tree and valid references |
| `GcProtocol.RootedPathStaysValid` | src/libstore/gc.cc:114-189 | What a temporary root is for: a valid path a living client has rooted stays valid through any number of such collections |
| `GcProtocol.RegisterRecords` | src/libstore/local-store.cc:795-813 | Registration records the references it is given beside those the path may have had; other paths, trees and the run are as before |
| `GcProtocol.RegisteredReferencesAreKept` | src/libstore/local-store.cc:784-836 | From then on, as long as the path stays valid, it has those references, and they are valid with complete trees, through any number of collections that overtake nobody |
| `GcProtocol.AddedIsKept` | src/libstore/local-store.cc:852-957 | What addToStore promises: as long as the client lives the path stays valid with its references, and all their trees are complete |
| `GcProtocol.FinishedIsValid` | src/libstore/local-store.cc:878-957 | A client is done with a path only when it is valid, unless it gives up or dies |
| `GcProtocol.RootsDuringRun` | src/libstore/gc.cc:140-189 | A client gets its root from the server without waiting for the end of the collection |
| `GcProtocol.RootsAlone` | src/libstore/gc.cc:126-138 | Without a collection it gets it under the shared lock |
| `GcProtocol.AsksAgain` | src/libstore/gc.cc:150-180 | When the server goes away it asks again |
| `GcProtocol.MayBegin` | src/libstore/gc.cc:114-126 | A living client asks for a root exactly when it has nothing else to do |
| `GcProtocol.CanAdd` | src/libstore/local-store.cc:878-957 | With its root and the path lock free, a client can make the path valid on its own, with tree and references if it was not valid before |
| `GcProtocol.MayStop` | src/libstore/local-store.cc:878-957 | Restoring can leave anything in place of the tree; a valid path needs no work; giving up leaves the store alone |
| `GcProtocol.FreshRun` | src/libstore/gc.cc:405-445 | A new collection knows no root; until its server is up it cannot be asked and picks nothing |
| `GcProtocol.Picks` | src/libstore/gc.cc:686-699 | It may pick exactly what is no root, and while it looks at a path no root for it is acknowledged |
| `GcProtocol.DeletionReleases` | src/libstore/gc.cc:748-771 | When a deletion is over or refused nobody has to wait any longer |
| `GcProtocol.OneCollectionIsPrompt` | src/libstore/gc.cc:114-189 | A run with at most one collection overtakes nobody |
| `GcProtocol.OvertakenRootIsLost` | src/libstore/gc.cc:186-188 | The other half: from every coherent state, a collection that overtakes a client whose path is not valid, or used by itself only, has a course that ends with the path valid, in the living client's file, and not on disk |
| `GcProtocol.TwoRunsAreNotSafe` | src/libstore/gc.cc:114-189 | Such a state is reached, in a run from an empty store |
| `LockFiles.SoundKept` | src/libstore/unix/pathlocks.cc:71-144 | Every step, deaths included, keeps: a descriptor not given up is its path's flocked file and not marked |
| `LockFiles.LiveOkKept` | src/libstore/unix/pathlocks.cc:71-144 | Every step but a harmful death keeps: a path has at most one live file, one that can still come to be held, and no other unmarked file stands under its name |
| `LockFiles.MutualExclusion` | src/libstore/unix/pathlocks.cc:26-144 | In every interleaving at most one process holds the lock of a path, provided none dies between unlinking and marking while another waits for that file, with the path free to be locked under its name or another live file about |
| `LockFiles.HarmfulDeathIsUnsafe` | src/libstore/unix/pathlocks.cc:26-36 | That proviso is exact: after such a death, from every state, some continuation has two holders of the path |
| `LockFiles.DyingBeforeMarkingIsUnsafe` | src/libstore/unix/pathlocks.cc:26-36 | And such a death is reached, in a run from nothing |
| `LockFiles.NoCyclicWait` | src/libstore/unix/pathlocks.cc:78-127 | Acquiring in sorted order admits no cycle of waiting processes, whoever dies when |
| `LockFiles.OnlyDeletersDelete` | src/libstore/unix/pathlocks.cc:131-144 | Only a process told to delete its lock files removes a link or marks a file |
| `LockFiles.NothingIsDeletedUnasked` | src/libstore/unix/pathlocks.cc:131-144 | As long as no caller asks for it, every lock file stays where it is and none becomes stale |
| `LockFiles.HolderReleases` | src/libstore/unix/pathlocks.cc:131-144 | A holder has a course of its own that frees all its files; not told to delete, it leaves them where they are |
| `LockFiles.MayBeTold` | src/libstore/unix/pathlocks.cc:131-144 | A holder may be told to delete or not, until it unlocks, and does as told |
| `LockFiles.LocksAll` | src/libstore/unix/pathlocks.cc:71-129 | A process that nobody hinders gets all its locks on its own |
| `LockFiles.WaitersPersist` | src/libstore/unix/pathlocks.cc:93-101 | A process that waits does not come back without all its locks |
| `LockFiles.NeverBlocks` | src/libstore/unix/pathlocks.cc:93-105 | One that does not wait gives up exactly when another has the file, and releases what it has |
| `LockFiles.BlockedByMarking` | src/libstore/unix/pathlocks.cc:26-36 | Exactly the marking of a file that is still linked, after an unlink that failed, leaves a stale file under the name of a path |
| `LockFiles.UnblockedWithoutFailure` | src/libstore/unix/pathlocks.cc:26-36 | If every unlink succeeds no path ever has a stale file under its name |
| `LockFiles.FailedUnlinkSticks` | src/libstore/unix/pathlocks.cc:26-36 | A failed unlink and the marking leave the path stuck: a stale file under its name and no live one |
| `LockFiles.StuckForGood` | src/libstore/unix/pathlocks.cc:26-36 | Nobody ever holds the lock of a stuck path again, unless a process dies on an unlinked file of it that another waits for |
| `LockFiles.RevivedIsHeld` | src/libstore/unix/pathlocks.cc:26-36 | After such a death some continuation has a holder |
| `TempRootFiles.LiveFilesAreKept` | src/libstore/gc.cc:84-112 | With any number of scanners, names used again, files left behind and failing unlinks: a live process's file is linked, locked by it and not stale in every run in which no scanner unlinks another file than it has locked that a process is using, nor dies before marking one that a process waits for |
| `TempRootFiles.HarmIsUnsafe` | src/libstore/gc.cc:220-228 | The other half: after every such step, from every state, the process alone can go on to live with a file that is not linked |
| `TempRootFiles.StartsAlone` | src/libstore/gc.cc:84-112 | A new process, its number used before or not, can get a file of its own, not the old one |
| `TempRootFiles.LeavesAlone` | src/libstore/local-store.cc:424-432 | When a process leaves, its file is free first and then gone; when it dies the file is left |
| `TempRootFiles.OpensLeftover` | src/libstore/gc.cc:92-98 | When a process cannot unlink what was left under its name it opens that file |
| `TempRootFiles.ScansFile` | src/libstore/gc.cc:207-222 | A scanner goes on with a file exactly when nobody has locked it, and leaves it alone otherwise |
| `TempRootFiles.RemovesFile` | src/libstore/gc.cc:220-228 | A file nobody has locked it removes and marks |
| `TempRootFiles.TwoScannersLoseLiveFile` | src/libstore/gc.cc:333-341 | Two scanners can take such a step |
| `TempRootFiles.ReusedNameLosesLiveFile` | src/libstore/local-store.cc:143-144 | One scanner and a reused process number are enough |
| `LinkFarm.Optimiser.OptimiseFile` | src/libstore/optimise-store.cc:102-340 | One file's turn: no path shows anything else; in a clean farm the file ends on the farm inode for its hash unless linking does not work |
| `LinkFarm.Optimiser.OptimisePath` | src/libstore/optimise-store.cc:102-340 | The recursion over a tree keeps the meaning of every path, fails or passes files over only where linking does not work, and settles all the others |
| `LinkFarm.Optimiser.ReadDirectoryIgnoringInodes` | src/libstore/optimise-store.cc:74-100 | Leaves out only files that are on a known farm inode |
| `LinkFarm.Relinked` | src/libstore/optimise-store.cc:253-336 | Replacing a file by a farm entry of the same hash and size shows the same contents and execute bit |
| `LinkFarm.EntryRemoved` | src/libstore/optimise-store.cc:198-215 | An entry whose size is wrong is removed only from a corrupted farm |
| `LinkFarm.PassedAfterPassed` | src/libstore/optimise-store.cc:131-133 | Passes compose: what one has settled stays settled |
| `LinkFarm.OptimiseTwice` | src/libstore/optimise-store.cc:51-72 | Convergence: after a pass over a clean farm that passed over no file, a second one links nothing and changes nothing |
| `LinkFarm.SameContentOneInode` | src/libstore/optimise-store.cc:102-340 | After a pass over a clean farm in which linking worked, read-only regular files with the same content are one inode |
| `LinkFarm.OthersStay` | src/libstore/optimise-store.cc:135-163 | Writable, empty and special files stay on their inodes |
| `LinkFarmRaces.MeaningKept` | src/libstore/optimise-store.cc:102-340 | Any interleaving of optimisers, the sweep and the collector: every path that is not deleted shows what it showed |
| `LinkFarmRaces.StepIsGentle` | src/libstore/optimise-store.cc:198-215 | A step never makes a right farm entry wrong, also when the entry was removed and made again since it was looked at |
| `LinkFarmRaces.OptimisersConverge` | src/libstore/optimise-store.cc:198-340 | From a clean farm, as long as no sweep races and no inode number returns to a new file, every file whose turn ended with a link is on the farm inode for its content |
| `LinkFarmRaces.SweepTakesOff` | src/libstore/gc.cc:858-892 | The race the source warns of: an unlink of the sweep takes files off the farm exactly when the entry has a file by then |
| `LinkFarmRaces.OptimisesAlone` | src/libstore/optimise-store.cc:102-340 | Left alone, an optimiser brings any file that may be linked onto the farm |
| `LinkFarmRaces.MayFail` | src/libstore/optimise-store.cc:216-336 | A call may fail at any point, and then the file is passed over and nothing else changes |
| `LinkFarmRaces.SweepsAlone` | src/libstore/gc.cc:876-892 | The sweep unlinks an entry with no other link; a file nobody works on can be deleted and made again |
| `LinkFarmRaces.DoomedIsUnused` | src/libstore/gc.cc:876-892 | The sweep picks no entry whose inode a file is on |
| `Space.LastNameCounts` | src/libutil/unix/file-system.cc:154-176 | An unlink at link count 1 or 2 is the removal of the last store name, and no other is, unless it leaves one name of an inode outside the farm or the inode has two farm names: exactly then |
| `Space.Disk.DeletePath` | src/libutil/unix/file-system.cc:139-223 | From any store: the bytes counted are the sizes of the inodes unlinked at link counts 1 and 2, each as often as its names before and now and its farm names say |
| `Space.Disk.SweepLinks` | src/libstore/gc.cc:858-904 | The sweep removes exactly the farm entries whose inode has no other link, in any order |
| `Space.BytesFreedAreBytesGone` | src/libstore/gc.cc:583-590 | Conservation and its exact condition: bytes counted and bytes of the inodes gone agree for files of all sizes if and only if no inode outside the farm with two names or more loses all or all but one, and no farm entry starts with link count 1 |
| `Space.CountedIsGone` | src/libutil/unix/file-system.cc:154-176 | Under that condition, and only then, each inode is counted once if it goes and never otherwise |
| `Space.Collect` | src/libstore/gc.cc:858-904 | The same for any store and any garbage |
| `Space.SettledStoreIsAccountable` | src/libstore/optimise-store.cc:102-340 | Deduplication makes the accounting exact: once every multiply linked file is settled in a clean farm without left-over entries, the condition holds whatever is deleted |
| `Space.UnfarmedPairIsCountedTwice` | src/libutil/unix/file-system.cc:154-176 | An inode outside the farm that loses two names or more, and with them all, is counted twice |
| `ExportImport.RecordRead` | src/libstore/export-import.cc:58-80 | From an exported record the reader recovers path, archive bytes, references and deriver, and stops at its end |
| `ExportImport.StreamRead` | src/libstore/export-import.cc:49-95 | The import loop recovers the whole sequence |
| `ExportImport.StreamFromBlocks` | src/libstore/export-import.cc:37-47 | The stream is the row of its records' blocks and an end mark |
| `ExportImport.ForeignMarkIsRefused` | src/libstore/export-import.cc:49-56 | A number other than 0 and 1 in front of a record is an error |
| `ExportImport.ForeignMagicIsRefused` | src/libstore/export-import.cc:64-66 | So is any other than the magic number after the archive |
| `ExportImport.SignatureIsIgnored` | src/libstore/export-import.cc:82-84 | A legacy signature is passed over; only the number 1 announces one |
| `ExportImport.TrailerOfOne` | src/libstore/export-import.cc:30-35 | The trailer of a path with one reference and a deriver, and of one with none, field by field |
| `Closures.LocalStore.ExportPaths` | src/libstore/export-import.cc:37-47 | Succeeds exactly when the paths have no cycle and all are valid, unchanged and not too deep; writes one record each, references before referrers |
| `Closures.LocalStore.ImportPaths` | src/libstore/export-import.cc:49-95 | Agrees with the import specification and leaves the table reference-closed also when it fails |
| `Closures.LocalStore.AddToStore` | src/libstore/local-store.cc:852-957 | Accepts exactly records whose archive parses completely and whose references are known, and then knows tree, references, deriver and hash; a valid path is left alone |
| `Closures.ReversedOrder` | src/libstore/export-import.cc:39-44 | The reverse of a topological order puts references first |
| `Closures.StreamIsImported` | src/libstore/export-import.cc:49-95 | A stream with references first is imported completely |
| `Closures.ImportedKnows` | src/libstore/export-import.cc:80-92 | Afterwards the receiver knows each new path as it was sent and the old ones as before |
| `Closures.ExportThenImport` | src/libstore/export-import.cc:12-95 | Paths whose references are exported with them or known arrive with trees, references and derivers; every registration succeeds |
| `ThreadPool.InvKept` | src/libutil/thread-pool.cc:46-163 | Every step keeps: each item is queued, run by one thread or done; `active` counts the busy threads |
| `ThreadPool.ProcessRunsEverything` | src/libutil/thread-pool.cc:58-82 | When `process` returns, every item, those enqueued by items included, has run exactly once |
| `ThreadPool.ThreadsAreBounded` | src/libutil/thread-pool.cc:46-56 | Never more threads than allowed, the caller included |
| `ThreadPool.NeverStuck` | src/libutil/thread-pool.cc:129-150 | No wake-up is lost: until `process` returns some thread can go on |
| `ThreadPool.RunsAreBounded` | src/libutil/thread-pool.cc:84-163 | Nor does the pool spin: a run has at most maxThreads + 2 steps, and five for each item and two for each spurious wake-up |
| `ThreadPool.EnqueuedOnce` | src/libutil/thread-pool.cc:46-56 | The items enqueued are as many as the calls |
| `ThreadPool.GrowsOnDemand` | src/libutil/thread-pool.cc:46-56 | A thread is added exactly when an item is enqueued that none is left for and one more is allowed |
| `ThreadPool.ThreadsMeetDemand` | src/libutil/thread-pool.cc:46-56 | So as long as the pool may grow there is a thread for every queued item |
| `ThreadPool.FirstInFirstOut` | src/libutil/thread-pool.cc:84-163 | Items are taken off the queue in the order in which they were enqueued |
| `ThreadPool.EnqueueWakesOne` | src/libutil/thread-pool.cc:46-56 | Enqueuing wakes one sleeper if there is any |
| `ThreadPool.MayEnqueue` | src/libutil/thread-pool.cc:46-56 | The caller before `process`, and any running item, can enqueue a new item; any sleeper may wake up |
| `ThreadPool.ProcessReturns` | src/libutil/thread-pool.cc:58-82 | From every state the threads can bring the caller to the return of `process`, and all enqueued items have run then |
| `CanonPath.Compare` | src/libutil/include/nix/util/canon-path.hh:263-278 | The comparison loop computes the order |
| `CanonPath.OrderAfterCommonPart` | src/libutil/include/nix/util/canon-path.hh:257-278 | After a common part the separator comes first and other bytes in their order, but bytes from 128 on before all where char is signed |
| `CanonPath.PrefixSqueezed` | src/libutil/include/nix/util/canon-path.hh:257-278 | Whatever sorts between a path and an extension of it extends it too |
| `CanonPath.WithinViaParent` | src/libutil/canon-path.cc:75-80 | A path is within another iff it is that path or its parent is within it |
| `CanonPath.LowerBound` | src/libutil/canon-path.cc:126-131 | The least allowed path not below the query |
| `CanonPath.IsAllowed` | src/libutil/canon-path.cc:126-145 | Exact result for all bytes: true iff an allowed path is above, or one is below and none continues the query with a byte that sorts before the separator |
| `CanonPath.IsAllowedIsExact` | src/libutil/canon-path.cc:126-145 | Over bytes below 128, or with unsigned char: true iff some allowed path is within this one or this one within some allowed path |
| `CanonPath.ShadowedParent` | src/libutil/canon-path.cc:126-145 | With signed char and a byte above 127 it fails |
| `Canonicalise.CanonPathInner` | src/libutil/include/nix/util/file-path-impl.hh:122-174 | The loop over one string gives what a stack of components gives |
| `Canonicalise.ComponentsOfJoin` | src/libutil/include/nix/util/file-path-impl.hh:122-174 | The components of the result are the resolved components |
| `Canonicalise.CanonicaliseTwice` | src/libutil/canon-path.cc:14-17 | The result is canonical and canonicalising again changes nothing |
| `Canonicalise.OneMore` | src/libutil/include/nix/util/file-path-impl.hh:140-166 | Another component at the end: a dot changes nothing, two lead to the parent, any other name is appended |
| `Canonicalise.UnchangedIff` | src/libutil/canon-path.cc:14-17 | Canonicalising changes nothing exactly when the path is canonical and has no dot or dot-dot component |
| `Nix32.Encode` | src/libutil/base-nix-32.cc:20-40 | The spelling has ceil(8n/5) characters, each that of five bits, the most significant first |
| `Nix32.Decode` | src/libutil/base-nix-32.cc:42-71 | Fails exactly on a foreign character; otherwise bit k of the result is bit k of the number the digits spell, and the length is fixed by the last digit |
| `Nix32.NeverShrinks` | src/libutil/base-nix-32.cc:61-68 | `resize` never drops a byte |
| `Nix32.DigitAdded` | src/libutil/base-nix-32.cc:52-68 | A round of decoding sets exactly the five bits of its digit |
| `Nix32.DecodeEncoded` | src/libutil/base-nix-32.cc:20-71 | decode(encode(b)) = b for every byte string |
| `Nix32.EncodeDecoded` | src/libutil/base-nix-32.cc:20-71 | encode(decode(s)) = s for every alphabet string of the encoded length of what it decodes to |
| `Nix32.AlphabetIs` | src/libutil/include/nix/util/base-nix-32.hh:17 | The alphabet is the digits and the small letters without e, o, t and u, in ascending order |

## Left out

- Collector.CollectGarbage: derivers, keep-outputs and keep-derivations are off, and no client adds roots meanwhile; what clients do is in `GcProtocol`.
- Collector.Collection.MarkAlive: the closure query is `WorkList.Run`; its caching of path information is left out.
- GcProtocol.ValidPathsAreComplete: the collector's search is replaced by a free choice of paths that are no temporary roots, and permanent roots do not appear; repair, and adders that do not call addTempRoot first, are left out.
- GcProtocol.AcknowledgedIsKept: the root is a hash part, as in the source; sockets, polling and reconnection are single steps.
- LockFiles.MutualExclusion: a blocking flock returns only with the lock. In the source an interrupted one returns without it and lockPaths goes on as if it held it. A process whose token write fails stays where it is until it dies.
- LockFiles.HarmfulDeathIsUnsafe: a continuation exists; that it is taken is up to the scheduler.
- TempRootFiles.LiveFilesAreKept: a process has one store object, and a stale file's lock is given up when its size is seen, not when the next file is open.
- WorkList.Run: the limit on concurrent coroutines is not shown to bound them; a worker taken off the queue is started without looking at the limit.
- WorkList.State.Enqueue: the strand is any order of its handlers, which includes the real one.
- LinkFarm.Optimiser.OptimisePath: one process at a time (several are in `LinkFarmRaces`), no repair, and file hashes always read from disk; permissions, timestamps and the temporary link are left out.
- LinkFarm.OptimiseTwice: the hash has no collisions; without a clean farm only the meaning of paths is shown, for corruption that shows in the size.
- LinkFarmRaces.MeaningKept: single files, without the recursion; a file is not deleted while an optimiser works on it, as its root forbids; no repair, and a temporary link left by a crash is not kept track of.
- GcProtocol.OvertakenRootIsLost: a path that other valid paths refer to is left out; it goes only after them, which their roots or a cycle may prevent.
- Space.Disk.DeletePath: no unlink fails; directories, mounts and permissions are left out.
- Closures.LocalStore.ExportPaths: signatures and content addresses are left out, and a path is identified with its printed form.
- BoundedQueue.FinishedInOrder: condition variables are guards of steps; inline mode is the fold the theorem names.
- FileHasher.CapturedHashesAgree: the early deduplication in `AsyncFileHasher::end` is left out.
- ThreadPool.ProcessRunsEverything: work items do not throw, and nobody else enqueues once `process` runs.
- Nar.ParseDumpIff: the case hack is off; names and targets are byte strings.
- Archive.Dumper.DumpTree: the path filter accepts everything.
- Nix32.Encode: the length of the empty string is zero, as the early return makes it.
- CanonPath.IsAllowed: `std::set` is a set with the order of its comparison.
- Canonicalise.CanonPathInner: Windows paths and the symlink hook are left out.
- Integer widths matter in the wire format only; positions, sizes and counters elsewhere are unbounded.
- SQLite, schema migration, retries and write-ahead logging.
- verifyStore, verifyPath and all repair paths.
- Automatic collection, disk-space probing and reserved space.
- Permissions, ownership, ACLs, timestamps, fsync and mount namespaces.
- Settings, logging, progress reporting and error formatting.
