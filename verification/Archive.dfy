/** `dumpPath`, `parseDump` and the hashing restore sink as the imperative code
    they are (src/libutil/archive.cc, src/libstore/local-store.cc), proved
    against the functions of Nar and FileHasher. */
module Archive {
  import opened Bytes
  import opened Serialise
  import opened Nar
  import opened FileHasher
  import opened Streams

  // ---------------------------------------------------------------------
  // Dumping.

  /** No node lies deeper than the printer goes. */
  predicate DepthFits(t: Node, depth: nat) {
    depth < NAR_MAX_DEPTH && (t.Directory? ==> EntriesFit(t.entries, depth))
  }

  predicate EntriesFit(es: Entries, depth: nat) {
    es.Entry? ==> DepthFits(es.node, depth + 1) && EntriesFit(es.others, depth)
  }

  class Dumper {
    const sink: Sink

    constructor (sink: Sink)
      ensures this.sink == sink
    {
      this.sink := sink;
    }

    /** The recursive lambda in `SourceAccessor::dumpPath`. The ghost `k` is what
        is written next. */
    method DumpTree(t: Node, depth: nat, ghost k: bytes) returns (ok: bool)
      modifies sink
      ensures ok <==> DepthFits(t, depth)
      ensures ok ==> sink.data + k == old(sink.data) + DumpNode(t, k)
      decreases t
    {
      hide EncodeString;
      if depth >= NAR_MAX_DEPTH { return false; }
      ok := true;
      ghost var close := EncodeString(CLOSE, k);
      match t {
        case Regular(executable, contents) =>
          ghost var file := EncodeString(contents, close);
          ghost var body := EncodeString(CONTENTS, file);
          OpenNode(REGULAR, if executable then EncodeString(EXECUTABLE, EncodeString([], body)) else body);
          if executable {
            sink.WriteString(EXECUTABLE, EncodeString([], body));
            sink.WriteString([], body);
          }
          sink.WriteString(CONTENTS, file);
          DumpContents(contents, close);
        case Directory(es) =>
          OpenNode(DIRECTORY, DumpEntries(es, close));
          ok := DumpListing(es, depth, close);
          if !ok { return; }
        case Symlink(target) =>
          OpenNode(SYMLINK, EncodeString(TARGET, EncodeString(target, close)));
          sink.WriteString(TARGET, EncodeString(target, close));
          sink.WriteString(target, close);
      }
      sink.WriteString(CLOSE, k);
    }

    method OpenNode(kind: bytes, ghost k: bytes)
      modifies sink
      ensures sink.data + k == old(sink.data) + EncodeString(OPEN, EncodeString(TYPE, EncodeString(kind, k)))
    {
      sink.WriteString(OPEN, EncodeString(TYPE, EncodeString(kind, k)));
      sink.WriteString(TYPE, EncodeString(kind, k));
      sink.WriteString(kind, k);
    }

    /** `dumpContents`, after its tag. */
    method DumpContents(contents: bytes, ghost k: bytes)
      modifies sink
      ensures sink.data + k == old(sink.data) + EncodeString(contents, k)
    {
      sink.WriteNum(|contents|);
      sink.Write(contents);
      sink.WritePadding(|contents|);
      assert sink.data + k == old(sink.data) + EncodeString(contents, k);
    }

    /** The loop over a directory's sorted names. */
    method DumpListing(es: Entries, depth: nat, ghost k: bytes) returns (ok: bool)
      modifies sink
      ensures ok <==> EntriesFit(es, depth)
      ensures ok ==> sink.data + k == old(sink.data) + DumpEntries(es, k)
      decreases es
    {
      hide EncodeString;
      ok := true;
      var left := es;
      while left.Entry?
        invariant EntriesFit(es, depth) <==> EntriesFit(left, depth)
        invariant sink.data + DumpEntries(left, k) == old(sink.data) + DumpEntries(es, k)
        invariant left == es || left < es
        decreases left
      {
        ghost var after := EncodeString(CLOSE, DumpEntries(left.others, k));
        OpenEntry(left.name, DumpNode(left.node, after));
        ok := DumpTree(left.node, depth + 1, after);
        if !ok { return; }
        sink.WriteString(CLOSE, DumpEntries(left.others, k));
        left := left.others;
      }
    }

    method OpenEntry(name: bytes, ghost k: bytes)
      modifies sink
      ensures sink.data + k == old(sink.data)
        + EncodeString(ENTRY, EncodeString(OPEN, EncodeString(NAME, EncodeString(name, EncodeString(NODE, k)))))
    {
      ghost var k4 := EncodeString(NODE, k);
      ghost var k3 := EncodeString(name, k4);
      ghost var k2 := EncodeString(NAME, k3);
      sink.WriteString(ENTRY, EncodeString(OPEN, k2));
      sink.WriteString(OPEN, k2);
      sink.WriteString(NAME, k3);
      sink.WriteString(name, k4);
      sink.WriteString(NODE, k);
    }
  }

  /** `dumpPath`. */
  method DumpPath(t: Node, sink: Sink) returns (ok: bool)
    modifies sink
    ensures ok <==> DepthFits(t, 0)
    ensures ok ==> sink.data == old(sink.data) + Dump(t, [])
  {
    sink.WriteString(VERSION_MAGIC, DumpNode(t, []));
    var dumper := new Dumper(sink);
    ok := dumper.DumpTree(t, 0, []);
    assert sink.data + [] == sink.data;
  }

  // ---------------------------------------------------------------------
  // Restoring with the hash tap.

  /** `FileHashingSink` around a `RestoreSink`: what was restored, and the events
      the hasher was given. With `skipContents` it is a null sink instead. */
  class FileHashingSink {
    const skipContents: bool
    var objects: map<Path, Object>
    var hasher: Hasher
    var executable: bool
    var contents: bytes
    ghost var start: Hasher
    ghost var log: seq<Event>

    ghost predicate Valid()
      reads this
    {
      hasher == ApplyAll(start, log)
    }

    constructor (skipContents: bool)
      ensures Valid() && this.skipContents == skipContents
      ensures objects == map[] && hasher.files == map[] && log == [] && start == hasher
    {
      this.skipContents := skipContents;
      objects, executable, contents := map[], false, [];
      hasher := Hasher([], [], 0, map[]);
      start, log := Hasher([], [], 0, map[]), [];
    }

    method Push(ev: Event)
      requires Valid()
      modifies this`hasher, this`log
      ensures Valid() && hasher == Apply(old(hasher), ev) && log == old(log) + [ev]
    {
      ApplyAllSnoc(start, log, ev);
      hasher := Apply(hasher, ev);
      log := log + [ev];
    }

    method CreateDirectory(path: Path)
      requires Valid()
      modifies this`objects
      ensures Valid() && objects == if skipContents then old(objects) else old(objects)[path := Folder]
    {
      if !skipContents { objects := objects[path := Folder]; }
    }

    method CreateSymlink(path: Path, target: bytes)
      requires Valid()
      modifies this`objects
      ensures Valid() && objects == if skipContents then old(objects) else old(objects)[path := Link(target)]
    {
      if !skipContents { objects := objects[path := Link(target)]; }
    }

    /** The file being written is at this point of its archive. */
    ghost predicate Writing(path: Path, exec: bool, data: bytes, digest: bytes)
      reads this
    {
      && executable == exec && contents == data
      && hasher.key == path && hasher.hash == digest
    }

    method BeginFile(path: Path)
      requires Valid() && !skipContents
      modifies this
      ensures Valid() && start == old(start) && Writing(path, false, [], FileTokens(false))
      ensures objects == old(objects) && hasher.files == old(hasher.files)
    {
      executable, contents := false, [];
      Push(Begin(path));
    }

    method IsExecutable(ghost path: Path)
      requires Valid() && !skipContents && Writing(path, false, [], FileTokens(false))
      modifies this
      ensures Valid() && start == old(start) && Writing(path, true, [], FileTokens(true))
      ensures objects == old(objects) && hasher.files == old(hasher.files)
    {
      Push(Exec);
      executable := true;
    }

    method PreallocateContents(size: nat, ghost path: Path)
      requires Valid() && !skipContents && Writing(path, executable, [], FileTokens(executable))
      modifies this
      ensures Valid() && start == old(start) && executable == old(executable)
      ensures Writing(path, executable, [], FileTokens(executable) + EncodeString(CONTENTS, EncodeNum(size)))
      ensures hasher.size == size
      ensures objects == old(objects) && hasher.files == old(hasher.files)
    {
      Push(Size(size));
    }

    method Write(data: bytes)
      requires Valid() && !skipContents
      modifies this
      ensures Valid() && start == old(start) && executable == old(executable)
      ensures Writing(old(hasher.key), executable, old(contents) + data, old(hasher.hash) + data)
      ensures hasher.size == old(hasher.size)
      ensures objects == old(objects) && hasher.files == old(hasher.files)
    {
      Push(Event.Data(data));
      contents := contents + data;
    }

    method EndFile(path: Path)
      requires Valid() && !skipContents && hasher.size == |contents|
      requires Writing(path, executable, contents,
                       FileTokens(executable) + EncodeString(CONTENTS, EncodeNum(|contents|)) + contents)
      modifies this
      ensures Valid() && start == old(start)
      ensures objects == old(objects)[path := File(old(executable), old(contents))]
      ensures hasher.files == old(hasher.files)[path := Dump(Regular(old(executable), old(contents)), [])]
    {
      FileDigestIsDump(executable, contents);
      objects := objects[path := File(executable, contents)];
      Push(End);
    }
  }

  /** What a sink holds once `t` was parsed into it at `path`. */
  twostate predicate Received(sink: FileHashingSink, t: Node, path: Path)
    reads sink
  {
    && sink.Valid() && sink.start == old(sink.start)
    && (sink.skipContents ==> sink.objects == old(sink.objects) && sink.hasher == old(sink.hasher))
    && (!sink.skipContents ==>
          && sink.objects == Restore(t, path, old(sink.objects))
          && sink.hasher.files == Hashes(t, path, old(sink.hasher.files)))
  }

  class Parser {
    const source: Source
    const sink: FileHashingSink

    constructor (source: Source, sink: FileHashingSink)
      ensures this.source == source && this.sink == sink
    {
      this.source, this.sink := source, sink;
    }

    method ExpectTag(tag: bytes) returns (ok: bool)
      requires source.Valid()
      modifies source
      ensures source.Valid()
      ensures Expect(old(source.Remaining()), tag) == if ok then Ok(tag, source.Remaining()) else Bad
    {
      var got;
      got, ok := source.GetString(NAR_MAX_TAG);
      ok := ok && got == tag;
    }

    /** `drainInto(sink, len)`. */
    method DrainInto(len: nat) returns (ok: bool)
      requires source.Valid() && sink.Valid() && !sink.skipContents
      modifies source, sink
      ensures source.Valid() && sink.Valid() && sink.start == old(sink.start)
      ensures sink.objects == old(sink.objects) && sink.executable == old(sink.executable)
      ensures sink.hasher.files == old(sink.hasher.files) && sink.hasher.size == old(sink.hasher.size)
      ensures match ReadBytes(old(source.Remaining()), len)
        case Bad => !ok
        case Ok(got, k) =>
          && ok && source.Remaining() == k
          && sink.Writing(old(sink.hasher.key), sink.executable, old(sink.contents) + got, old(sink.hasher.hash) + got)
    {
      ghost var in0, c0, h0 := source.Remaining(), sink.contents, sink.hasher.hash;
      ghost var got: bytes := [];
      var left: nat := len;
      assert c0 + got == c0 && h0 + got == h0;
      while left != 0
        invariant source.Valid() && sink.Valid() && sink.start == old(sink.start)
        invariant in0 == got + source.Remaining() && |got| + left == len
        invariant sink.objects == old(sink.objects) && sink.executable == old(sink.executable)
        invariant sink.hasher.files == old(sink.hasher.files) && sink.hasher.size == old(sink.hasher.size)
        invariant sink.Writing(old(sink.hasher.key), sink.executable, c0 + got, h0 + got)
      {
        var chunk := source.Read(Min(left, 65536));
        if chunk == [] { return false; }
        assert c0 + (got + chunk) == (c0 + got) + chunk;
        assert h0 + (got + chunk) == (h0 + got) + chunk;
        sink.Write(chunk);
        got := got + chunk;
        left := left - |chunk|;
      }
      assert in0[..len] == got && in0[len..] == source.Remaining();
      ok := true;
    }

    /** `parseContents` for a sink that wants the contents. */
    method Contents(path: Path) returns (ok: bool)
      requires source.Valid() && sink.Valid() && !sink.skipContents
      requires sink.Writing(path, sink.executable, [], FileTokens(sink.executable))
      modifies source, sink
      ensures source.Valid()
      ensures match ParseContents(old(source.Remaining()), false)
        case Bad => !ok
        case Ok(contents, k) =>
          && ok && source.Remaining() == k
          && sink.Valid() && sink.start == old(sink.start)
          && sink.objects == old(sink.objects) && sink.executable == old(sink.executable)
          && sink.hasher.files == old(sink.hasher.files) && sink.hasher.size == |contents|
          && sink.Writing(path, sink.executable, contents,
                          FileTokens(sink.executable) + EncodeString(CONTENTS, EncodeNum(|contents|)) + contents)
    {
      hide EncodeString, EncodeNum, FileTokens, ReadNum, ReadBytes, ReadPadding;
      var size;
      size, ok := source.GetNum();
      if !ok { return; }
      sink.PreallocateContents(size, path);
      ok := DrainInto(size);
      if !ok { return; }
      assert [] + sink.contents == sink.contents;
      ok := source.GetPadding(size);
    }

    /** `parseContents` for a sink with `skipContents`. */
    method SkippedContents() returns (ok: bool)
      requires source.Valid()
      modifies source
      ensures source.Valid()
      ensures match ParseContents(old(source.Remaining()), true)
        case Bad => !ok
        case Ok(_, k) => ok && source.Remaining() == k
    {
      var size;
      size, ok := source.GetNum();
      if !ok { return; }
      if size > TWO64 - 8 { return false; }
      ok := source.Skip(size + PadLength(size));
    }

    /** From the contents' tag to the end of the file. */
    method FileBody(path: Path, tag: bytes, ghost executable: bool) returns (ok: bool)
      requires source.Valid() && sink.Valid()
      requires !sink.skipContents ==> sink.Writing(path, executable, [], FileTokens(executable))
      modifies source, sink
      ensures source.Valid()
      ensures match ParseFileBody(old(source.Remaining()), tag, executable, sink.skipContents)
        case Bad => !ok
        case Ok(t, k) =>
          && ok && source.Remaining() == k && sink.Valid() && sink.start == old(sink.start)
          && (sink.skipContents ==> sink.objects == old(sink.objects) && sink.hasher == old(sink.hasher))
          && (!sink.skipContents ==>
                && sink.objects == old(sink.objects)[path := File(executable, t.contents)]
                && sink.hasher.files == old(sink.hasher.files)[path := Dump(t, [])])
    {
      hide EncodeString, EncodeNum, FileTokens, Dump, ReadString, ParseContents, Expect;
      if tag != CONTENTS { return false; }
      if sink.skipContents {
        ok := SkippedContents();
      } else {
        ok := Contents(path);
      }
      if !ok { return; }
      ok := ExpectTag(CLOSE);
      if ok && !sink.skipContents { sink.EndFile(path); }
    }

    /** The callback of `createRegularFile`. */
    method RegularFile(path: Path) returns (ok: bool)
      requires source.Valid() && sink.Valid()
      modifies source, sink
      ensures source.Valid()
      ensures match ParseRegular(old(source.Remaining()), sink.skipContents)
        case Bad => !ok
        case Ok(t, k) => ok && source.Remaining() == k && Received(sink, t, path)
    {
      hide EncodeString, FileTokens, Dump, ReadString, ParseFileBody;
      if !sink.skipContents { sink.BeginFile(path); }
      var tag;
      ghost var executable := false;
      tag, ok := source.GetString(NAR_MAX_TAG);
      if !ok { return; }
      if tag == EXECUTABLE {
        var s2;
        s2, ok := source.GetString(0);
        if !ok || s2 != [] { return false; }
        if !sink.skipContents { sink.IsExecutable(path); }
        executable := true;
        tag, ok := source.GetString(NAR_MAX_TAG);
        if !ok { return; }
      }
      ok := FileBody(path, tag, executable);
    }

    /** `parse`. A directory's callback gets a sink rooted at that directory. */
    method Parse(prefix: Path, path: Path, depth: nat) returns (ok: bool)
      requires source.Valid() && sink.Valid()
      modifies source, sink
      ensures source.Valid()
      ensures match ParseNode(old(source.Remaining()), depth, sink.skipContents)
        case Bad => !ok
        case Ok(t, k) => ok && source.Remaining() == k && Received(sink, t, prefix + path)
      decreases |source.data| - source.pos, 1
    {
      hide ReadString, Expect, ParseRegular, ParseSymlink, Dump;
      ghost var b := source.Remaining();
      if depth >= NAR_MAX_DEPTH { return false; }
      ok := ExpectTag(OPEN);
      if !ok { return; }
      ok := ExpectTag(TYPE);
      if !ok { return; }
      var kind;
      kind, ok := source.GetString(NAR_MAX_TAG);
      if !ok { return; }
      if kind == REGULAR {
        ok := RegularFile(prefix + path);
      } else if kind == DIRECTORY {
        sink.CreateDirectory(prefix + path);
        ok := Listing(prefix + path, depth);
      } else if kind == SYMLINK {
        ok := SymlinkTarget(prefix + path);
      } else {
        ok := false;
      }
    }

    method SymlinkTarget(path: Path) returns (ok: bool)
      requires source.Valid() && sink.Valid()
      modifies source, sink
      ensures source.Valid()
      ensures match ParseSymlink(old(source.Remaining()))
        case Bad => !ok
        case Ok(t, k) => ok && source.Remaining() == k && Received(sink, t, path)
    {
      hide ReadString, Expect;
      ok := ExpectTag(TARGET);
      if !ok { return; }
      var target;
      target, ok := source.GetString(NAR_MAX_TARGET);
      if !ok { return; }
      if !ValidTarget(target) { return false; }
      sink.CreateSymlink(path, target);
      ok := ExpectTag(CLOSE);
    }

    method EntryName(prevName: bytes) returns (name: bytes, ok: bool)
      requires source.Valid()
      modifies source
      ensures source.Valid()
      ensures ParseEntryName(old(source.Remaining()), prevName) == if ok then Ok(name, source.Remaining()) else Bad
    {
      hide ReadString, Expect;
      name := [];
      ok := ExpectTag(OPEN);
      if !ok { return; }
      ok := ExpectTag(NAME);
      if !ok { return; }
      name, ok := source.GetString(NAR_MAX_NAME);
      if !ok { return; }
      if !ValidName(name) || !Less(prevName, name) { ok := false; return; }
      ok := ExpectTag(NODE);
    }

    /** The loop over directory entries, driven by `prevName`. */
    method Listing(prefix: Path, depth: nat) returns (ok: bool)
      requires source.Valid() && sink.Valid()
      modifies source, sink
      ensures source.Valid()
      ensures match ParseEntries(old(source.Remaining()), [], depth, sink.skipContents)
        case Bad => !ok
        case Ok(es, k) =>
          && ok && source.Remaining() == k && sink.Valid() && sink.start == old(sink.start)
          && (sink.skipContents ==> sink.objects == old(sink.objects) && sink.hasher == old(sink.hasher))
          && (!sink.skipContents ==>
                && sink.objects == RestoreEntries(es, prefix, old(sink.objects))
                && sink.hasher.files == HashesOfEntries(es, prefix, old(sink.hasher.files)))
      decreases |source.data| - source.pos, 0
    {
      hide ReadString, Expect, ParseNode, ParseEntryName, Dump, Restore, Hashes;
      ghost var whole := ParseEntries(source.Remaining(), [], depth, sink.skipContents);
      var prevName := [];
      while true
        invariant source.Valid() && sink.Valid() && sink.start == old(sink.start)
        invariant old(source.pos) <= source.pos
        invariant ListingGoesOn(whole, ParseEntries(source.Remaining(), prevName, depth, sink.skipContents), prefix,
                                old(sink.objects), old(sink.hasher.files), sink.objects, sink.hasher.files,
                                sink.skipContents)
        invariant sink.skipContents ==> sink.objects == old(sink.objects) && sink.hasher == old(sink.hasher)
        decreases |source.data| - source.pos
      {
        var tag;
        tag, ok := source.GetString(NAR_MAX_TAG);
        if !ok { return; }
        if tag == CLOSE { return; }
        if tag != ENTRY { return false; }
        var name;
        name, ok := EntryName(prevName);
        if !ok { return; }
        ok := Parse(prefix, [name], depth + 1);
        if !ok { return; }
        ok := ExpectTag(CLOSE);
        if !ok { return; }
        prevName := name;
      }
    }
  }

  /** The listing parsed so far is in the sink; `rest` is still to come. */
  ghost predicate ListingGoesOn(whole: Parsed<Entries>, rest: Parsed<Entries>, prefix: Path,
                                m0: map<Path, Object>, h0: map<Path, bytes>,
                                m: map<Path, Object>, h: map<Path, bytes>, skip: bool) {
    && (whole.Ok? <==> rest.Ok?)
    && (whole.Ok? ==> whole.rest == rest.rest)
    && (whole.Ok? && !skip ==>
          && RestoreEntries(whole.value, prefix, m0) == RestoreEntries(rest.value, prefix, m)
          && HashesOfEntries(whole.value, prefix, h0) == HashesOfEntries(rest.value, prefix, h))
  }

  /** `parseDump` into a hashing restore sink: the tree of the archive is
      restored, and the hashes captured on the way are those of its files. */
  method ParseDumpInto(source: Source, sink: FileHashingSink) returns (ok: bool)
    requires source.Valid() && sink.Valid()
    requires sink.objects == map[] && sink.hasher.files == map[]
    modifies source, sink
    ensures source.Valid()
    ensures match ParseDump(old(source.Remaining()), sink.skipContents)
      case Bad => !ok
      case Ok(t, k) =>
        && ok && source.Remaining() == k
        && (!sink.skipContents ==> sink.objects == Restore(t, [], map[]) && Agree(sink.objects, sink.hasher.files))
        && sink.hasher == ApplyAll(sink.start, sink.log)
  {
    hide ReadString, ParseNode, Dump, Agree;
    var version;
    version, ok := source.GetString(|VERSION_MAGIC|);
    if !ok || version != VERSION_MAGIC { return false; }
    var parser := new Parser(source, sink);
    ghost var b := source.Remaining();
    var root: Path := [];
    assert root + root == root;
    ok := parser.Parse(root, root, 0);
    if ok && !sink.skipContents {
      ParsedNodeIsDump(b, 0);
      CapturedHashesAgree(ParseNode(b, 0, false).value);
    }
  }
}
