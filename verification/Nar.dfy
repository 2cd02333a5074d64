/** The Nix archive format (src/libutil/archive.cc): what `dumpPath` writes for a
    tree, what `parseDump` accepts, and the proof that the two are exact
    inverses on every input. */
module Nar {
  import opened Bytes
  import opened Serialise

  datatype Node =
    | Regular(executable: bool, contents: bytes)
    | Symlink(target: bytes)
    | Directory(entries: Entries)

  /** A directory listing in `std::map` order. */
  datatype Entries = NoEntries | Entry(name: bytes, node: Node, others: Entries)

  const NAR_MAX_DEPTH: nat := 64
  const NAR_MAX_TAG: nat := 32
  const NAR_MAX_NAME: nat := 255
  const NAR_MAX_TARGET: nat := 4095

  const VERSION_MAGIC := Ascii("nix-archive-1")
  const OPEN := Ascii("(")
  const CLOSE := Ascii(")")
  const TYPE := Ascii("type")
  const REGULAR := Ascii("regular")
  const EXECUTABLE := Ascii("executable")
  const CONTENTS := Ascii("contents")
  const SYMLINK := Ascii("symlink")
  const TARGET := Ascii("target")
  const DIRECTORY := Ascii("directory")
  const ENTRY := Ascii("entry")
  const NAME := Ascii("name")
  const NODE := Ascii("node")
  const SLASH: byte := 47

  lemma TagsDiffer()
    ensures REGULAR != DIRECTORY && REGULAR != SYMLINK && DIRECTORY != SYMLINK
    ensures EXECUTABLE != CONTENTS && ENTRY != CLOSE
  {
    assert REGULAR[0] == 114 && SYMLINK[0] == 115;
  }

  /** `a < b` on `std::string`: bytewise lexicographic. */
  predicate Less(a: bytes, b: bytes) {
    b != [] && (a == [] || a[0] < b[0] || (a[0] == b[0] && Less(a[1..], b[1..])))
  }

  predicate ValidName(name: bytes) {
    && name != [] && name != Ascii(".") && name != Ascii("..")
    && SLASH !in name && NUL !in name
  }

  predicate ValidTarget(target: bytes) {
    target != [] && NUL !in target
  }

  // ---------------------------------------------------------------------
  // The order of names: that of the first byte in which they differ, a name
  // before its extensions.

  /** The strings agree up to `n`, and there `a` ends or has the smaller byte. */
  predicate LessAt(a: bytes, b: bytes, n: nat) {
    n <= |a| && n < |b| && a[..n] == b[..n] && (n == |a| || a[n] < b[n])
  }

  lemma LessAtTail(a: bytes, b: bytes, n: nat)
    ensures LessAt(a, b, n + 1) ==> a != [] && b != [] && a[0] == b[0] && LessAt(a[1..], b[1..], n)
    ensures a != [] && b != [] && a[0] == b[0] && LessAt(a[1..], b[1..], n) ==> LessAt(a, b, n + 1)
  {
    if n + 1 <= |a| && n + 1 <= |b| {
      assert a[..n + 1] == [a[0]] + a[1..][..n] && b[..n + 1] == [b[0]] + b[1..][..n];
    }
  }

  lemma {:induction false} LessIff(a: bytes, b: bytes)
    ensures Less(a, b) <==> exists n: nat :: LessAt(a, b, n)
  {
    forall n: nat ensures LessAt(a, b, n) <==>
        if n == 0 then LessAt(a, b, 0) else a != [] && b != [] && a[0] == b[0] && LessAt(a[1..], b[1..], n - 1)
    {
      if n > 0 { LessAtTail(a, b, n - 1); }
    }
    if a != [] && b != [] && a[0] == b[0] {
      LessIff(a[1..], b[1..]);
      if Less(a[1..], b[1..]) {
        var n: nat :| LessAt(a[1..], b[1..], n);
        LessAtTail(a, b, n);
      }
    } else {
      assert LessAt(a, b, 0) <==> Less(a, b);
    }
  }

  /** Two names that differ in a byte after a common part, and a name and one it
      begins. */
  lemma LessAfterCommonPart(p: bytes, x: byte, s: bytes, y: byte, t: bytes)
    ensures Less(p + [x] + s, p + [y] + t) <==> x < y || (x == y && Less(s, t))
    ensures s != [] ==> Less(p, p + s)
    decreases |p|
  {
    var a, b := p + [x] + s, p + [y] + t;
    if p == [] {
      assert a[1..] == s && b[1..] == t;
    } else {
      LessAfterCommonPart(p[1..], x, s, y, t);
      assert a[1..] == p[1..] + [x] + s && b[1..] == p[1..] + [y] + t && (p + s)[1..] == p[1..] + s;
    }
  }

  lemma {:induction false} LessTotal(a: bytes, b: bytes)
    ensures a == b || Less(a, b) || Less(b, a)
  {
    if a != [] && b != [] && a[0] == b[0] {
      LessTotal(a[1..], b[1..]);
      assert a == [a[0]] + a[1..] && b == [b[0]] + b[1..];
    }
  }

  lemma {:induction false} LessIrreflexive(a: bytes)
    ensures !Less(a, a)
  {
    if a != [] { LessIrreflexive(a[1..]); }
  }

  lemma {:induction false} LessTransitive(a: bytes, b: bytes, c: bytes)
    requires Less(a, b) && Less(b, c)
    ensures Less(a, c)
  {
    if a != [] && b[0] == c[0] && a[0] == b[0] {
      LessTransitive(a[1..], b[1..], c[1..]);
    }
  }

  // ---------------------------------------------------------------------
  // The trees an archive can hold.

  predicate WellFormed(t: Node, depth: nat) {
    && depth < NAR_MAX_DEPTH
    && match t
       case Regular(_, contents) => |contents| < TWO64
       case Symlink(target) => |target| <= NAR_MAX_TARGET && ValidTarget(target)
       case Directory(es) => WellFormedEntries(es, [], depth)
  }

  predicate WellFormedEntries(es: Entries, prevName: bytes, depth: nat) {
    match es
    case NoEntries => true
    case Entry(name, node, others) =>
      && |name| <= NAR_MAX_NAME && ValidName(name) && Less(prevName, name)
      && WellFormed(node, depth + 1)
      && WellFormedEntries(others, name, depth)
  }

  // ---------------------------------------------------------------------
  // The printer. `k` is what follows in the stream.

  function DumpNode(t: Node, k: bytes): bytes {
    match t
    case Regular(executable, contents) =>
      var body := EncodeString(CONTENTS, EncodeString(contents, EncodeString(CLOSE, k)));
      EncodeString(OPEN, EncodeString(TYPE, EncodeString(REGULAR,
        if executable then EncodeString(EXECUTABLE, EncodeString([], body)) else body)))
    case Symlink(target) =>
      EncodeString(OPEN, EncodeString(TYPE, EncodeString(SYMLINK, EncodeString(TARGET,
        EncodeString(target, EncodeString(CLOSE, k))))))
    case Directory(es) =>
      EncodeString(OPEN, EncodeString(TYPE, EncodeString(DIRECTORY, DumpEntries(es, EncodeString(CLOSE, k)))))
  }

  function DumpEntries(es: Entries, k: bytes): bytes {
    match es
    case NoEntries => k
    case Entry(name, node, others) =>
      EncodeString(ENTRY, EncodeString(OPEN, EncodeString(NAME, EncodeString(name, EncodeString(NODE,
        DumpNode(node, EncodeString(CLOSE, DumpEntries(others, k))))))))
  }

  function Dump(t: Node, k: bytes): bytes {
    EncodeString(VERSION_MAGIC, DumpNode(t, k))
  }

  // ---------------------------------------------------------------------
  // The parser. With `skip`, file contents are passed over unread, as for a
  // sink that sets `skipContents`.

  function Expect(b: bytes, tag: bytes): (r: Parsed<bytes>)
    ensures r.Ok? ==> r.value == tag && |r.rest| < |b|
  {
    var (got, b1) :- ReadString(b, NAR_MAX_TAG);
    if got == tag then Ok(got, b1) else Bad
  }

  /** `parseContents`. */
  function ParseContents(b: bytes, skip: bool): (r: Parsed<bytes>)
    ensures r.Ok? ==> |r.rest| < |b|
  {
    var (size, b1) :- ReadNum(b);
    if skip then
      if size > TWO64 - 8 then Bad else
      var (_, b2) :- ReadBytes(b1, size + PadLength(size));
      Ok([], b2)
    else
      var (contents, b2) :- ReadBytes(b1, size);
      var (_, b3) :- ReadPadding(b2, size);
      Ok(contents, b3)
  }

  function ParseNode(b: bytes, depth: nat, skip: bool): (r: Parsed<Node>)
    ensures r.Ok? ==> |r.rest| < |b|
    decreases |b|, 0
  {
    if depth >= NAR_MAX_DEPTH then Bad else
    var (_, b1) :- Expect(b, OPEN);
    var (_, b2) :- Expect(b1, TYPE);
    var (kind, b3) :- ReadString(b2, NAR_MAX_TAG);
    if kind == REGULAR then ParseRegular(b3, skip)
    else if kind == DIRECTORY then
      var (es, b4) :- ParseEntries(b3, [], depth, skip);
      Ok(Directory(es), b4)
    else if kind == SYMLINK then ParseSymlink(b3)
    else Bad
  }

  function ParseRegular(b: bytes, skip: bool): (r: Parsed<Node>)
    ensures r.Ok? ==> r.value.Regular? && |r.rest| < |b|
  {
    var (tag, b1) :- ReadString(b, NAR_MAX_TAG);
    if tag == EXECUTABLE then
      var (_, b2) :- ReadString(b1, 0);
      var (tag2, b3) :- ReadString(b2, NAR_MAX_TAG);
      ParseFileBody(b3, tag2, true, skip)
    else
      ParseFileBody(b1, tag, false, skip)
  }

  function ParseFileBody(b: bytes, tag: bytes, executable: bool, skip: bool): (r: Parsed<Node>)
    ensures r.Ok? ==> r.value.Regular? && r.value.executable == executable && |r.rest| < |b|
  {
    if tag != CONTENTS then Bad else
    var (contents, b1) :- ParseContents(b, skip);
    var (_, b2) :- Expect(b1, CLOSE);
    Ok(Regular(executable, contents), b2)
  }

  function ParseSymlink(b: bytes): (r: Parsed<Node>)
    ensures r.Ok? ==> r.value.Symlink? && |r.rest| < |b|
  {
    var (_, b1) :- Expect(b, TARGET);
    var (target, b2) :- ReadString(b1, NAR_MAX_TARGET);
    if !ValidTarget(target) then Bad else
    var (_, b3) :- Expect(b2, CLOSE);
    Ok(Symlink(target), b3)
  }

  /** The loop over directory entries, up to and including the closing tag. */
  function ParseEntries(b: bytes, prevName: bytes, depth: nat, skip: bool): (r: Parsed<Entries>)
    ensures r.Ok? ==> |r.rest| < |b|
    decreases |b|, 1
  {
    var (tag, b1) :- ReadString(b, NAR_MAX_TAG);
    if tag == CLOSE then Ok(NoEntries, b1) else
    if tag != ENTRY then Bad else
    var (name, b2) :- ParseEntryName(b1, prevName);
    var (node, b3) :- ParseNode(b2, depth + 1, skip);
    var (_, b4) :- Expect(b3, CLOSE);
    var (others, b5) :- ParseEntries(b4, name, depth, skip);
    Ok(Entry(name, node, others), b5)
  }

  function ParseEntryName(b: bytes, prevName: bytes): (r: Parsed<bytes>)
    ensures r.Ok? ==> |r.rest| < |b|
  {
    var (_, b1) :- Expect(b, OPEN);
    var (_, b2) :- Expect(b1, NAME);
    var (name, b3) :- ReadString(b2, NAR_MAX_NAME);
    if !ValidName(name) || !Less(prevName, name) then Bad else
    var (_, b4) :- Expect(b3, NODE);
    Ok(name, b4)
  }

  function ParseDump(b: bytes, skip: bool): (r: Parsed<Node>)
    ensures r.Ok? ==> |r.rest| < |b|
  {
    var (version, b1) :- ReadString(b, |VERSION_MAGIC|);
    if version != VERSION_MAGIC then Bad else ParseNode(b1, 0, skip)
  }

  // ---------------------------------------------------------------------
  // Parsing accepts exactly the dumps of well-formed trees.

  lemma ExpectIff(b: bytes, tag: bytes, k: bytes)
    requires |tag| <= NAR_MAX_TAG
    ensures Expect(b, tag) == Ok(tag, k) <==> b == EncodeString(tag, k)
  {
    ReadStringIffEncoded(b, NAR_MAX_TAG, tag, k);
  }

  lemma ContentsIff(b: bytes, contents: bytes, k: bytes)
    ensures ParseContents(b, false) == Ok(contents, k) <==> |contents| < TWO64 && b == EncodeString(contents, k)
  {
    if ParseContents(b, false) == Ok(contents, k) {
      ReadNumIffEncoded(b, ReadNum(b).value, ReadNum(b).rest);
    }
    if |contents| < TWO64 && b == EncodeString(contents, k) {
      var b2 := Zeros(PadLength(|contents|)) + k;
      ReadNumIffEncoded(b, |contents|, contents + b2);
      assert (contents + b2)[..|contents|] == contents && (contents + b2)[|contents|..] == b2;
      assert b2[..PadLength(|contents|)] == Zeros(PadLength(|contents|)) && b2[PadLength(|contents|)..] == k;
    }
  }

  lemma FileBodyIff(b: bytes, tag: bytes, executable: bool, contents: bytes, k: bytes)
    ensures ParseFileBody(b, tag, executable, false) == Ok(Regular(executable, contents), k)
       <==> tag == CONTENTS && |contents| < TWO64 && b == EncodeString(contents, EncodeString(CLOSE, k))
  {
    if ParseFileBody(b, tag, executable, false) == Ok(Regular(executable, contents), k) {
      var c := ParseContents(b, false);
      ContentsIff(b, c.value, c.rest);
      ExpectIff(c.rest, CLOSE, k);
    }
    ContentsIff(b, contents, EncodeString(CLOSE, k));
    ExpectIff(EncodeString(CLOSE, k), CLOSE, k);
  }

  lemma RegularIff(b: bytes, executable: bool, contents: bytes, k: bytes)
    ensures
      var body := EncodeString(CONTENTS, EncodeString(contents, EncodeString(CLOSE, k)));
      (ParseRegular(b, false) == Ok(Regular(executable, contents), k))
        <==> (|contents| < TWO64 && b == if executable then EncodeString(EXECUTABLE, EncodeString([], body)) else body)
  {
    hide ReadString, EncodeString, ParseFileBody;
    TagsDiffer();
    var tail := EncodeString(contents, EncodeString(CLOSE, k));
    var body := EncodeString(CONTENTS, tail);
    if ParseRegular(b, false) == Ok(Regular(executable, contents), k) {
      var r1 := ReadString(b, NAR_MAX_TAG);
      ReadStringIffEncoded(b, NAR_MAX_TAG, r1.value, r1.rest);
      if r1.value == EXECUTABLE {
        var r2 := ReadString(r1.rest, 0);
        ReadStringIffEncoded(r1.rest, 0, r2.value, r2.rest);
        assert r2.value == [];
        var r3 := ReadString(r2.rest, NAR_MAX_TAG);
        ReadStringIffEncoded(r2.rest, NAR_MAX_TAG, r3.value, r3.rest);
        FileBodyIff(r3.rest, r3.value, true, contents, k);
      } else {
        FileBodyIff(r1.rest, r1.value, false, contents, k);
      }
    }
    FileBodyIff(tail, CONTENTS, executable, contents, k);
    ReadStringIffEncoded(body, NAR_MAX_TAG, CONTENTS, tail);
    ReadStringIffEncoded(EncodeString([], body), 0, [], body);
    var flag := EncodeString([], body);
    ReadStringIffEncoded(EncodeString(EXECUTABLE, flag), NAR_MAX_TAG, EXECUTABLE, flag);
  }

  lemma SymlinkIff(b: bytes, target: bytes, k: bytes)
    ensures ParseSymlink(b) == Ok(Symlink(target), k)
       <==> |target| <= NAR_MAX_TARGET && ValidTarget(target)
            && b == EncodeString(TARGET, EncodeString(target, EncodeString(CLOSE, k)))
  {
    var b2 := EncodeString(CLOSE, k);
    var b1 := EncodeString(target, b2);
    if ParseSymlink(b) == Ok(Symlink(target), k) {
      var r1 := Expect(b, TARGET);
      ExpectIff(b, TARGET, r1.rest);
      var r2 := ReadString(r1.rest, NAR_MAX_TARGET);
      ReadStringIffEncoded(r1.rest, NAR_MAX_TARGET, r2.value, r2.rest);
      ExpectIff(r2.rest, CLOSE, k);
    }
    ExpectIff(EncodeString(TARGET, b1), TARGET, b1);
    ReadStringIffEncoded(b1, NAR_MAX_TARGET, target, b2);
    ExpectIff(b2, CLOSE, k);
  }

  lemma EntryNameIff(b: bytes, prevName: bytes, name: bytes, k: bytes)
    ensures ParseEntryName(b, prevName) == Ok(name, k)
       <==> |name| <= NAR_MAX_NAME && ValidName(name) && Less(prevName, name)
            && b == EncodeString(OPEN, EncodeString(NAME, EncodeString(name, EncodeString(NODE, k))))
  {
    var b3 := EncodeString(NODE, k);
    var b2 := EncodeString(name, b3);
    var b1 := EncodeString(NAME, b2);
    if ParseEntryName(b, prevName) == Ok(name, k) {
      var r1 := Expect(b, OPEN);
      ExpectIff(b, OPEN, r1.rest);
      var r2 := Expect(r1.rest, NAME);
      ExpectIff(r1.rest, NAME, r2.rest);
      var r3 := ReadString(r2.rest, NAR_MAX_NAME);
      ReadStringIffEncoded(r2.rest, NAR_MAX_NAME, r3.value, r3.rest);
      ExpectIff(r3.rest, NODE, k);
    }
    ExpectIff(EncodeString(OPEN, b1), OPEN, b1);
    ExpectIff(b1, NAME, b2);
    ReadStringIffEncoded(b2, NAR_MAX_NAME, name, b3);
    ExpectIff(b3, NODE, k);
  }

  /** Soundness: whatever is accepted is the dump of the parsed tree. */
  lemma {:induction false} ParsedNodeIsDump(b: bytes, depth: nat)
    ensures var r := ParseNode(b, depth, false);
            r.Ok? ==> WellFormed(r.value, depth) && b == DumpNode(r.value, r.rest)
    decreases |b|, 0
  {
    hide ReadString, EncodeString, Expect, ParseRegular, ParseSymlink, ParseEntryName;
    var r := ParseNode(b, depth, false);
    if r.Bad? { return; }
    var r1 := Expect(b, OPEN);
    ExpectIff(b, OPEN, r1.rest);
    var r2 := Expect(r1.rest, TYPE);
    ExpectIff(r1.rest, TYPE, r2.rest);
    var r3 := ReadString(r2.rest, NAR_MAX_TAG);
    ReadStringIffEncoded(r2.rest, NAR_MAX_TAG, r3.value, r3.rest);
    if r3.value == REGULAR {
      var Regular(executable, contents) := r.value;
      RegularIff(r3.rest, executable, contents, r.rest);
    } else if r3.value == DIRECTORY {
      ParsedEntriesAreDump(r3.rest, [], depth);
    } else {
      SymlinkIff(r3.rest, r.value.target, r.rest);
    }
  }

  lemma {:induction false} ParsedEntriesAreDump(b: bytes, prevName: bytes, depth: nat)
    ensures var r := ParseEntries(b, prevName, depth, false);
            r.Ok? ==> WellFormedEntries(r.value, prevName, depth)
                      && b == DumpEntries(r.value, EncodeString(CLOSE, r.rest))
    decreases |b|, 1
  {
    hide ReadString, EncodeString, Expect, ParseRegular, ParseSymlink, ParseEntryName;
    if ParseEntries(b, prevName, depth, false).Bad? { return; }
    var r1 := ReadString(b, NAR_MAX_TAG);
    ReadStringIffEncoded(b, NAR_MAX_TAG, r1.value, r1.rest);
    if r1.value != CLOSE {
      var r2 := ParseEntryName(r1.rest, prevName);
      EntryNameIff(r1.rest, prevName, r2.value, r2.rest);
      var r3 := ParseNode(r2.rest, depth + 1, false);
      ParsedNodeIsDump(r2.rest, depth + 1);
      var r4 := Expect(r3.rest, CLOSE);
      ExpectIff(r3.rest, CLOSE, r4.rest);
      ParsedEntriesAreDump(r4.rest, r2.value, depth);
    }
  }

  /** Completeness: the dump of every well-formed tree is accepted. */
  lemma {:induction false} DumpedNodeParses(t: Node, depth: nat, k: bytes)
    requires WellFormed(t, depth)
    ensures ParseNode(DumpNode(t, k), depth, false) == Ok(t, k)
    decreases t
  {
    hide ReadString, EncodeString, Expect, ParseRegular, ParseSymlink, ParseEntryName;
    TagsDiffer();
    var b := DumpNode(t, k);
    match t {
      case Regular(executable, contents) =>
        var body := EncodeString(CONTENTS, EncodeString(contents, EncodeString(CLOSE, k)));
        var b3 := if executable then EncodeString(EXECUTABLE, EncodeString([], body)) else body;
        NodeHeader(REGULAR, b3);
        RegularIff(b3, executable, contents, k);
      case Symlink(target) =>
        var b3 := EncodeString(TARGET, EncodeString(target, EncodeString(CLOSE, k)));
        NodeHeader(SYMLINK, b3);
        SymlinkIff(b3, target, k);
      case Directory(es) =>
        NodeHeader(DIRECTORY, DumpEntries(es, EncodeString(CLOSE, k)));
        DumpedEntriesParse(es, [], depth, k);
    }
  }

  lemma NodeHeader(kind: bytes, k: bytes)
    requires |kind| <= NAR_MAX_TAG
    ensures
      var b2 := EncodeString(kind, k);
      var b1 := EncodeString(TYPE, b2);
      && Expect(EncodeString(OPEN, b1), OPEN) == Ok(OPEN, b1)
      && Expect(b1, TYPE) == Ok(TYPE, b2)
      && ReadString(b2, NAR_MAX_TAG) == Ok(kind, k)
  {
    var b2 := EncodeString(kind, k);
    var b1 := EncodeString(TYPE, b2);
    ExpectIff(EncodeString(OPEN, b1), OPEN, b1);
    ExpectIff(b1, TYPE, b2);
    ReadStringIffEncoded(b2, NAR_MAX_TAG, kind, k);
  }

  lemma {:induction false} DumpedEntriesParse(es: Entries, prevName: bytes, depth: nat, k: bytes)
    requires WellFormedEntries(es, prevName, depth)
    ensures ParseEntries(DumpEntries(es, EncodeString(CLOSE, k)), prevName, depth, false) == Ok(es, k)
    decreases es
  {
    TagsDiffer();
    match es {
      case NoEntries =>
        ReadStringIffEncoded(EncodeString(CLOSE, k), NAR_MAX_TAG, CLOSE, k);
      case Entry(name, node, others) =>
        var b4 := DumpEntries(others, EncodeString(CLOSE, k));
        var b3 := EncodeString(CLOSE, b4);
        var b2 := DumpNode(node, b3);
        var b1 := EncodeString(OPEN, EncodeString(NAME, EncodeString(name, EncodeString(NODE, b2))));
        ReadStringIffEncoded(EncodeString(ENTRY, b1), NAR_MAX_TAG, ENTRY, b1);
        EntryNameIff(b1, prevName, name, b2);
        DumpedNodeParses(node, depth + 1, b3);
        ExpectIff(b3, CLOSE, b4);
        DumpedEntriesParse(others, name, depth, k);
    }
  }

  /** The codec theorem, both directions, for every input and every rest. */
  lemma ParseDumpIff(b: bytes, t: Node, k: bytes)
    ensures ParseDump(b, false) == Ok(t, k) <==> WellFormed(t, 0) && b == Dump(t, k)
  {
    if ParseDump(b, false) == Ok(t, k) {
      var r := ReadString(b, |VERSION_MAGIC|);
      ReadStringIffEncoded(b, |VERSION_MAGIC|, r.value, r.rest);
      ParsedNodeIsDump(r.rest, 0);
    }
    if WellFormed(t, 0) && b == Dump(t, k) {
      ReadStringIffEncoded(b, |VERSION_MAGIC|, VERSION_MAGIC, DumpNode(t, k));
      DumpedNodeParses(t, 0, k);
    }
  }

  /** Injective and prefix-free: a stream starts with at most one archive. */
  lemma DumpPrefixFree(t1: Node, k1: bytes, t2: Node, k2: bytes)
    requires WellFormed(t1, 0) && WellFormed(t2, 0)
    requires Dump(t1, k1) == Dump(t2, k2)
    ensures t1 == t2 && k1 == k2
  {
    ParseDumpIff(Dump(t1, k1), t1, k1);
    ParseDumpIff(Dump(t1, k1), t2, k2);
  }

  // ---------------------------------------------------------------------
  // The smallest archive, byte by byte.

  /** A length below 256, the characters, and as many zeros. */
  function Padded(s: string, zeros: nat): bytes {
    [|s| % 256, 0, 0, 0, 0, 0, 0, 0] + Ascii(s) + Zeros(zeros)
  }

  lemma {:induction false} ZeroNum(width: nat)
    ensures LittleEndian(0, width) == Zeros(width)
  {
    if width > 0 {
      ZeroNum(width - 1);
    }
  }

  lemma EncodePadded(s: string, zeros: nat, k: bytes)
    requires |s| < 256 && zeros == PadLength(|s|)
    ensures EncodeString(Ascii(s), k) == Padded(s, zeros) + k
  {
    var n: nat := |s|;
    ZeroNum(7);
    assert n / 256 == 0 && n % 256 == n;
    assert LittleEndian(n, 8) == [n] + Zeros(7);
    assert EncodeNum(n) == [n, 0, 0, 0, 0, 0, 0, 0];
  }

  /** The archive of an executable empty file. */
  lemma EmptyFileArchive()
    ensures Dump(Regular(true, []), []) ==
            Padded("nix-archive-1", 3) + (Padded("(", 7) + (Padded("type", 4) + (Padded("regular", 1)
              + (Padded("executable", 6) + (Padded("", 0)
              + (Padded("contents", 0) + (Padded("", 0) + (Padded(")", 7) + []))))))))
  {
    hide EncodeString, Padded;
    assert Ascii("") == [];
    EncodePadded(")", 7, []);
    var k8 := Padded(")", 7) + [];
    EncodePadded("", 0, k8);
    var k7 := Padded("", 0) + k8;
    EncodePadded("contents", 0, k7);
    var k6 := Padded("contents", 0) + k7;
    EncodePadded("", 0, k6);
    var k5 := Padded("", 0) + k6;
    EncodePadded("executable", 6, k5);
    var k4 := Padded("executable", 6) + k5;
    EncodePadded("regular", 1, k4);
    var k3 := Padded("regular", 1) + k4;
    EncodePadded("type", 4, k3);
    var k2 := Padded("type", 4) + k3;
    EncodePadded("(", 7, k2);
    EncodePadded("nix-archive-1", 3, Padded("(", 7) + k2);
  }

  /** The archive of a directory with a link in it. */
  lemma LinkInDirectoryArchive()
    ensures Dump(Directory(Entry(Ascii("a"), Symlink(Ascii("b")), NoEntries)), []) ==
            Padded("nix-archive-1", 3) + (Padded("(", 7) + (Padded("type", 4) + (Padded("directory", 7)
              + (Padded("entry", 3) + (Padded("(", 7) + (Padded("name", 4) + (Padded("a", 7) + (Padded("node", 4)
              + (Padded("(", 7) + (Padded("type", 4) + (Padded("symlink", 1)
              + (Padded("target", 2) + (Padded("b", 7)
              + (Padded(")", 7) + (Padded(")", 7) + (Padded(")", 7) + []))))))))))))))))
  {
    hide EncodeString, Padded;
    EncodePadded(")", 7, []);
    var end := Padded(")", 7) + [];
    EncodePadded(")", 7, end);
    var k1 := Padded(")", 7) + end;
    EncodePadded(")", 7, k1);
    var k2 := Padded(")", 7) + k1;
    EncodePadded("b", 7, k2);
    var k3 := Padded("b", 7) + k2;
    EncodePadded("target", 2, k3);
    var k4 := Padded("target", 2) + k3;
    EncodePadded("symlink", 1, k4);
    var k5 := Padded("symlink", 1) + k4;
    EncodePadded("type", 4, k5);
    var k6 := Padded("type", 4) + k5;
    EncodePadded("(", 7, k6);
    var k7 := Padded("(", 7) + k6;
    EncodePadded("node", 4, k7);
    var k8 := Padded("node", 4) + k7;
    EncodePadded("a", 7, k8);
    var k9 := Padded("a", 7) + k8;
    EncodePadded("name", 4, k9);
    var k10 := Padded("name", 4) + k9;
    EncodePadded("(", 7, k10);
    var k11 := Padded("(", 7) + k10;
    EncodePadded("entry", 3, k11);
    var k12 := Padded("entry", 3) + k11;
    EncodePadded("directory", 7, k12);
    var k13 := Padded("directory", 7) + k12;
    EncodePadded("type", 4, k13);
    var k14 := Padded("type", 4) + k13;
    EncodePadded("(", 7, k14);
    EncodePadded("nix-archive-1", 3, Padded("(", 7) + k14);
    assert DumpNode(Symlink(Ascii("b")), k1) == k7;
    assert DumpEntries(NoEntries, end) == end;
    assert DumpEntries(Entry(Ascii("a"), Symlink(Ascii("b")), NoEntries), end) == k12;
  }
}
