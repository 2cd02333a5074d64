/** Skip mode of the NAR parser (`skipContents`, as used by importPaths), the
    shape of a dump's bytes, and the link to content addressing modulo
    self-references. */
module NarProperties {
  import opened Bytes
  import opened Serialise
  import opened Nar
  import opened SelfReferences

  // ---------------------------------------------------------------------
  // Skip mode.

  /** What a sink learns when it asks for no contents. */
  function WithoutContents(t: Node): Node {
    match t
    case Regular(executable, _) => Regular(executable, [])
    case Symlink(target) => t
    case Directory(es) => Directory(EntriesWithoutContents(es))
  }

  function EntriesWithoutContents(es: Entries): Entries {
    match es
    case NoEntries => NoEntries
    case Entry(name, node, others) => Entry(name, WithoutContents(node), EntriesWithoutContents(others))
  }

  /** `alignUp(size, 8)` does not overflow for any file. */
  predicate Skippable(t: Node) {
    match t
    case Regular(_, contents) => |contents| <= TWO64 - 8
    case Symlink(_) => true
    case Directory(es) => SkippableEntries(es)
  }

  predicate SkippableEntries(es: Entries) {
    match es
    case NoEntries => true
    case Entry(_, node, others) => Skippable(node) && SkippableEntries(others)
  }

  lemma ContentsSkip(b: bytes)
    ensures var full, skip := ParseContents(b, false), ParseContents(b, true);
      full.Ok? ==> if |full.value| <= TWO64 - 8 then skip == Ok([], full.rest) else skip.Bad?
  {
    if ParseContents(b, false).Ok? {
      var r1 := ReadNum(b);
      var r2 := ReadBytes(r1.rest, r1.value);
      assert r1.rest[r1.value + PadLength(r1.value)..] == r2.rest[PadLength(r1.value)..];
    }
  }

  lemma RegularSkip(b: bytes)
    ensures var full, skip := ParseRegular(b, false), ParseRegular(b, true);
      full.Ok? ==> if Skippable(full.value) then skip == Ok(WithoutContents(full.value), full.rest) else skip.Bad?
  {
    hide ReadString, ParseContents;
    if ParseRegular(b, false).Bad? { return; }
    var r1 := ReadString(b, NAR_MAX_TAG);
    if r1.value == EXECUTABLE {
      var r3 := ReadString(ReadString(r1.rest, 0).rest, NAR_MAX_TAG);
      ContentsSkip(r3.rest);
    } else {
      ContentsSkip(r1.rest);
    }
  }

  /** Whenever a full parse accepts, skipping consumes exactly the same bytes,
      unless a file is so large that its padded size overflows. */
  lemma {:induction false} NodeSkip(b: bytes, depth: nat)
    ensures var full, skip := ParseNode(b, depth, false), ParseNode(b, depth, true);
      full.Ok? ==> if Skippable(full.value) then skip == Ok(WithoutContents(full.value), full.rest) else skip.Bad?
    decreases |b|, 0
  {
    hide ReadString, Expect, ParseRegular, ParseSymlink, ParseEntryName;
    if ParseNode(b, depth, false).Bad? { return; }
    var r3 := ReadString(Expect(Expect(b, OPEN).rest, TYPE).rest, NAR_MAX_TAG);
    if r3.value == REGULAR {
      RegularSkip(r3.rest);
    } else if r3.value == DIRECTORY {
      EntriesSkip(r3.rest, [], depth);
    }
  }

  lemma {:induction false} EntriesSkip(b: bytes, prevName: bytes, depth: nat)
    ensures var full, skip := ParseEntries(b, prevName, depth, false), ParseEntries(b, prevName, depth, true);
      full.Ok? ==>
        if SkippableEntries(full.value) then skip == Ok(EntriesWithoutContents(full.value), full.rest) else skip.Bad?
    decreases |b|, 1
  {
    hide ReadString, Expect, ParseRegular, ParseSymlink, ParseEntryName;
    if ParseEntries(b, prevName, depth, false).Bad? { return; }
    var r1 := ReadString(b, NAR_MAX_TAG);
    if r1.value != CLOSE {
      var r2 := ParseEntryName(r1.rest, prevName);
      var r3 := ParseNode(r2.rest, depth + 1, false);
      NodeSkip(r2.rest, depth + 1);
      EntriesSkip(Expect(r3.rest, CLOSE).rest, r2.value, depth);
    }
  }

  /** On the dump of a tree, skip mode stops exactly at its end. */
  lemma SkipConsumesDump(t: Node, k: bytes)
    requires WellFormed(t, 0)
    ensures ParseDump(Dump(t, k), true) == if Skippable(t) then Ok(WithoutContents(t), k) else Bad
  {
    ParseDumpIff(Dump(t, k), t, k);
    var r := ReadString(Dump(t, k), |VERSION_MAGIC|);
    NodeSkip(r.rest, 0);
  }

  /** The file's padding is zero, where skip mode passes over it. */
  predicate ContentsPadded(b: bytes) {
    ParseContents(b, true).Ok? ==>
      var r := ReadNum(b);
      r.rest[r.value..r.value + PadLength(r.value)] == Zeros(PadLength(r.value))
  }

  predicate RegularPadded(b: bytes) {
    ParseRegular(b, true).Ok? ==>
      var r := ReadString(b, NAR_MAX_TAG);
      ContentsPadded(if r.value == EXECUTABLE then ReadString(ReadString(r.rest, 0).rest, NAR_MAX_TAG).rest else r.rest)
  }

  /** Along a parse in skip mode, the padding of every file is zero. */
  predicate PaddingZero(b: bytes, depth: nat)
    decreases |b|, 0
  {
    ParseNode(b, depth, true).Ok? ==>
      var kind := ReadString(Expect(Expect(b, OPEN).rest, TYPE).rest, NAR_MAX_TAG);
      if kind.value == REGULAR then RegularPadded(kind.rest)
      else kind.value == DIRECTORY ==> EntriesPadded(kind.rest, [], depth)
  }

  predicate EntriesPadded(b: bytes, prevName: bytes, depth: nat)
    decreases |b|, 1
  {
    ParseEntries(b, prevName, depth, true).Ok? ==>
      var r := ReadString(b, NAR_MAX_TAG);
      r.value != CLOSE ==>
        var name := ParseEntryName(r.rest, prevName);
        var node := ParseNode(name.rest, depth + 1, true);
        PaddingZero(name.rest, depth + 1) && EntriesPadded(Expect(node.rest, CLOSE).rest, name.value, depth)
  }

  lemma ContentsSkipIff(b: bytes)
    ensures var full := ParseContents(b, false);
            (full.Ok? && |full.value| <= TWO64 - 8) <==> ParseContents(b, true).Ok? && ContentsPadded(b)
  {
    var r := ReadNum(b);
    if r.Ok? && |r.rest| >= r.value + PadLength(r.value) {
      assert r.rest[r.value..][..PadLength(r.value)] == r.rest[r.value..r.value + PadLength(r.value)];
    }
  }

  lemma RegularSkipIff(b: bytes)
    ensures var full := ParseRegular(b, false);
            (full.Ok? && Skippable(full.value)) <==> ParseRegular(b, true).Ok? && RegularPadded(b)
  {
    hide ReadString, ParseContents, ContentsPadded, Expect;
    RegularSkip(b);
    if ParseRegular(b, true).Bad? && ParseRegular(b, false).Bad? { return; }
    var r1 := ReadString(b, NAR_MAX_TAG);
    var body := if r1.value == EXECUTABLE then ReadString(ReadString(r1.rest, 0).rest, NAR_MAX_TAG).rest else r1.rest;
    ContentsSkipIff(body);
    ContentsSkip(body);
  }

  /** Exactly when skip mode accepts what a full parse accepts: the padding it
      does not look at is zero, and no padded size overflows. */
  lemma {:induction false} NodeSkipIff(b: bytes, depth: nat)
    ensures var full := ParseNode(b, depth, false);
            (full.Ok? && Skippable(full.value)) <==> ParseNode(b, depth, true).Ok? && PaddingZero(b, depth)
    decreases |b|, 0
  {
    hide ReadString, Expect, ParseRegular, ParseSymlink, ParseEntryName, RegularPadded;
    NodeSkip(b, depth);
    if ParseNode(b, depth, true).Bad? && ParseNode(b, depth, false).Bad? { return; }
    var r := ReadString(Expect(Expect(b, OPEN).rest, TYPE).rest, NAR_MAX_TAG);
    if r.value == REGULAR {
      RegularSkipIff(r.rest);
    } else if r.value == DIRECTORY {
      EntriesSkipIff(r.rest, [], depth);
    }
  }

  lemma {:induction false} EntriesSkipIff(b: bytes, prevName: bytes, depth: nat)
    ensures var full := ParseEntries(b, prevName, depth, false);
            (full.Ok? && SkippableEntries(full.value))
              <==> ParseEntries(b, prevName, depth, true).Ok? && EntriesPadded(b, prevName, depth)
    decreases |b|, 1
  {
    hide ReadString, Expect, ParseEntryName, ParseNode, PaddingZero, Skippable, WithoutContents;
    if ParseEntries(b, prevName, depth, true).Bad? {
      EntriesSkip(b, prevName, depth);
      return;
    }
    var r1 := ReadString(b, NAR_MAX_TAG);
    if r1.value != CLOSE {
      var r2 := ParseEntryName(r1.rest, prevName);
      NodeSkip(r2.rest, depth + 1);
      NodeSkipIff(r2.rest, depth + 1);
      var after := Expect(ParseNode(r2.rest, depth + 1, true).rest, CLOSE).rest;
      EntriesSkipIff(after, r2.value, depth);
    }
  }

  /** The same for a whole archive; then both modes stop at the same byte. */
  lemma SkipIff(b: bytes)
    ensures var full, skip := ParseDump(b, false), ParseDump(b, true);
            && ((full.Ok? && Skippable(full.value))
                  <==> skip.Ok? && PaddingZero(ReadString(b, |VERSION_MAGIC|).rest, 0))
            && (full.Ok? && Skippable(full.value) ==> skip == Ok(WithoutContents(full.value), full.rest))
  {
    var r := ReadString(b, |VERSION_MAGIC|);
    hide ReadString;
    if r.Ok? {
      NodeSkip(r.rest, 0);
      NodeSkipIff(r.rest, 0);
    }
  }

  /** A file whose padding is not zero. */
  lemma SkipAcceptsNonZeroPadding()
    ensures
      var tail := EncodeString(CLOSE, []);
      var contents := EncodeNum(1) + ([7] + ([9, 0, 0, 0, 0, 0, 0] + tail));
      var b := EncodeString(OPEN, EncodeString(TYPE, EncodeString(REGULAR, EncodeString(CONTENTS, contents))));
      ParseNode(b, 0, true).Ok? && ParseNode(b, 0, false).Bad?
  {
    hide EncodeString, ReadString, ReadNum, ParseContents;
    var tail := EncodeString(CLOSE, []);
    var contents := EncodeNum(1) + ([7] + ([9, 0, 0, 0, 0, 0, 0] + tail));
    TagsDiffer();
    NodeHeader(REGULAR, EncodeString(CONTENTS, contents));
    ReadStringIffEncoded(EncodeString(CONTENTS, contents), NAR_MAX_TAG, CONTENTS, contents);
    var junk: bytes := [9, 0, 0, 0, 0, 0, 0];
    assert junk[0] != Zeros(7)[0];
    OneByteFile(7, junk, tail);
    ExpectIff(tail, CLOSE, []);
  }

  lemma OneByteFile(c: byte, padding: bytes, k: bytes)
    requires |padding| == 7 && padding != Zeros(7)
    ensures ParseContents(EncodeNum(1) + ([c] + (padding + k)), true) == Ok([], k)
    ensures ParseContents(EncodeNum(1) + ([c] + (padding + k)), false).Bad?
  {
    var file := [c] + (padding + k);
    ReadNumIffEncoded(EncodeNum(1) + file, 1, file);
    hide ReadNum;
    assert PadLength(1) == 7;
    assert file[8..] == k;
    assert file[1..] == padding + k && (padding + k)[..7] == padding;
  }

  // ---------------------------------------------------------------------
  // The bytes of a dump.

  /** A dump is a block of bytes of its own, followed by the rest. */
  lemma {:induction false} DumpNodeThen(t: Node, k: bytes)
    ensures DumpNode(t, k) == DumpNode(t, []) + k
  {
    hide EncodeString;
    match t {
      case Regular(executable, contents) =>
        EncodeThen3(CONTENTS, contents, CLOSE, k);
        var body := EncodeString(CONTENTS, EncodeString(contents, EncodeString(CLOSE, [])));
        if executable {
          EncodeThen2(EXECUTABLE, [], body, k);
          EncodeThen3k(OPEN, TYPE, REGULAR, EncodeString(EXECUTABLE, EncodeString([], body)), k);
        } else {
          EncodeThen3k(OPEN, TYPE, REGULAR, body, k);
        }
      case Symlink(target) =>
        EncodeThen3(TARGET, target, CLOSE, k);
        EncodeThen3k(OPEN, TYPE, SYMLINK, EncodeString(TARGET, EncodeString(target, EncodeString(CLOSE, []))), k);
      case Directory(es) =>
        DumpEntriesThen(es, EncodeString(CLOSE, []), k);
        EncodeThen(CLOSE, [], k);
        assert [] + k == k;
        EncodeThen3k(OPEN, TYPE, DIRECTORY, DumpEntries(es, EncodeString(CLOSE, [])), k);
    }
  }

  lemma EncodeThen2(a: bytes, b: bytes, j: bytes, k: bytes)
    ensures EncodeString(a, EncodeString(b, j)) + k == EncodeString(a, EncodeString(b, j + k))
  {
    EncodeThen(b, j, k);
    EncodeThen(a, EncodeString(b, j), k);
  }

  lemma EncodeThen3(a: bytes, b: bytes, c: bytes, k: bytes)
    ensures EncodeString(a, EncodeString(b, EncodeString(c, []))) + k
         == EncodeString(a, EncodeString(b, EncodeString(c, k)))
  {
    EncodeThen3k(a, b, c, [], k);
    assert [] + k == k;
  }

  lemma EncodeThen3k(a: bytes, b: bytes, c: bytes, j: bytes, k: bytes)
    ensures EncodeString(a, EncodeString(b, EncodeString(c, j))) + k
         == EncodeString(a, EncodeString(b, EncodeString(c, j + k)))
  {
    EncodeThen(c, j, k);
    EncodeThen2(a, b, EncodeString(c, j), k);
  }

  lemma {:induction false} DumpEntriesThen(es: Entries, j: bytes, k: bytes)
    ensures DumpEntries(es, j) + k == DumpEntries(es, j + k)
  {
    hide EncodeString;
    match es {
      case NoEntries =>
      case Entry(name, node, others) =>
        var after := EncodeString(CLOSE, DumpEntries(others, j));
        DumpEntriesThen(others, j, k);
        EncodeThen(CLOSE, DumpEntries(others, j), k);
        DumpNodeThen(node, after);
        DumpNodeThen(node, after + k);
        assert (DumpNode(node, []) + after) + k == DumpNode(node, []) + (after + k);
        EncodeThen2(name, NODE, DumpNode(node, after), k);
        EncodeThen3k(ENTRY, OPEN, NAME, EncodeString(name, EncodeString(NODE, DumpNode(node, after))), k);
    }
  }

  lemma EncodeKeepsFinalNul(s: bytes, k: bytes)
    requires EndsInNul(k)
    ensures EndsInNul(EncodeString(s, k))
  {
  }

  /** Every archive ends in NUL: the closing tag is padded. */
  lemma DumpEndsInNul(t: Node)
    ensures EndsInNul(Dump(t, []))
  {
    var close := EncodeString(CLOSE, []);
    assert close[|close| - 1] == NUL;
    hide EncodeString, EndsInNul;
    match t {
      case Regular(executable, contents) =>
        EncodeKeepsFinalNul(contents, close);
        var body := EncodeString(CONTENTS, EncodeString(contents, close));
        EncodeKeepsFinalNul(CONTENTS, EncodeString(contents, close));
        EncodeKeepsFinalNul([], body);
        EncodeKeepsFinalNul(EXECUTABLE, EncodeString([], body));
        HeaderKeepsFinalNul(REGULAR, if executable then EncodeString(EXECUTABLE, EncodeString([], body)) else body);
      case Symlink(target) =>
        EncodeKeepsFinalNul(target, close);
        EncodeKeepsFinalNul(TARGET, EncodeString(target, close));
        HeaderKeepsFinalNul(SYMLINK, EncodeString(TARGET, EncodeString(target, close)));
      case Directory(es) =>
        EntriesKeepFinalNul(es, close);
        HeaderKeepsFinalNul(DIRECTORY, DumpEntries(es, close));
    }
  }

  lemma HeaderKeepsFinalNul(kind: bytes, k: bytes)
    requires EndsInNul(k)
    ensures EndsInNul(EncodeString(VERSION_MAGIC, EncodeString(OPEN, EncodeString(TYPE, EncodeString(kind, k)))))
  {
    hide EncodeString, EndsInNul;
    var b2 := EncodeString(kind, k);
    var b1 := EncodeString(TYPE, b2);
    EncodeKeepsFinalNul(kind, k);
    EncodeKeepsFinalNul(TYPE, b2);
    EncodeKeepsFinalNul(OPEN, b1);
    EncodeKeepsFinalNul(VERSION_MAGIC, EncodeString(OPEN, b1));
  }

  lemma EntriesKeepFinalNul(es: Entries, k: bytes)
    requires EndsInNul(k)
    ensures EndsInNul(DumpEntries(es, k))
  {
    hide DumpEntries;
    DumpEntriesThen(es, [], k);
    assert [] + k == k;
  }

  /** Two trees are never hashed from the same bytes, whatever the modulus:
      self-references that are present and ones already zeroed do not collide. */
  lemma SelfReferencesDoNotCollide(t1: Node, t2: Node, modulus: bytes)
    requires WellFormed(t1, 0) && WellFormed(t2, 0)
    requires PreImage(Dump(t1, []), modulus) == PreImage(Dump(t2, []), modulus)
    ensures t1 == t2
  {
    hide Dump, PreImage;
    DumpEndsInNul(t1);
    DumpEndsInNul(t2);
    PreImageInjective(Dump(t1, []), Dump(t2, []), modulus);
    DumpPrefixFree(t1, [], t2, []);
  }
}
