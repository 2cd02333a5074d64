/** The closure stream of `exportPaths` and `importPaths`
    (src/libstore/export-import.cc): archives interleaved with their metadata,
    references before referrers. */
module ExportImport {
  import opened Bytes
  import opened Finite
  import opened Serialise
  import opened Nar
  import opened NarProperties
  import opened StoreDb

  /** `exportMagic`. */
  const MAGIC: nat := 0x4558494e

  const MAX_STRING: nat := TWO64 - 1

  /** `printStorePath` and `parseStorePath` of a store directory. */
  datatype Names = Names(text: StorePath -> bytes, parse: bytes -> Option<StorePath>) {
    ghost predicate Lawful() {
      forall p :: parse(text(p)) == Some(p) && text(p) != [] && |text(p)| <= MAX_STRING
    }
  }

  /** What is written for one path. */
  datatype Record = Record(path: StorePath, nar: Node, refs: seq<StorePath>, deriver: Option<StorePath>)

  /** What is read for one path: `nar` is the archive, byte for byte. */
  datatype Imported = Imported(path: StorePath, nar: bytes, refs: set<StorePath>, deriver: Option<StorePath>)

  function Received(r: Record): Imported {
    Imported(r.path, Dump(r.nar, []), Elements(r.refs), r.deriver)
  }

  // ---------------------------------------------------------------------
  // The writer. `k` is what follows.

  function EncodePaths(names: Names, ps: seq<StorePath>, k: bytes): bytes {
    if ps == [] then k else EncodeString(names.text(ps[0]), EncodePaths(names, ps[1..], k))
  }

  function EncodeDeriver(names: Names, deriver: Option<StorePath>): bytes {
    if deriver.Some? then names.text(deriver.value) else []
  }

  function EncodeTrailer(names: Names, r: Record, k: bytes): bytes {
    EncodeNum(MAGIC) + EncodeString(names.text(r.path),
      EncodeNum(|r.refs|) + EncodePaths(names, r.refs, EncodeString(EncodeDeriver(names, r.deriver), EncodeNum(0) + k)))
  }

  function EncodeStream(names: Names, rs: seq<Record>, k: bytes): bytes {
    if rs == [] then EncodeNum(0) + k
    else EncodeNum(1) + Dump(rs[0].nar, EncodeTrailer(names, rs[0], EncodeStream(names, rs[1..], k)))
  }

  // ---------------------------------------------------------------------
  // The reader.

  function ReadPath(names: Names, b: bytes): (r: Parsed<StorePath>)
    ensures r.Ok? ==> |r.rest| < |b|
  {
    var (s, b1) :- ReadString(b, MAX_STRING);
    var p := names.parse(s);
    if p.Some? then Ok(p.value, b1) else Bad
  }

  function ReadPaths(names: Names, b: bytes, count: nat): (r: Parsed<set<StorePath>>)
    ensures r.Ok? ==> |r.rest| <= |b|
  {
    if count == 0 then Ok({}, b) else
    var (p, b1) :- ReadPath(names, b);
    var (ps, b2) :- ReadPaths(names, b1, count - 1);
    Ok({p} + ps, b2)
  }

  function ReadDeriver(names: Names, b: bytes): (r: Parsed<Option<StorePath>>)
    ensures r.Ok? ==> |r.rest| < |b|
  {
    var (s, b1) :- ReadString(b, MAX_STRING);
    if s == [] then Ok(None, b1) else
    var p := names.parse(s);
    if p.Some? then Ok(p, b1) else Bad
  }

  /** The optional legacy signature, which is ignored. */
  function ReadSignature(b: bytes): (r: Parsed<()>)
    ensures r.Ok? ==> |r.rest| < |b|
  {
    var (n, b1) :- ReadNum(b);
    if n >= 0x1_0000_0000 then Bad else
    if n != 1 then Ok((), b1) else
    var (_, b2) :- ReadString(b1, MAX_STRING);
    Ok((), b2)
  }

  function ReadTrailer(names: Names, nar: bytes, b: bytes): (r: Parsed<Imported>)
    ensures r.Ok? ==> |r.rest| < |b|
  {
    var (magic, b1) :- ReadNum(b);
    if magic != MAGIC then Bad else
    var (path, b2) :- ReadPath(names, b1);
    var (count, b3) :- ReadNum(b2);
    var (refs, b4) :- ReadPaths(names, b3, count);
    var (deriver, b5) :- ReadDeriver(names, b4);
    var (_, b6) :- ReadSignature(b5);
    Ok(Imported(path, nar, refs, deriver), b6)
  }

  /** The archive is passed over in skip mode while its bytes are saved. */
  function ReadRecord(names: Names, b: bytes): (r: Parsed<Imported>)
    ensures r.Ok? ==> |r.rest| < |b|
  {
    var (_, b1) :- ParseDump(b, true);
    ReadTrailer(names, b[..|b| - |b1|], b1)
  }

  function ReadStream(names: Names, b: bytes): (r: Parsed<seq<Imported>>)
    ensures r.Ok? ==> |r.rest| < |b|
    decreases |b|
  {
    var (n, b1) :- ReadNum(b);
    if n == 0 then Ok([], b1) else
    if n != 1 then Bad else
    var (r, b2) :- ReadRecord(names, b1);
    var (rs, b3) :- ReadStream(names, b2);
    Ok([r] + rs, b3)
  }

  // ---------------------------------------------------------------------
  // Reading recovers what was written.

  /** What a stream can hold: archives the parser accepts, no larger than a
      64-bit size can say. */
  predicate Fits(r: Record) {
    WellFormed(r.nar, 0) && Skippable(r.nar) && |r.refs| < TWO64
  }

  lemma {:induction false} PathsRead(names: Names, ps: seq<StorePath>, k: bytes)
    requires names.Lawful()
    ensures ReadPaths(names, EncodePaths(names, ps, k), |ps|) == Ok(Elements(ps), k)
  {
    if ps == [] {
      assert Elements(ps) == {};
    } else {
      PathsRead(names, ps[1..], k);
      ReadStringIffEncoded(EncodePaths(names, ps, k), MAX_STRING, names.text(ps[0]), EncodePaths(names, ps[1..], k));
      assert names.parse(names.text(ps[0])) == Some(ps[0]);
      assert Elements(ps) == {ps[0]} + Elements(ps[1..]);
    }
  }

  lemma TrailerRead(names: Names, nar: bytes, r: Record, k: bytes)
    requires names.Lawful() && |r.refs| < TWO64
    ensures ReadTrailer(names, nar, EncodeTrailer(names, r, k)) ==
            Ok(Imported(r.path, nar, Elements(r.refs), r.deriver), k)
  {
    hide ReadNum, EncodeNum, EncodeString, ReadString, EncodePaths, ReadPaths;
    var b6 := EncodeNum(0) + k;
    var b5 := EncodeString(EncodeDeriver(names, r.deriver), b6);
    var b4 := EncodePaths(names, r.refs, b5);
    var b3 := EncodeNum(|r.refs|) + b4;
    var b2 := EncodeString(names.text(r.path), b3);
    ReadNumIffEncoded(EncodeTrailer(names, r, k), MAGIC, b2);
    ReadStringIffEncoded(b2, MAX_STRING, names.text(r.path), b3);
    assert names.parse(names.text(r.path)) == Some(r.path);
    ReadNumIffEncoded(b3, |r.refs|, b4);
    PathsRead(names, r.refs, b5);
    assert r.deriver.Some? ==> names.parse(names.text(r.deriver.value)) == Some(r.deriver.value);
    ReadStringIffEncoded(b5, MAX_STRING, EncodeDeriver(names, r.deriver), b6);
    ReadNumIffEncoded(b6, 0, k);
  }

  lemma RecordRead(names: Names, r: Record, k: bytes)
    requires names.Lawful() && Fits(r)
    ensures ReadRecord(names, Dump(r.nar, EncodeTrailer(names, r, k))) == Ok(Received(r), k)
  {
    hide EncodeTrailer, ReadTrailer, ParseNode, DumpNode, EncodeString;
    var b1 := EncodeTrailer(names, r, k);
    var b := Dump(r.nar, b1);
    SkipConsumesDump(r.nar, b1);
    DumpThen(r.nar, b1);
    assert b[..|b| - |b1|] == Dump(r.nar, []);
    TrailerRead(names, Dump(r.nar, []), r, k);
    hide Dump, ParseDump;
  }

  lemma DumpThen(t: Node, k: bytes)
    ensures Dump(t, k) == Dump(t, []) + k
  {
    DumpNodeThen(t, k);
    EncodeThen(VERSION_MAGIC, DumpNode(t, []), k);
  }

  /** The import loop recovers the sequence of paths, archives, references and
      derivers, and stops where the stream ends. */
  lemma {:induction false} StreamRead(names: Names, rs: seq<Record>, k: bytes)
    requires names.Lawful() && forall r | r in rs :: Fits(r)
    ensures ReadStream(names, EncodeStream(names, rs, k)) ==
            Ok(seq(|rs|, i requires 0 <= i < |rs| => Received(rs[i])), k)
  {
    hide ReadNum, EncodeNum, ReadRecord, EncodeTrailer, Dump, Fits;
    var all := seq(|rs|, i requires 0 <= i < |rs| => Received(rs[i]));
    if rs == [] {
      ReadNumIffEncoded(EncodeStream(names, rs, k), 0, k);
      assert all == [];
    } else {
      var rest := EncodeStream(names, rs[1..], k);
      var b1 := Dump(rs[0].nar, EncodeTrailer(names, rs[0], rest));
      ReadNumIffEncoded(EncodeStream(names, rs, k), 1, b1);
      RecordRead(names, rs[0], rest);
      StreamRead(names, rs[1..], k);
      assert all == [Received(rs[0])] + seq(|rs[1..]|, i requires 0 <= i < |rs[1..]| => Received(rs[1..][i]));
    }
  }

  // ---------------------------------------------------------------------
  // A stream is a row of blocks, one for each record, and an end mark.

  function Block(names: Names, r: Record): bytes {
    EncodeNum(1) + Dump(r.nar, EncodeTrailer(names, r, []))
  }

  function Blocks(names: Names, rs: seq<Record>): bytes {
    if rs == [] then [] else Blocks(names, rs[..|rs| - 1]) + Block(names, rs[|rs| - 1])
  }

  lemma {:induction false} PathsAppend(names: Names, ps: seq<StorePath>, j: bytes, k: bytes)
    ensures EncodePaths(names, ps, j + k) == EncodePaths(names, ps, j) + k
  {
    hide EncodeString;
    if ps != [] {
      PathsAppend(names, ps[1..], j, k);
      EncodeThen(names.text(ps[0]), EncodePaths(names, ps[1..], j), k);
    }
  }

  lemma TrailerThen(names: Names, r: Record, k: bytes)
    ensures EncodeTrailer(names, r, k) == EncodeTrailer(names, r, []) + k
  {
    hide EncodeString, EncodePaths, EncodeNum;
    var j6 := EncodeNum(0) + [];
    assert EncodeNum(0) + k == j6 + k;
    var j5 := EncodeString(EncodeDeriver(names, r.deriver), j6);
    EncodeThen(EncodeDeriver(names, r.deriver), j6, k);
    PathsAppend(names, r.refs, j5, k);
    var j3 := EncodeNum(|r.refs|) + EncodePaths(names, r.refs, j5);
    assert EncodeNum(|r.refs|) + EncodePaths(names, r.refs, j5 + k) == j3 + k;
    EncodeThen(names.text(r.path), j3, k);
  }

  lemma BlockThen(names: Names, r: Record, k: bytes)
    ensures EncodeNum(1) + Dump(r.nar, EncodeTrailer(names, r, k)) == Block(names, r) + k
  {
    hide EncodeTrailer, Dump, EncodeNum;
    TrailerThen(names, r, k);
    DumpThen(r.nar, EncodeTrailer(names, r, k));
    DumpThen(r.nar, EncodeTrailer(names, r, []));
  }

  lemma FirstBlock(names: Names, r: Record, others: seq<Record>, k: bytes)
    ensures EncodeStream(names, [r] + others, k) == Block(names, r) + EncodeStream(names, others, k)
  {
    hide Block, EncodeTrailer, Dump, EncodeNum;
    assert ([r] + others)[1..] == others;
    BlockThen(names, r, EncodeStream(names, others, k));
  }

  lemma {:induction false} StreamFromBlocks(names: Names, rs: seq<Record>, others: seq<Record>, k: bytes)
    ensures EncodeStream(names, rs + others, k) == Blocks(names, rs) + EncodeStream(names, others, k)
  {
    hide Block, EncodeTrailer, Dump, EncodeNum;
    if rs == [] {
      assert rs + others == others;
    } else {
      var front, r := rs[..|rs| - 1], rs[|rs| - 1];
      assert rs + others == front + ([r] + others);
      StreamFromBlocks(names, front, [r] + others, k);
      FirstBlock(names, r, others, k);
      hide EncodeStream;
      assert Blocks(names, rs) == Blocks(names, front) + Block(names, r);
    }
  }

  lemma StreamEnds(names: Names, rs: seq<Record>)
    ensures EncodeStream(names, rs, []) == Blocks(names, rs) + EncodeNum(0)
  {
    hide Blocks, EncodeNum;
    StreamFromBlocks(names, rs, [], []);
    assert rs + [] == rs && EncodeNum(0) + [] == EncodeNum(0);
  }

  // ---------------------------------------------------------------------
  // What the reader refuses and passes over.

  /** A number other than 0 and 1 in front of a record ends the import with an
      error. */
  lemma ForeignMarkIsRefused(names: Names, n: nat, k: bytes)
    requires 1 < n < TWO64
    ensures ReadStream(names, EncodeNum(n) + k).Bad?
  {
    ReadNumIffEncoded(EncodeNum(n) + k, n, k);
  }

  /** So does one other than the magic number after the archive. */
  lemma ForeignMagicIsRefused(names: Names, nar: bytes, n: nat, k: bytes)
    requires n != 0x4558494e && n < TWO64
    ensures ReadTrailer(names, nar, EncodeNum(n) + k).Bad?
  {
    ReadNumIffEncoded(EncodeNum(n) + k, n, k);
  }

  /** After the number 1 a signature is passed over; another number stands for none,
      if it fits into 32 bits. */
  lemma SignatureIsIgnored(n: nat, signature: bytes, k: bytes)
    requires n < TWO64 && |signature| < TWO64
    ensures ReadSignature(EncodeNum(1) + EncodeString(signature, k)) == Ok((), k)
    ensures n != 1 ==> ReadSignature(EncodeNum(n) + k) == if n < 0x1_0000_0000 then Ok((), k) else Bad
  {
    ReadNumIffEncoded(EncodeNum(1) + EncodeString(signature, k), 1, EncodeString(signature, k));
    ReadNumIffEncoded(EncodeNum(n) + k, n, k);
    ReadStringIffEncoded(EncodeString(signature, k), MAX_STRING, signature, k);
    hide ReadNum, ReadString, EncodeString, EncodeNum;
  }

  /** The trailer of a path with one reference and a deriver, field by field. */
  lemma TrailerOfOne(names: Names, p: StorePath, nar: Node, q: StorePath, d: StorePath, k: bytes)
    ensures EncodeTrailer(names, Record(p, nar, [q], Some(d)), k) ==
            EncodeNum(0x4558494e) + EncodeString(names.text(p), EncodeNum(1) + EncodeString(names.text(q),
              EncodeString(names.text(d), EncodeNum(0) + k)))
    ensures EncodeTrailer(names, Record(p, nar, [], None), k) ==
            EncodeNum(0x4558494e) + EncodeString(names.text(p), EncodeNum(0) + EncodeString([], EncodeNum(0) + k))
  {
    hide EncodeString, EncodeNum;
    var one: seq<StorePath> := [q];
    assert one[1..] == [];
    assert forall j :: EncodePaths(names, one, j) == EncodeString(names.text(q), j);
    var none: seq<StorePath> := [];
    assert forall j :: EncodePaths(names, none, j) == j;
    assert |one| == 1 && |none| == 0;
  }
}
