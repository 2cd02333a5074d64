/** The hash tap with its worker thread: for every NAR and every interleaving of
    restore and worker, the captured map is the one a re-hash from disk gives. */
module AsyncHashing {
  import opened Bytes
  import opened Nar
  import opened FileHasher
  import opened Archive
  import opened Streams
  import Q = BoundedQueue

  const Step: (Hasher, Event) -> Hasher := (h, ev) => Apply(h, ev)

  lemma {:induction false} FoldIsApplyAll(h: Hasher, evs: seq<Event>)
    ensures Q.Fold(Step, h, evs) == ApplyAll(h, evs)
    decreases |evs|
  {
    if evs != [] {
      FoldIsApplyAll(h, evs[..|evs| - 1]);
    }
  }

  /** `events` were pushed by a restore that ended in `inline`, the state an
      unthreaded hasher would be in; a threaded one finishes in the same state. */
  lemma ThreadedEqualsInline(start: Hasher, events: seq<Event>, inline: Hasher, run: seq<Q.State<Event, Hasher>>)
    requires inline == ApplyAll(start, events)
    requires Q.Run(Step, events, start, run)
    ensures var s := run[|run| - 1]; s.joined && !s.failed ==> s.result == inline
  {
    Q.FinishedInOrder(Step, events, start, run);
    FoldIsApplyAll(start, events);
  }

  /** A whole import with a hashing thread: parse, then let the worker drain in
      whatever order `run` took. */
  method RestoreCapturingHashes(source: Source) returns (ok: bool, sink: FileHashingSink)
    requires source.Valid()
    modifies source
    ensures ok <==> ParseDump(old(source.Remaining()), false).Ok?
    ensures ok ==>
      && sink.objects == Restore(ParseDump(old(source.Remaining()), false).value, [], map[])
      && (forall run: seq<Q.State<Event, Hasher>> | Q.Run(Step, sink.log, sink.start, run) ::
            var s := run[|run| - 1];
            s.joined && !s.failed ==> Agree(sink.objects, s.result.files))
  {
    sink := new FileHashingSink(false);
    ok := ParseDumpInto(source, sink);
    if ok {
      forall run: seq<Q.State<Event, Hasher>> | Q.Run(Step, sink.log, sink.start, run)
        ensures var s := run[|run| - 1]; s.joined && !s.failed ==> Agree(sink.objects, s.result.files)
      {
        ThreadedEqualsInline(sink.start, sink.log, sink.hasher, run);
      }
    }
  }

  // ---------------------------------------------------------------------
  // AsyncHashSink: the same queue, with chunks and a running hash.

  const Feed: (bytes, bytes) -> bytes := (hashed, chunk) => hashed + chunk

  function Concat(chunks: seq<bytes>): bytes {
    if chunks == [] then [] else Concat(chunks[..|chunks| - 1]) + chunks[|chunks| - 1]
  }

  lemma {:induction false} FoldIsConcat(chunks: seq<bytes>)
    ensures Q.Fold(Feed, [], chunks) == Concat(chunks)
    decreases |chunks|
  {
    if chunks != [] {
      FoldIsConcat(chunks[..|chunks| - 1]);
    }
  }

  /** The store-path digest computed off-thread is that of the stream. */
  lemma AsyncHashSinkHashesStream(chunks: seq<bytes>, run: seq<Q.State<bytes, bytes>>)
    requires Q.Run(Feed, chunks, [], run)
    ensures var s := run[|run| - 1]; s.joined && !s.failed ==> s.result == Concat(chunks)
  {
    Q.FinishedInOrder(Feed, chunks, [], run);
    FoldIsConcat(chunks);
  }
}
