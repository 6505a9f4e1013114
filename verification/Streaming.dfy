/** Ingesting from a reader that delivers its bytes in short reads: the loop of
    core/src/chunker/mod.rs driving an ingest session. */
module Streaming {
  import opened Types
  import opened Hashing
  import opened Chunking
  import opened StoreSpec
  import opened ExactOps
  import opened SavePoint

  /** What one call of `read` does: it delivers some bytes (none at the end of
      the input), or fails. A reader that has run out delivers none. */
  datatype ReadEvent = Block(data: Bytes) | Broken

  function AtEnd(script: seq<ReadEvent>): bool {
    script == [] || script[0] == Block([])
  }

  /** The bytes delivered before the end of the input or the first failure. */
  function Delivered(script: seq<ReadEvent>): Bytes {
    if AtEnd(script) || script[0].Broken? then [] else script[0].data + Delivered(script[1..])
  }

  /** Whether a read fails before the end of the input. */
  predicate Breaks(script: seq<ReadEvent>) {
    !AtEnd(script) && (script[0].Broken? || Breaks(script[1..]))
  }

  /** The read loop from the current buffer on: the digests accepted. */
  function AcceptStream(cfg: Cfg, s: State, script: seq<ReadEvent>, buffer: Bytes, size: nat): Out<State, seq<string>>
    requires size > 0
    decreases |script|
  {
    if AtEnd(script) then AcceptAll(cfg, s, Tail(buffer))
    else if script[0].Broken? then Fail(s, Io)
    else
      var fed := buffer + script[0].data;
      var (s1, digests) :- AcceptAll(cfg, s, Pieces(fed, size));
      var (s2, rest) :- AcceptStream(cfg, s1, script[1..], Leftover(fed, size), size);
      Done(s2, digests + rest)
  }

  function IngestReader(cfg: Cfg, s: State, id: string, script: seq<ReadEvent>, size: nat): Out<State, seq<string>> {
    if size == 0 then Fail(s, InvalidArgument) else
    var (s1, digests) :- AcceptStream(cfg, s, script, [], size);
    Commit(cfg, s1, id, digests, |Delivered(script)|)
  }

  /** Continues an outcome with a second list of digests. */
  function Then(cfg: Cfg, first: Out<State, seq<string>>, chunks: seq<Bytes>): Out<State, seq<string>> {
    var (s1, digests) :- first;
    var (s2, rest) :- AcceptAll(cfg, s1, chunks);
    Done(s2, digests + rest)
  }

  lemma {:induction false} AcceptAllAppend(cfg: Cfg, s: State, a: seq<Bytes>, b: seq<Bytes>)
    ensures AcceptAll(cfg, s, a + b) == Then(cfg, AcceptAll(cfg, s, a), b)
    decreases |a|
  {
    hide StoreChunk;
    if a == [] {
      assert a + b == b;
      var o := AcceptAll(cfg, s, b);
      assert o.Done? ==> [] + o.v == o.v;
    } else {
      assert (a + b)[0] == a[0] && (a + b)[1..] == a[1..] + b;
      var d := DigestHex(cfg, a[0]);
      var o1 := StoreChunk(cfg, s, d, a[0]);
      if o1.Done? {
        AcceptAllAppend(cfg, o1.s, a[1..], b);
        var o2 := AcceptAll(cfg, o1.s, a[1..]);
        if o2.Done? {
          var o3 := AcceptAll(cfg, o2.s, b);
          assert o3.Done? ==> ([d] + o2.v) + o3.v == [d] + (o2.v + o3.v);
        }
      }
    }
  }

  /** The chunks accepted by the read loop are those of the whole input; a read
      that fails stops it after the complete chunks delivered so far. */
  lemma {:induction false} AcceptStreamResult(cfg: Cfg, s: State, script: seq<ReadEvent>, buffer: Bytes, size: nat)
    requires size > 0 && |buffer| < size
    ensures var all := buffer + Delivered(script);
            AcceptStream(cfg, s, script, buffer, size) ==
            if !Breaks(script) then AcceptAll(cfg, s, FixedChunks(all, size))
            else
              var o := AcceptAll(cfg, s, Pieces(all, size));
              if o.Done? then Fail(o.s, Io) else o
    decreases |script|
  {
    hide AcceptAll;
    if AtEnd(script) || script[0].Broken? {
      assert buffer + Delivered(script) == buffer;
      assert Pieces(buffer, size) == [] && FixedChunks(buffer, size) == Tail(buffer);
      assert AcceptAll(cfg, s, []) == Done(s, []) by { AcceptNone(cfg, s); }
    } else {
      var fed, rest := buffer + script[0].data, Delivered(script[1..]);
      assert buffer + Delivered(script) == fed + rest;
      FeedInTwo(fed, rest, size);
      LeftoverShort(fed, size);
      var chunks := Pieces(fed, size);
      var left := Leftover(fed, size);
      var o1 := AcceptAll(cfg, s, chunks);
      assert FixedChunks(fed + rest, size) == chunks + FixedChunks(left + rest, size);
      AcceptAllAppend(cfg, s, chunks, FixedChunks(left + rest, size));
      AcceptAllAppend(cfg, s, chunks, Pieces(left + rest, size));
      if o1.Done? {
        AcceptStreamResult(cfg, o1.s, script[1..], left, size);
      }
    }
  }

  lemma AcceptNone(cfg: Cfg, s: State)
    ensures AcceptAll(cfg, s, []) == Done(s, [])
  {
  }

  /** Streaming equals buffered ingest: for every way of delivering the bytes,
      and whatever backend call fails, the digests and the state reached are
      those of `ingest_fixed` on the whole input. */
  lemma StreamingEqualsBuffered(cfg: Cfg, s: State, id: string, script: seq<ReadEvent>, size: nat)
    requires !Breaks(script)
    ensures IngestReader(cfg, s, id, script, size) == IngestFixed(cfg, s, id, Delivered(script), size)
  {
    hide AcceptAll, Commit;
    if size > 0 {
      AcceptStreamResult(cfg, s, script, [], size);
      assert [] + Delivered(script) == Delivered(script);
      FixedChunksTile(Delivered(script), size);
    }
  }

  /** A read that fails leaves the file as it was and the complete chunks
      delivered so far counted. */
  lemma BrokenReadLeaks(cfg: Cfg, s: State, id: string, script: seq<ReadEvent>, size: nat)
    requires Breaks(script) && size > 0
    ensures var o := AcceptAll(cfg, s, Pieces(Delivered(script), size));
            IngestReader(cfg, s, id, script, size) == Fail(o.s, if o.Done? then Io else o.e) && SameFiles(s, o.s)
  {
    AcceptedKeepsFiles(cfg, s, Pieces(Delivered(script), size));
    hide AcceptAll, Commit;
    AcceptStreamResult(cfg, s, script, [], size);
    assert [] + Delivered(script) == Delivered(script);
  }

  /** Reads that each deliver some bytes. */
  function BlockReads(blocks: seq<Bytes>): seq<ReadEvent> {
    if blocks == [] then [] else [Block(blocks[0])] + BlockReads(blocks[1..])
  }

  /** The input ends with the first read that delivers nothing, or when the reader
      has run out; a read that fails before that is seen. What comes later in the
      script is not. */
  lemma {:induction false} ScriptEnds(blocks: seq<Bytes>, rest: seq<ReadEvent>)
    requires forall i :: 0 <= i < |blocks| ==> blocks[i] != []
    requires rest == [] || rest[0] == Block([]) || rest[0] == Broken
    ensures var script := BlockReads(blocks) + rest;
            && Delivered(script) == Concat(blocks)
            && (Breaks(script) <==> rest != [] && rest[0] == Broken)
  {
    var script := BlockReads(blocks) + rest;
    if blocks == [] {
      assert script == rest;
    } else {
      ScriptEnds(blocks[1..], rest);
      assert script[0] == Block(blocks[0]) && script[1..] == BlockReads(blocks[1..]) + rest;
      hide BlockReads;
    }
  }
}
