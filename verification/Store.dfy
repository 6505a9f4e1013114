/** The store itself (core/src/store/mod.rs): the operations run step by step on
    the tables and the backend. Each is proved to leave the state, and to return
    the result, that its specification function gives, whatever call fails. */
module Store {
  import opened Types
  import opened Hashing
  import DiskSpec
  import opened Chunking
  import opened Backends
  import opened Tables
  import Persistence
  import StoreSpec
  import Streaming

  type State = StoreSpec.State

  class ChunkStore {
    const backend: MemoryBackend
    const manifest: Manifest
    const refcount: RefCount
    const stats: Stats
    var cfg: Cfg

    constructor (cfg: Cfg, backend: MemoryBackend, manifest: Manifest, refcount: RefCount)
      ensures this.cfg == cfg && this.backend == backend && this.manifest == manifest && this.refcount == refcount
      ensures fresh(stats) && stats.Value() == Totals(0, 0, 0)
    {
      this.cfg, this.backend, this.manifest, this.refcount := cfg, backend, manifest, refcount;
      stats := new Stats();
    }

    /** The objects an operation may change. */
    ghost function Parts(): set<object> {
      {backend, manifest, refcount, stats}
    }

    ghost predicate Valid()
      reads manifest
    {
      manifest.Valid()
    }

    ghost function St(): State
      reads Parts()
    {
      StoreSpec.State(manifest.Records(), refcount.counts, stats.Value(), backend.View())
    }

    // ----- Storing

    /** Under the blob lock. */
    method PutIfAbsent(digest: string, blob: Bytes) returns (r: Result<bool>)
      requires Valid()
      modifies backend
      ensures Valid()
      ensures Outcome(St(), r) == StoreSpec.BlobStep(old(St()), digest, blob)
    {
      var present :- backend.Exists(digest);
      if !present {
        var _ :- backend.PutBlob(digest, blob);
      }
      return Ok(present);
    }

    /** Under the refcount lock. */
    method CountReference(digest: string, size: nat) returns (r: Result<()>)
      requires Valid()
      modifies backend, refcount
      ensures Valid()
      ensures Outcome(St(), r) == StoreSpec.CountStep(old(St()), digest, size)
    {
      hide DiskSpec.SaveRefcount;
      var count :- refcount.Increment(digest, size);
      var storedSize := refcount.SizeOf(digest);
      var _ :- Persistence.SaveRefcount(backend, digest, count, storedSize.value);
      return Ok(());
    }

    method StoreChunk(digest: string, data: Bytes) returns (r: Result<bool>)
      requires Valid()
      modifies Parts()
      ensures Valid()
      ensures Outcome(St(), r) == StoreSpec.StoreChunk(cfg, old(St()), digest, data)
    {
      hide StoreSpec.BlobStep, StoreSpec.CountStep;
      var encoded := Encode(cfg, data);
      if encoded.None? {
        return Err(CodecFailed);
      }
      var size := |data|;
      var existed :- PutIfAbsent(digest, encoded.value);
      var _ :- CountReference(digest, size);
      if existed {
        stats.AddReference(size);
      } else {
        stats.AddUniqueChunk(size);
      }
      return Ok(existed);
    }

    method PeekDigests(id: string) returns (found: Option<seq<string>>)
      requires Valid()
      ensures found == if id in manifest.Records() then Some(manifest.Records()[id].digests) else None
    {
      found := manifest.TryGet(id);
    }

    // ----- Releasing

    method ChunkSize(digest: string) returns (r: Result<nat>)
      requires Valid()
      modifies backend
      ensures Valid()
      ensures Outcome(St(), r) == StoreSpec.ChunkSize(cfg, old(St()), digest)
    {
      var known := refcount.SizeOf(digest);
      if known.Some? && known.value > 0 {
        return Ok(known.value);
      }
      var found :- backend.GetBlob(digest);
      if found.None? {
        return Err(NotFound);
      }
      var data := Decode(cfg, found.value);
      if data.None? {
        return Err(CodecFailed);
      }
      return Ok(|data.value|);
    }

    method ReleaseOne(digest: string) returns (r: Result<()>)
      requires Valid()
      modifies Parts()
      ensures Valid()
      ensures Outcome(St(), r) == StoreSpec.ReleaseOne(cfg, old(St()), digest)
    {
      hide DiskSpec.SaveRefcount, DiskSpec.RemoveRefcount, StoreSpec.ChunkSize;
      var size :- ChunkSize(digest);
      var remaining :- refcount.Decrement(digest);
      if remaining == 0 {
        var _ :- backend.DeleteBlob(digest);
        var _ :- Persistence.RemoveRefcount(backend, digest);
        stats.RemoveUniqueChunk(size);
      } else {
        var _ :- Persistence.SaveRefcount(backend, digest, remaining, size);
      }
      stats.RemoveReference(size);
      return Ok(());
    }

    method ReleaseDigests(digests: seq<string>) returns (r: Result<()>)
      requires Valid()
      modifies Parts()
      ensures Valid()
      ensures Outcome(St(), r) == StoreSpec.ReleaseAll(cfg, old(St()), digests)
    {
      hide StoreSpec.ReleaseOne;
      for i := 0 to |digests|
        invariant Valid()
        invariant StoreSpec.ReleaseAll(cfg, old(St()), digests) == StoreSpec.ReleaseAll(cfg, St(), digests[i..])
      {
        assert digests[i..][1..] == digests[i + 1..];
        var _ :- ReleaseOne(digests[i]);
      }
      return Ok(());
    }

    method Delete(id: string) returns (r: Result<()>)
      requires Valid()
      modifies Parts()
      ensures Valid()
      ensures Outcome(St(), r) == StoreSpec.Delete(cfg, old(St()), id)
    {
      hide StoreSpec.ReleaseAll, DiskSpec.RemoveManifest;
      assert id !in manifest.Records() ==> manifest.Records() - {id} == manifest.Records();
      var digests :- manifest.Remove(id);
      var _ :- Persistence.RemoveManifest(backend, id);
      var _ :- ReleaseDigests(digests);
      return Ok(());
    }
    // ----- Totals

    /** `order` is the order in which the refcount table was visited. */
    method RebuildStats() returns (r: Result<()>, ghost order: seq<string>)
      requires Valid()
      modifies backend, stats
      ensures Valid()
      ensures IsListing(order, refcount.counts.Keys)
      ensures Outcome(St(), r) == StoreSpec.RebuildStats(cfg, old(St()), order)
    {
      hide StoreSpec.ChunkSize, StoreSpec.AddChunk, NoDup;
      var keys := InSomeOrder(refcount.counts.Keys);
      order := keys;
      var sum := Totals(0, 0, 0);
      assert keys[0..] == keys;
      for i := 0 to |keys|
        invariant Valid() && refcount.counts == old(refcount.counts) && stats.Value() == old(stats.Value())
        invariant StoreSpec.Recount(cfg, old(St()), keys, Totals(0, 0, 0)) ==
                  StoreSpec.Recount(cfg, St(), keys[i..], sum)
      {
        assert keys[i..][1..] == keys[i + 1..];
        assert keys[i] in keys;
        var size :- ChunkSize(keys[i]);
        sum := StoreSpec.AddChunk(sum, size, refcount.counts[keys[i]].count);
      }
      stats.Replace(sum);
      return Ok(()), order;
    }

    // ----- Reading

    method ReadChunk(digest: string) returns (r: Result<Bytes>)
      modifies backend
      ensures Outcome(backend.View(), r) == StoreSpec.ReadChunk(cfg, old(backend.View()), digest)
    {
      var found :- backend.GetBlob(digest);
      if found.None? {
        return Err(NotFound);
      }
      var data := Decode(cfg, found.value);
      if data.None? {
        return Err(CodecFailed);
      }
      var _ :- VerifyDigest(cfg, data.value, digest);
      return Ok(data.value);
    }

    /** `written` is what the writer has received, also when the read fails. */
    method ReadToWriter(id: string, writer: Writer) returns (r: Result<()>)
      requires Valid() && writer as object !in Parts()
      modifies backend, writer
      ensures Valid()
      ensures id !in manifest.Records() ==>
                r == Err(NotFound) && St() == old(St()) && writer.written == old(writer.written)
      ensures id in manifest.Records() ==>
                Outcome((backend.View(), writer.written), r) ==
                StoreSpec.ReadTo(cfg, old(backend.View()), manifest.Records()[id].digests, old(writer.written))
    {
      hide StoreSpec.ReadChunk;
      var digests :- manifest.Get(id);
      for i := 0 to |digests|
        invariant Valid()
        invariant StoreSpec.ReadTo(cfg, old(backend.View()), digests, old(writer.written)) ==
                  StoreSpec.ReadTo(cfg, backend.View(), digests[i..], writer.written)
      {
        assert digests[i..][1..] == digests[i + 1..];
        var chunk :- ReadChunk(digests[i]);
        writer.WriteAll(chunk);
      }
      return Ok(());
    }

    method Read(id: string) returns (r: Result<Bytes>)
      requires Valid()
      modifies backend
      ensures Valid()
      ensures Outcome(St(), r) == StoreSpec.Read(cfg, old(St()), id)
    {
      hide StoreSpec.ReadTo;
      var out := new Writer();
      var _ :- ReadToWriter(id, out);
      return Ok(out.written);
    }

    // ----- Checking

    /** The scan for counted digests without a blob. */
    method FindMissing(live: seq<string>) returns (r: Result<seq<string>>)
      modifies backend
      ensures Outcome(backend.View(), r) == StoreSpec.FindMissing(old(backend.View()), live)
    {
      var missing: seq<string> := [];
      AfterNone(StoreSpec.FindMissing(backend.View(), live));
      assert live[0..] == live;
      for i := 0 to |live|
        invariant StoreSpec.FindMissing(old(backend.View()), live) ==
                  After(missing, StoreSpec.FindMissing(backend.View(), live[i..]))
      {
        assert live[i..][1..] == live[i + 1..];
        var present :- backend.Exists(live[i]);
        ghost var rest := StoreSpec.FindMissing(backend.View(), live[i + 1..]);
        if !present {
          AfterOne(missing, live[i], rest);
          missing := missing + [live[i]];
        }
      }
      assert missing + [] == missing;
      return Ok(missing);
    }

    method DeleteBlobs(names: seq<string>) returns (r: Result<nat>)
      modifies backend
      ensures r.Ok? ==> r.value == |names| &&
                        StoreSpec.DeleteBlobs(old(backend.View()), names) == Done(backend.View(), ())
      ensures r.Err? ==> StoreSpec.DeleteBlobs(old(backend.View()), names) == Fail(backend.View(), r.error)
    {
      var repaired := 0;
      for i := 0 to |names|
        invariant repaired == i
        invariant StoreSpec.DeleteBlobs(old(backend.View()), names) == StoreSpec.DeleteBlobs(backend.View(), names[i..])
      {
        assert names[i..][1..] == names[i + 1..];
        var _ :- backend.DeleteBlob(names[i]);
        repaired := repaired + 1;
      }
      return Ok(repaired);
    }

    /** `live` is the order in which the refcount table was visited, `names` the
        backend's answer to the listing, if it was reached. */
    method Fsck(repair: bool)
      returns (r: Result<StoreSpec.Report>, ghost live: seq<string>, ghost names: Option<seq<string>>)
      requires Valid()
      modifies backend
      ensures Valid()
      ensures IsListing(live, refcount.counts.Keys)
      ensures r.Ok? ==> names.Some? && StoreSpec.IsNameListing(names.value, old(backend.View()))
      ensures Outcome(St(), r) == StoreSpec.Fsck(old(St()), repair, live, names)
    {
      hide IsListing, StoreSpec.FindMissing, StoreSpec.DeleteBlobs, StoreSpec.OrphansAmong, StoreSpec.DigestsOnce;
      names := None;
      var order := InSomeOrder(refcount.counts.Keys);
      live := order;
      StoreSpec.FindMissingKeeps(backend.View(), order);
      var missing :- FindMissing(order);
      var listed :- backend.ListKeys();
      names := listed;
      assert forall n :: StoreSpec.IsStored(old(backend.View()), n) == StoreSpec.IsStored(backend.View(), n);
      var orphans := CollectOrphans(listed, order);
      var repaired := 0;
      if repair {
        repaired :- DeleteBlobs(orphans);
      }
      return Ok(StoreSpec.Report(missing, orphans, repaired)), live, names;
    }
  }

  /** An outcome whose list continues one that has been collected already. */
  ghost function After<S, T>(done: seq<T>, o: Out<S, seq<T>>): Out<S, seq<T>> {
    match o
    case Done(s, rest) => Done(s, done + rest)
    case Fail(s, e) => Fail(s, e)
  }

  lemma AfterNone<S, T>(o: Out<S, seq<T>>)
    ensures After([], o) == o
  {
    if o.Done? {
      assert [] + o.v == o.v;
    }
  }

  lemma AfterOne<S, T>(done: seq<T>, x: T, o: Out<S, seq<T>>)
    ensures After(done, After([x], o)) == After(done + [x], o)
  {
    if o.Done? {
      assert done + ([x] + o.v) == (done + [x]) + o.v;
    }
  }

  /** The filter of `collect_orphans`. */
  method CollectOrphans(listed: Option<seq<string>>, live: seq<string>) returns (orphans: seq<string>)
    ensures orphans == if listed.Some? then StoreSpec.OrphansAmong(listed.value, live) else []
  {
    hide IsChunkDigest;
    orphans := [];
    if listed.None? {
      return;
    }
    var keys := listed.value;
    for i := 0 to |keys|
      invariant orphans + StoreSpec.OrphansAmong(keys[i..], live) == StoreSpec.OrphansAmong(keys, live)
    {
      assert keys[i..][1..] == keys[i + 1..];
      if IsChunkDigest(keys[i]) && keys[i] !in live {
        orphans := orphans + [keys[i]];
      }
    }
  }

  /** A writer that accepts everything. */
  class Writer {
    var written: Bytes

    constructor ()
      ensures written == []
    {
      written := [];
    }

    method WriteAll(data: Bytes)
      modifies this
      ensures written == old(written) + data
    {
      written := written + data;
    }
  }

  /** One turn of the loop that accepts chunks. */
  lemma AcceptTurn(cfg: Cfg, s: State, chunks: seq<Bytes>, before: seq<string>)
    requires chunks != []
    ensures var digest := DigestHex(cfg, chunks[0]);
            var whole := After(before, StoreSpec.AcceptAll(cfg, s, chunks));
            match StoreSpec.StoreChunk(cfg, s, digest, chunks[0])
            case Fail(s1, e) => whole == Fail(s1, e)
            case Done(s1, _) => whole == After(before + [digest], StoreSpec.AcceptAll(cfg, s1, chunks[1..]))
    ensures |Concat(chunks)| == |chunks[0]| + |Concat(chunks[1..])|
  {
    hide StoreSpec.StoreChunk;
    var digest := DigestHex(cfg, chunks[0]);
    var o := StoreSpec.StoreChunk(cfg, s, digest, chunks[0]);
    if o.Done? {
      var rest := StoreSpec.AcceptAll(cfg, o.s, chunks[1..]);
      if rest.Done? {
        assert before + ([digest] + rest.v) == (before + [digest]) + rest.v;
      }
    }
  }

  lemma AcceptEnd(cfg: Cfg, s: State, before: seq<string>)
    ensures After(before, StoreSpec.AcceptAll(cfg, s, [])) == Done(s, before)
    ensures Concat([]) == []
  {
    assert before + [] == before;
  }

  /** One ingest in progress. */
  class IngestSession {
    var digests: seq<string>
    var sizes: seq<nat>
    var fileBytes: nat

    constructor ()
      ensures digests == [] && sizes == [] && fileBytes == 0
    {
      digests, sizes, fileBytes := [], [], 0;
    }

    method Accept(store: ChunkStore, chunk: Bytes) returns (r: Result<()>)
      requires store.Valid() && this as object !in store.Parts()
      modifies this, store.Parts()
      ensures store.Valid()
      ensures fileBytes == old(fileBytes) + |chunk|
      ensures var digest := DigestHex(store.cfg, chunk);
              var o := StoreSpec.StoreChunk(store.cfg, old(store.St()), digest, chunk);
              && store.St() == o.s && r == (if o.Done? then Ok(()) else Err(o.e))
              && digests == (if o.Done? then old(digests) + [digest] else old(digests))
              && sizes == (if o.Done? then old(sizes) + [|chunk|] else old(sizes))
    {
      hide StoreSpec.StoreChunk;
      fileBytes := fileBytes + |chunk|;
      var digest := EncodeHex(store.cfg.sha(chunk));
      var _ :- store.StoreChunk(digest, chunk);
      sizes := sizes + [|chunk|];
      digests := digests + [digest];
      return Ok(());
    }

    /** Accepts the chunks in order. */
    method AcceptEach(store: ChunkStore, chunks: seq<Bytes>) returns (r: Result<()>)
      requires store.Valid() && this as object !in store.Parts()
      modifies this, store.Parts()
      ensures store.Valid()
      ensures After(old(digests), StoreSpec.AcceptAll(store.cfg, old(store.St()), chunks)) ==
              match r case Ok(_) => Done(store.St(), digests) case Err(e) => Fail(store.St(), e)
      ensures r.Ok? ==> fileBytes == old(fileBytes) + |Concat(chunks)|
    {
      hide StoreSpec.StoreChunk, StoreSpec.AcceptAll, After, Concat;
      ghost var cfg := store.cfg;
      ghost var whole := After(digests, StoreSpec.AcceptAll(cfg, store.St(), chunks));
      assert chunks[0..] == chunks;
      for i := 0 to |chunks|
        invariant store.Valid() && store.cfg == cfg
        invariant whole == After(digests, StoreSpec.AcceptAll(cfg, store.St(), chunks[i..]))
        invariant fileBytes + |Concat(chunks[i..])| == old(fileBytes) + |Concat(chunks)|
      {
        assert chunks[i..][1..] == chunks[i + 1..];
        AcceptTurn(cfg, store.St(), chunks[i..], digests);
        var _ :- Accept(store, chunks[i]);
      }
      assert chunks[|chunks|..] == [];
      AcceptEnd(cfg, store.St(), digests);
      return Ok(());
    }

    method Commit(store: ChunkStore, id: string) returns (r: Result<seq<string>>)
      requires store.Valid() && this as object !in store.Parts()
      modifies store.Parts()
      ensures store.Valid()
      ensures Outcome(store.St(), r) == StoreSpec.Commit(store.cfg, old(store.St()), id, digests, fileBytes)
    {
      hide DiskSpec.SaveManifest, StoreSpec.ReleaseOne;
      var previous := store.PeekDigests(id);
      var _ :- store.manifest.Insert(id, digests, fileBytes);
      var _ :- Persistence.SaveManifest(store.backend, id, digests, fileBytes);
      if previous.Some? {
        var _ :- store.ReleaseDigests(previous.value);
      }
      return Ok(digests);
    }
  }

  // ----- Ingest paths

  method IngestChunks(store: ChunkStore, id: string, chunks: seq<Bytes>) returns (r: Result<seq<string>>)
    requires store.Valid()
    modifies store.Parts()
    ensures store.Valid()
    ensures Outcome(store.St(), r) == StoreSpec.Ingest(store.cfg, old(store.St()), id, chunks)
  {
    hide StoreSpec.AcceptAll, StoreSpec.Commit, After, Concat;
    AfterNone(StoreSpec.AcceptAll(store.cfg, store.St(), chunks));
    var session := new IngestSession();
    var _ :- session.AcceptEach(store, chunks);
    r := session.Commit(store, id);
  }

  /** Accepting what `feed` and then `finish` emit is accepting all of it. */
  lemma AcceptInTwo(cfg: Cfg, s: State, a: seq<Bytes>, b: seq<Bytes>)
    ensures match StoreSpec.AcceptAll(cfg, s, a)
            case Fail(s1, e) => StoreSpec.AcceptAll(cfg, s, a + b) == Fail(s1, e)
            case Done(s1, digests) =>
              StoreSpec.AcceptAll(cfg, s, a + b) == After(digests, StoreSpec.AcceptAll(cfg, s1, b))
    ensures |Concat(a + b)| == |Concat(a)| + |Concat(b)|
  {
    hide StoreSpec.AcceptAll;
    Streaming.AcceptAllAppend(cfg, s, a, b);
    ConcatAppend(a, b);
  }

  /** Accepts what the chunker makes of the data. */
  method AcceptInput(session: IngestSession, store: ChunkStore, chunker: FixedChunker, data: Bytes)
    returns (r: Result<()>)
    requires store.Valid() && {session as object, chunker} !! store.Parts()
    requires chunker.chunkSize > 0 && chunker.buffer == [] && session.digests == [] && session.fileBytes == 0
    modifies session, chunker, store.Parts()
    ensures store.Valid()
    ensures var chunks := FixedChunks(data, chunker.chunkSize);
            && StoreSpec.AcceptAll(store.cfg, old(store.St()), chunks) ==
               (match r case Ok(_) => Done(store.St(), session.digests) case Err(e) => Fail(store.St(), e))
            && (r.Ok? ==> session.fileBytes == |Concat(chunks)|)
  {
    hide StoreSpec.AcceptAll, After, Concat, Pieces, Leftover, Tail;
    var chunks := chunker.Feed(data);
    assert [] + data == data;
    AfterNone(StoreSpec.AcceptAll(store.cfg, store.St(), chunks));
    AcceptInTwo(store.cfg, store.St(), chunks, Tail(Leftover(data, chunker.chunkSize)));
    var _ :- session.AcceptEach(store, chunks);
    chunks := chunker.Finish();
    r := session.AcceptEach(store, chunks);
  }

  method IngestFixed(store: ChunkStore, id: string, data: Bytes, chunkSize: nat) returns (r: Result<seq<string>>)
    requires store.Valid()
    modifies store.Parts()
    ensures store.Valid()
    ensures Outcome(store.St(), r) == StoreSpec.IngestFixed(store.cfg, old(store.St()), id, data, chunkSize)
  {
    hide StoreSpec.AcceptAll, StoreSpec.Commit, Concat, FixedChunks;
    if chunkSize == 0 {
      return Err(InvalidArgument);
    }
    var chunker := new FixedChunker(chunkSize);
    var session := new IngestSession();
    var _ :- AcceptInput(session, store, chunker, data);
    r := session.Commit(store, id);
  }

  /** A reader that delivers its input in the given reads. */
  class Reader {
    var script: seq<Streaming.ReadEvent>

    constructor (script: seq<Streaming.ReadEvent>)
      ensures this.script == script
    {
      this.script := script;
    }

    method Read() returns (r: Result<Bytes>)
      modifies this
      ensures script == if old(script) == [] then [] else old(script)[1..]
      ensures r == if old(script) == [] then Ok([])
                   else if old(script)[0].Block? then Ok(old(script)[0].data) else Err(Io)
    {
      if script == [] {
        return Ok([]);
      }
      var event := script[0];
      script := script[1..];
      match event
      case Block(data) => return Ok(data);
      case Broken => return Err(Io);
    }
  }

  /** One turn of the read loop. */
  lemma StreamTurn(cfg: Cfg, s: State, script: seq<Streaming.ReadEvent>, buffer: Bytes, size: nat, before: seq<string>)
    requires size > 0 && !Streaming.AtEnd(script) && script[0].Block?
    ensures var fed := buffer + script[0].data;
            var whole := After(before, Streaming.AcceptStream(cfg, s, script, buffer, size));
            match After(before, StoreSpec.AcceptAll(cfg, s, Pieces(fed, size)))
            case Fail(s1, e) => whole == Fail(s1, e)
            case Done(s1, now) =>
              whole == After(now, Streaming.AcceptStream(cfg, s1, script[1..], Leftover(fed, size), size))
  {
    hide StoreSpec.AcceptAll, Pieces, Leftover;
    var o := StoreSpec.AcceptAll(cfg, s, Pieces(buffer + script[0].data, size));
    if o.Done? {
      var rest := Streaming.AcceptStream(cfg, o.s, script[1..], Leftover(buffer + script[0].data, size), size);
      if rest.Done? {
        assert before + (o.v + rest.v) == (before + o.v) + rest.v;
      }
    }
  }

  lemma StreamEnd(cfg: Cfg, s: State, script: seq<Streaming.ReadEvent>, buffer: Bytes, size: nat)
    requires size > 0 && (Streaming.AtEnd(script) || script[0].Broken?)
    ensures Streaming.AcceptStream(cfg, s, script, buffer, size) ==
            if Streaming.AtEnd(script) then StoreSpec.AcceptAll(cfg, s, Tail(buffer)) else Fail(s, Io)
    ensures Streaming.Delivered(script) == []
    ensures |Concat(Tail(buffer))| == |buffer|
  {
    hide StoreSpec.AcceptAll;
    if buffer != [] {
      assert Concat([buffer]) == buffer + Concat([]);
    }
  }

  /** The loop of `for_each_chunk`, with the session's `accept` as its callback. */
  method AcceptReads(session: IngestSession, store: ChunkStore, chunker: FixedChunker, reader: Reader)
    returns (r: Result<()>)
    requires store.Valid() && {session as object, chunker, reader} !! store.Parts()
    requires chunker.chunkSize > 0 && chunker.buffer == []
    modifies session, chunker, reader, store.Parts()
    ensures store.Valid()
    ensures After(old(session.digests),
                  Streaming.AcceptStream(store.cfg, old(store.St()), old(reader.script), [], chunker.chunkSize)) ==
            match r case Ok(_) => Done(store.St(), session.digests) case Err(e) => Fail(store.St(), e)
    ensures r.Ok? ==> session.fileBytes == old(session.fileBytes) + |Streaming.Delivered(old(reader.script))|
  {
    hide StoreSpec.AcceptAll, Streaming.AcceptStream, After, Concat, Pieces, Leftover, Tail;
    ghost var cfg, size := store.cfg, chunker.chunkSize;
    ghost var whole := After(session.digests, Streaming.AcceptStream(cfg, store.St(), reader.script, [], size));
    while true
      invariant store.Valid() && store.cfg == cfg
      invariant whole ==
                After(session.digests, Streaming.AcceptStream(cfg, store.St(), reader.script, chunker.buffer, size))
      invariant session.fileBytes + |chunker.buffer| + |Streaming.Delivered(reader.script)| ==
                old(session.fileBytes) + |Streaming.Delivered(old(reader.script))|
      decreases |reader.script|
    {
      ghost var script := reader.script;
      if Streaming.AtEnd(script) || script[0].Broken? {
        StreamEnd(cfg, store.St(), script, chunker.buffer, size);
        AfterFail<State, string>(session.digests, store.St(), Io);
      } else {
        StreamTurn(cfg, store.St(), script, chunker.buffer, size, session.digests);
        PiecesTile(chunker.buffer + script[0].data, size);
      }
      var data :- reader.Read();
      if data == [] {
        break;
      }
      var chunks := chunker.Feed(data);
      var _ :- session.AcceptEach(store, chunks);
    }
    var last := chunker.Finish();
    r := session.AcceptEach(store, last);
  }

  lemma AfterFail<S, T>(done: seq<T>, s: S, e: Error)
    ensures After(done, Fail(s, e)) == Fail(s, e)
  {
  }

  method IngestReaderFixed(store: ChunkStore, id: string, reader: Reader, chunkSize: nat)
    returns (r: Result<seq<string>>)
    requires store.Valid() && reader as object !in store.Parts()
    modifies store.Parts(), reader
    ensures store.Valid()
    ensures Outcome(store.St(), r) ==
            Streaming.IngestReader(store.cfg, old(store.St()), id, old(reader.script), chunkSize)
  {
    hide StoreSpec.Commit, Streaming.AcceptStream, After, Streaming.Delivered;
    if chunkSize == 0 {
      return Err(InvalidArgument);
    }
    var chunker := new FixedChunker(chunkSize);
    var session := new IngestSession();
    AfterNone(Streaming.AcceptStream(store.cfg, store.St(), reader.script, [], chunkSize));
    var _ :- AcceptReads(session, store, chunker, reader);
    r := session.Commit(store, id);
  }

  // ----- Opening

  /** `order` is the order in which the entries of unknown size were visited.
      The manifests and totals are not looked at. */
  method BackfillRefcountSizes(backend: MemoryBackend, refcount: RefCount, ghost files: map<string, FileRec>,
                               ghost sum: Totals)
    returns (r: Result<()>, ghost order: seq<string>)
    modifies backend, refcount
    ensures StoreSpec.IsStaleListing(order, old(refcount.counts))
    ensures refcount.counts.Keys == old(refcount.counts.Keys)
    ensures Outcome(StoreSpec.State(files, refcount.counts, sum, backend.View()), r) ==
            StoreSpec.Backfill(StoreSpec.State(files, old(refcount.counts), sum, old(backend.View())), order)
  {
    hide NoDup, IsChunkDigest, DiskSpec.SaveRefcount;
    var keys := InSomeOrder(set d | d in refcount.counts && StoreSpec.Stale(refcount.counts[d]));
    order := keys;
    assert keys[0..] == keys;
    for i := 0 to |keys|
      invariant refcount.counts.Keys == old(refcount.counts.Keys)
      invariant StoreSpec.Backfill(StoreSpec.State(files, old(refcount.counts), sum, old(backend.View())), keys) ==
                StoreSpec.Backfill(StoreSpec.State(files, refcount.counts, sum, backend.View()), keys[i..])
    {
      assert keys[i..][1..] == keys[i + 1..];
      assert keys[i] in keys;
      var digest := keys[i];
      var found :- backend.GetBlob(digest);
      if found.Some? && IsChunkDigest(digest) {
        var count, size := refcount.counts[digest].count, |found.value|;
        refcount.Set(digest, count, size);
        var _ :- Persistence.SaveRefcount(backend, digest, count, size);
      }
    }
    return Ok(()), order;
  }

  /** What `open` has loaded before it looks at sizes. */
  ghost function Loaded(b: DiskSpec.Disk): Out<DiskSpec.Disk, map<string, ChunkRef>> {
    var (b1, _) :- DiskSpec.LoadManifests(b);
    DiskSpec.LoadRefcounts(b1)
  }

  method Open(cfg: Cfg, backend: MemoryBackend)
    returns (r: Result<ChunkStore>, ghost stale: seq<string>, ghost order: seq<string>)
    modifies backend
    ensures Loaded(old(backend.View())).Done? ==>
              StoreSpec.IsStaleListing(stale, Loaded(old(backend.View())).v)
    ensures r.Ok? ==>
              && r.value.Valid() && fresh(r.value) && r.value.backend == backend
              && fresh(r.value.Parts() - {backend}) && r.value.cfg == cfg.(codec := None)
    ensures r.Ok? ==> IsListing(order, r.value.refcount.counts.Keys)
    ensures StoreSpec.Open(cfg, old(backend.View()), stale, order) ==
            match r case Ok(store) => Done(backend.View(), store.St()) case Err(e) => Fail(backend.View(), e)
  {
    hide StoreSpec.Backfill, StoreSpec.RebuildStats, DiskSpec.LoadManifests, DiskSpec.LoadRefcounts;
    hide StoreSpec.IsStaleListing, IsListing;
    stale, order := [], [];
    var manifest :- Persistence.LoadManifests(backend);
    var refcount :- Persistence.LoadRefcounts(backend);
    var filled;
    filled, stale := BackfillRefcountSizes(backend, refcount, manifest.Records(), Totals(0, 0, 0));
    var _ :- filled;
    var store := new ChunkStore(cfg.(codec := None), backend, manifest, refcount);
    var rebuilt;
    rebuilt, order := store.RebuildStats();
    var _ :- rebuilt;
    return Ok(store), stale, order;
  }

  /** The codec is attached to a store that was opened without one. */
  method OpenWithCodec(cfg: Cfg, backend: MemoryBackend)
    returns (r: Result<ChunkStore>, ghost stale: seq<string>, ghost order: seq<string>)
    modifies backend
    ensures Loaded(old(backend.View())).Done? ==>
              StoreSpec.IsStaleListing(stale, Loaded(old(backend.View())).v)
    ensures r.Ok? ==> r.value.Valid() && r.value.cfg == cfg && r.value.backend == backend
    ensures r.Ok? ==> fresh(r.value) && fresh(r.value.Parts() - {backend})
    ensures r.Ok? ==> IsListing(order, r.value.refcount.counts.Keys)
    ensures StoreSpec.Open(cfg, old(backend.View()), stale, order) ==
            match r case Ok(store) => Done(backend.View(), store.St()) case Err(e) => Fail(backend.View(), e)
  {
    r, stale, order := Open(cfg, backend);
    if r.Ok? {
      r.value.cfg := cfg;
    }
  }
}
