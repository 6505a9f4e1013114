/** Byte totals and live chunks over whole runs. */
module Conservation {
  import opened Types
  import opened Hashing
  import opened DiskSpec
  import opened StoreSpec
  import opened Chunking
  import opened Counting
  import opened Invariants
  import opened Refinement
  import opened Inverse

  /** Byte conservation: the running total is the sum over digests of size
      times count and the sum over files of their lengths; the stored bytes are
      the sizes of the live digests; and these are what a recount gives. */
  lemma TotalsConserved(cfg: Cfg, s: State)
    requires Clean(cfg, s) && Balanced(s)
    ensures s.stats.total == TotalBytes(s.refs) == FileBytes(s.files)
    ensures s.stats.stored == StoredBytes(s.refs)
  {
    hide TotalBytes, StoredBytes, FileBytes;
    forall d ensures AllRefs(s.files)[d] == Count(s.refs, d) {
      assert AllRefs(s.files)[d] + multiset{}[d] == Count(s.refs, d);
    }
    ByteConservation(cfg, s.files, s.refs);
  }

  /** Blobs that a run of operations puts. */
  ghost function RunPuts(cfg: Cfg, s: State, ops: seq<Op>): nat
    decreases |ops|
  {
    if ops == [] then 0 else
    var here := match ops[0]
      case IngestChunksOp(_, chunks) => Puts(cfg, s, chunks)
      case IngestFixedOp(_, data, size) => if size == 0 then 0 else Puts(cfg, s, FixedChunks(data, size))
      case _ => 0;
    here + RunPuts(cfg, Step(cfg, s, ops[0]).0, ops[1..])
  }

  lemma StepCollects(cfg: Cfg, s: State, op: Op)
    requires Clean(cfg, s) && LawfulCodec(cfg) && Allowed(cfg, op) && NoOrphans(s)
    ensures var t := Step(cfg, s, op).0;
            |t.refs| + t.stats.gc == |s.refs| + s.stats.gc + RunPuts(cfg, s, [op])
  {
    hide Clean, NoOrphans, LawfulCodec, Ingest, Delete, Read, Ingestible, FixedChunks, Puts;
    match op
    case IngestChunksOp(id, chunks) => IngestConserves(cfg, s, id, chunks);
    case IngestFixedOp(id, data, size) =>
      if size > 0 {
        IngestConserves(cfg, s, id, FixedChunks(data, size));
      }
    case DeleteOp(id) => DeleteConserves(cfg, s, id);
    case ReadOp(id) => ReadRefines(cfg, s, id);
  }

  /** Over every run, live digests plus collected chunks are the digests live at
      the start plus the chunks collected before, plus the blobs put. */
  lemma {:induction false} RunCollects(cfg: Cfg, s: State, ops: seq<Op>)
    requires Clean(cfg, s) && LawfulCodec(cfg) && Balanced(s) && NoOrphans(s)
    requires forall i :: 0 <= i < |ops| ==> Allowed(cfg, ops[i])
    ensures var t := Run(cfg, s, ops).0;
            |t.refs| + t.stats.gc == |s.refs| + s.stats.gc + RunPuts(cfg, s, ops)
    decreases |ops|
  {
    hide Clean, Balanced, NoOrphans, LawfulCodec, Step, MapStep, Allowed, Contents, Puts;
    if ops != [] {
      StepCollects(cfg, s, ops[0]);
      StepRefines(cfg, s, ops[0]);
      RunCollects(cfg, Step(cfg, s, ops[0]).0, ops[1..]);
      assert [ops[0]][1..] == [];
    }
  }

  /** Accepting adds the accepted bytes to the running total, at every point. */
  lemma {:induction false} AcceptAllTotal(cfg: Cfg, s: State, chunks: seq<Bytes>)
    ensures var o := AcceptAll(cfg, s, chunks);
            && s.stats.total <= o.s.stats.total <= s.stats.total + |Concat(chunks)|
            && (o.Done? ==> o.s.stats.total == s.stats.total + |Concat(chunks)|)
            && o.s.stats.stored - s.stats.stored <= o.s.stats.total - s.stats.total
    decreases |chunks|
  {
    hide BlobStep, CountStep;
    if chunks != [] {
      var d := DigestHex(cfg, chunks[0]);
      StoreChunkTotal(cfg, s, d, chunks[0]);
      var o := StoreChunk(cfg, s, d, chunks[0]);
      hide StoreChunk;
      if o.Done? {
        AcceptAllTotal(cfg, o.s, chunks[1..]);
      }
    }
  }

  lemma StoreChunkTotal(cfg: Cfg, s: State, d: string, data: Bytes)
    ensures var o := StoreChunk(cfg, s, d, data);
            o.s.stats == if o.Done? then StatsStep(s, o.v, |data|).stats else s.stats
  {
    hide SaveRefcount;
  }

  /** The counters of the source are 64-bit. While an ingest into a store between
      operations accepts chunks, and wherever it stops, neither total exceeds
      the bytes of all files together with the bytes being ingested; so no
      addition overflows as long as that sum is below 2^64. */
  lemma TotalsFit(cfg: Cfg, s: State, chunks: seq<Bytes>)
    requires Clean(cfg, s) && Balanced(s)
    requires FileBytes(s.files) + |Concat(chunks)| < 0x1_0000_0000_0000_0000
    ensures var t := AcceptAll(cfg, s, chunks).s;
            t.stats.total < 0x1_0000_0000_0000_0000 && t.stats.stored < 0x1_0000_0000_0000_0000
  {
    hide AcceptAll, FileBytes, TotalBytes, StoredBytes, Clean;
    TotalsConserved(cfg, s);
    AcceptAllTotal(cfg, s, chunks);
    StoredWithinTotal(s.refs);
  }

  lemma AtLeastOnce(size: nat, count: Pos)
    ensures size <= size * count
  {
    assert size * count == size + size * (count - 1);
  }

  /** A live chunk is referenced at least once. */
  lemma {:induction false} StoredWithinTotal(refs: map<string, ChunkRef>)
    ensures StoredBytes(refs) <= TotalBytes(refs)
    decreases refs.Keys
  {
    if refs == map[] {
      assert RefSizes(refs) == map[];
    } else {
      var d :| d in refs;
      BytesRemove(refs, d);
      hide StoredBytes, TotalBytes;
      StoredWithinTotal(refs - {d});
      AtLeastOnce(refs[d].size, refs[d].count);
    }
  }
}
