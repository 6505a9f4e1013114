/** The store behaves as a plain map from file ids to bytes. */
module Refinement {
  import opened Types
  import opened Hashing
  import opened DiskSpec
  import opened Chunking
  import opened StoreSpec
  import opened Counting
  import opened Records
  import opened Invariants
  import opened ExactOps
  import opened ExactRelease

  /** Between operations: nothing is pending, and no backend call will fail. */
  ghost predicate Clean(cfg: Cfg, s: State) {
    Consistent(cfg, s, multiset{}) && s.disk.plan.Never?
  }

  /** The map the store stands for. */
  ghost function Contents(cfg: Cfg, s: State): map<string, Bytes> {
    map f | f in s.files :: Meaning(cfg, s.files[f].digests)
  }

  ghost predicate Ingestible(cfg: Cfg, chunks: seq<Bytes>) {
    AllInPlay(cfg, chunks) && Encodable(cfg, chunks)
  }

  lemma EmptyStoreIsClean(cfg: Cfg)
    ensures var s := State(map[], map[], Totals(0, 0, 0), Disk(map[], map[], map[], Never));
            && Clean(cfg, s) && Balanced(s) && NoOrphans(s) && Contents(cfg, s) == map[]
  {
    var empty: map<string, nat> := map[];
    assert RefBytes(map[]) == empty && RefSizes(map[]) == empty;
    var s := State(map[], map[], Totals(0, 0, 0), Disk(map[], map[], map[], Never));
    assert RefDocs(s.refs) == map[] && FileDocs(s.files) == map[];
    assert s.disk.refcounts - {INDEX} == map[];
    assert AllRefs(s.files) == multiset{};
  }

  lemma IngestRefines(cfg: Cfg, s: State, id: string, chunks: seq<Bytes>)
    requires Clean(cfg, s) && LawfulCodec(cfg) && Ingestible(cfg, chunks) && ValidId(id)
    ensures var o := Ingest(cfg, s, id, chunks);
            && o.Done? && o.v == DigestsOf(cfg, chunks)
            && Clean(cfg, o.s)
            && o.s.files == s.files[id := FileRec(o.v, |Concat(chunks)|)]
            && Contents(cfg, o.s) == Contents(cfg, s)[id := Concat(chunks)]
            && (Balanced(s) && NoOrphans(s) ==> Balanced(o.s) && NoOrphans(o.s))
  {
    hide Consistent, AcceptAll, Commit, Balanced, NoOrphans, AllInPlay, Encodable, LawfulCodec, Meaning, Concat;
    hide DigestsOf;
    AcceptAllExact(cfg, s, chunks, multiset{});
    var o1 := AcceptAll(cfg, s, chunks);
    assert multiset{} + multiset(o1.v) == multiset(o1.v);
    MeaningOfChunks(cfg, chunks);
    CommitExact(cfg, o1.s, id, o1.v);
    if Balanced(s) && NoOrphans(s) {
      AcceptAllBalanced(cfg, s, chunks, multiset{});
    }
  }

  /** A delete is the removal of the manifest, then the release. */
  lemma DeletePieces(cfg: Cfg, s: State, id: string)
    requires id in s.files
    ensures var o := RemoveManifest(s.disk, id);
            o.Done? ==>
              Delete(cfg, s, id) ==
              ReleaseAll(cfg, s.(files := s.files - {id}, disk := o.s), s.files[id].digests)
  {
    hide RemoveManifest, ReleaseAll;
  }

  /** Deleting a file that is there; an absent id is refused without effect. */
  lemma DeleteRefines(cfg: Cfg, s: State, id: string)
    requires Clean(cfg, s)
    ensures var o := Delete(cfg, s, id);
            && (id !in s.files ==> o == Fail(s, NotFound))
            && (id in s.files ==>
                && o.Done? && Clean(cfg, o.s) && o.s.files == s.files - {id}
                && Contents(cfg, o.s) == Contents(cfg, s) - {id}
                && (Balanced(s) ==> Balanced(o.s) && (NoOrphans(s) ==> NoOrphans(o.s))))
  {
    hide Consistent, ReleaseAll, Balanced, NoOrphans, RemoveEntry, Meaning, WithoutEntry, IndexReadable;
    if id in s.files {
      var digests := s.files[id].digests;
      UnlinkExact(cfg, s, id, multiset{});
      var s0 := s.(files := s.files - {id});
      var s1 := s0.(disk := RemoveManifest(s0.disk, id).s);
      assert multiset{} + multiset(digests) == multiset(digests);
      ReleaseAllExact(cfg, s1, digests, multiset{});
      if Balanced(s) {
        hide *;
        SameTotals(s, s1);
        ReleaseAllBalanced(cfg, s1, digests, multiset{});
      }
    }
  }

  lemma SameTotals(s: State, s': State)
    requires s'.refs == s.refs && s'.stats == s.stats && s'.disk.blobs == s.disk.blobs
    ensures Balanced(s) == Balanced(s') && NoOrphans(s) == NoOrphans(s')
  {
  }

  /** Removing the manifest leaves the file's references pending, or stops
      before the record or before the index. */
  lemma UnlinkExact(cfg: Cfg, s: State, id: string, pending: multiset<string>)
    requires Consistent(cfg, s, pending) && id in s.files
    ensures var s0 := s.(files := s.files - {id});
            var o := RemoveManifest(s0.disk, id);
            && OnlyIn(s.disk, o.s, Manifests) && (s.disk.plan.Never? ==> o.Done?)
            && (o.Done? ==>
                && o.s.manifests == WithoutEntry(s.disk.manifests, id)
                && Consistent(cfg, s0.(disk := o.s), pending + multiset(s.files[id].digests)))
            && (o.Fail? ==> o.s.manifests == s.disk.manifests || o.s.manifests == s.disk.manifests - {id})
  {
    hide Counted, Backed, BlobsGood, RemoveEntry, WithoutEntry;
    FileIsNotIndex(cfg, s, id, pending);
    hide Persisted, FilesSized;
    RemoveEntryEffect(s.disk, Manifests, id);
    UnlinkedCounted(s.files, s.refs, id, pending);
    UnlinkedPersisted(s.disk.manifests, s.files, id);
    UnlinkedSized(cfg, s.files, id);
  }

  lemma FileIsNotIndex(cfg: Cfg, s: State, id: string, pending: multiset<string>)
    requires Consistent(cfg, s, pending) && id in s.files
    ensures ValidId(id) && IndexReadable(s.disk.manifests)
  {
    assert id in FileDocs(s.files);
  }

  lemma UnlinkedCounted(files: map<string, FileRec>, refs: map<string, ChunkRef>, id: string, pending: multiset<string>)
    requires Counted(files, refs, pending) && id in files
    ensures Counted(files - {id}, refs, pending + multiset(files[id].digests))
  {
    AllRefsRemove(files, id);
  }

  lemma UnlinkedPersisted(m: map<string, Doc>, files: map<string, FileRec>, id: string)
    requires Persisted(m, FileDocs(files)) && id != INDEX
    ensures Persisted(WithoutEntry(m, id), FileDocs(files - {id}))
  {
    FileDocsRemove(files, id);
    RemovePersists(m, FileDocs(files), id);
  }

  lemma UnlinkedSized(cfg: Cfg, files: map<string, FileRec>, id: string)
    requires FilesSized(cfg, files)
    ensures FilesSized(cfg, files - {id})
  {
  }

  // ----- Reading

  lemma {:induction false} ReadToExact(cfg: Cfg, b: Disk, digests: seq<string>, written: Bytes)
    requires b.plan.Never? && BlobsGood(cfg, b.blobs)
    requires forall i :: 0 <= i < |digests| ==> Known(cfg, digests[i]) && digests[i] in b.blobs
    ensures ReadTo(cfg, b, digests, written) == Done((b, written + Meaning(cfg, digests)), ())
    decreases |digests|
  {
    hide Hex, IsHexDigit;
    if digests != [] {
      var d := digests[0];
      assert Known(cfg, d) && IsChunkDigest(DigestHex(cfg, cfg.plain(d)));
      ReadToExact(cfg, b, digests[1..], written + cfg.plain(d));
      assert (written + cfg.plain(d)) + Meaning(cfg, digests[1..]) == written + Meaning(cfg, digests);
    } else {
      assert written + Meaning(cfg, digests) == written;
    }
  }

  /** Reading spends backend calls and changes nothing else. */
  lemma {:induction false} ReadToReplans(cfg: Cfg, b: Disk, digests: seq<string>, written: Bytes)
    ensures var o := ReadTo(cfg, b, digests, written);
            o.s.0 == b.(plan := o.s.0.plan)
    decreases |digests|
  {
    if digests != [] {
      var o := ReadChunk(cfg, b, digests[0]);
      if o.Done? {
        ReadToReplans(cfg, o.s, digests[1..], written + o.v);
      }
    }
  }

  lemma FileIsBacked(cfg: Cfg, s: State, pending: multiset<string>, id: string, d: string)
    requires Consistent(cfg, s, pending) && id in s.files && d in s.files[id].digests
    ensures Known(cfg, d) && d in s.refs && d in s.disk.blobs
  {
    hide Persisted, FilesSized, IsChunkDigest, BlobsGood;
    AllRefsMember(s.files, id, d);
    hide AllRefs;
    assert Count(s.refs, d) > 0;
  }

  /** Reading gives the contents, and NotFound exactly when the id is absent. */
  lemma ReadRefines(cfg: Cfg, s: State, id: string)
    requires Clean(cfg, s)
    ensures Read(cfg, s, id) == if id in s.files then Done(s, Contents(cfg, s)[id]) else Fail(s, NotFound)
  {
    if id in s.files {
      assert BlobsGood(cfg, s.disk.blobs);
      hide Consistent, BlobsGood, Known, ReadTo, Meaning;
      var digests := s.files[id].digests;
      forall i | 0 <= i < |digests| ensures Known(cfg, digests[i]) && digests[i] in s.disk.blobs {
        FileIsBacked(cfg, s, multiset{}, id, digests[i]);
      }
      ReadToExact(cfg, s.disk, digests, []);
      assert [] + Meaning(cfg, digests) == Meaning(cfg, digests);
    }
  }

  // ----- Runs

  datatype Op =
    | IngestChunksOp(id: string, chunks: seq<Bytes>)
    | IngestFixedOp(id: string, data: Bytes, chunkSize: nat)
    | DeleteOp(id: string)
    | ReadOp(id: string)

  datatype Answer = Digests(digests: seq<string>) | Deleted | Payload(data: Bytes) | Refused(e: Error)

  /** The payloads are in play and the codec accepts them; the id is neither
      empty nor the index name. */
  ghost predicate Allowed(cfg: Cfg, op: Op) {
    match op
    case IngestChunksOp(id, chunks) => ValidId(id) && Ingestible(cfg, chunks)
    case IngestFixedOp(id, data, size) => ValidId(id) && (size > 0 ==> Ingestible(cfg, FixedChunks(data, size)))
    case _ => true
  }

  function Reply<T>(o: Out<State, T>, f: T -> Answer): (State, Answer) {
    match o
    case Done(s, v) => (s, f(v))
    case Fail(s, e) => (s, Refused(e))
  }

  function Step(cfg: Cfg, s: State, op: Op): (State, Answer) {
    match op
    case IngestChunksOp(id, chunks) => Reply(Ingest(cfg, s, id, chunks), ds => Digests(ds))
    case IngestFixedOp(id, data, size) => Reply(IngestFixed(cfg, s, id, data, size), ds => Digests(ds))
    case DeleteOp(id) => Reply(Delete(cfg, s, id), _ => Deleted)
    case ReadOp(id) => Reply(Read(cfg, s, id), data => Payload(data))
  }

  function Run(cfg: Cfg, s: State, ops: seq<Op>): (State, seq<Answer>)
    decreases |ops|
  {
    if ops == [] then (s, []) else
    var (s1, a) := Step(cfg, s, ops[0]);
    var (s2, rest) := Run(cfg, s1, ops[1..]);
    (s2, [a] + rest)
  }

  /** The same operations on a map from file ids to bytes. */
  function MapStep(cfg: Cfg, m: map<string, Bytes>, op: Op): (map<string, Bytes>, Answer) {
    match op
    case IngestChunksOp(id, chunks) => (m[id := Concat(chunks)], Digests(DigestsOf(cfg, chunks)))
    case IngestFixedOp(id, data, size) =>
      if size == 0 then (m, Refused(InvalidArgument))
      else (m[id := data], Digests(DigestsOf(cfg, FixedChunks(data, size))))
    case DeleteOp(id) => if id in m then (m - {id}, Deleted) else (m, Refused(NotFound))
    case ReadOp(id) => (m, if id in m then Payload(m[id]) else Refused(NotFound))
  }

  function MapRun(cfg: Cfg, m: map<string, Bytes>, ops: seq<Op>): (map<string, Bytes>, seq<Answer>)
    decreases |ops|
  {
    if ops == [] then (m, []) else
    var (m1, a) := MapStep(cfg, m, ops[0]);
    var (m2, rest) := MapRun(cfg, m1, ops[1..]);
    (m2, [a] + rest)
  }

  lemma StepRefines(cfg: Cfg, s: State, op: Op)
    requires Clean(cfg, s) && LawfulCodec(cfg) && Allowed(cfg, op)
    ensures var (s', a) := Step(cfg, s, op);
            && Clean(cfg, s')
            && MapStep(cfg, Contents(cfg, s), op) == (Contents(cfg, s'), a)
            && (Balanced(s) && NoOrphans(s) ==> Balanced(s') && NoOrphans(s'))
  {
    hide Clean, Balanced, NoOrphans, LawfulCodec, Ingest, Delete, Read, Concat, Ingestible, FixedChunks;
    match op
    case IngestChunksOp(id, chunks) => IngestRefines(cfg, s, id, chunks);
    case IngestFixedOp(id, data, size) =>
      if size > 0 {
        IngestRefines(cfg, s, id, FixedChunks(data, size));
        FixedChunksTile(data, size);
      }
    case DeleteOp(id) => DeleteRefines(cfg, s, id);
    case ReadOp(id) => ReadRefines(cfg, s, id);
  }

  /** Every failure-free run answers as the map does and ends in the state that
      stands for the map reached; counts, disk and totals stay exact. */
  lemma {:induction false} RunRefines(cfg: Cfg, s: State, ops: seq<Op>)
    requires Clean(cfg, s) && LawfulCodec(cfg)
    requires forall i :: 0 <= i < |ops| ==> Allowed(cfg, ops[i])
    ensures var (s', answers) := Run(cfg, s, ops);
            && Clean(cfg, s')
            && MapRun(cfg, Contents(cfg, s), ops) == (Contents(cfg, s'), answers)
            && (Balanced(s) && NoOrphans(s) ==> Balanced(s') && NoOrphans(s'))
    decreases |ops|
  {
    hide Clean, Balanced, NoOrphans, LawfulCodec, Step, MapStep, Allowed, Contents;
    if ops != [] {
      StepRefines(cfg, s, ops[0]);
      RunRefines(cfg, Step(cfg, s, ops[0]).0, ops[1..]);
    }
  }
}
