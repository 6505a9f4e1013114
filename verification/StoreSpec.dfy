/** The operations of core/src/store/mod.rs as functions from one store state to the next. */
module StoreSpec {
  import opened Types
  import opened Hashing
  import opened DiskSpec
  import opened KeyNames
  import opened Chunking

  /** The store: the three in-memory tables and the backend. */
  datatype State = State(files: map<string, FileRec>, refs: map<string, ChunkRef>,
                         stats: Totals, disk: Disk)

  /** A backend action performed by the store. */
  function Lift<T>(s: State, o: Out<Disk, T>): Out<State, T> {
    match o
    case Done(b, v) => Done(s.(disk := b), v)
    case Fail(b, e) => Fail(s.(disk := b), e)
  }

  function Monus(a: nat, b: nat): nat {
    if a >= b then a - b else 0
  }

  // ----- Reference counts

  function Increment(refs: map<string, ChunkRef>, digest: string, size: nat): Result<ChunkRef> {
    if digest !in refs then Ok(ChunkRef(1, size))
    else
      var r := refs[digest];
      if r.size == 0 then Ok(ChunkRef(r.count + 1, size))
      else if size != 0 && r.size != size then Err(InvalidArgument)
      else Ok(ChunkRef(r.count + 1, r.size))
  }

  function Decrement(refs: map<string, ChunkRef>, digest: string): map<string, ChunkRef>
    requires digest in refs
  {
    var r := refs[digest];
    if r.count == 1 then refs - {digest} else refs[digest := ChunkRef(r.count - 1, r.size)]
  }

  // ----- Storing a chunk: one function for each lock scope of `store_chunk`

  /** Under the blob lock: put the blob unless the key exists already. */
  function BlobStep(s: State, digest: string, blob: Bytes): Out<State, bool> {
    var (s1, present) :- Lift(s, Exists(s.disk, digest));
    if present then Done(s1, true) else
    var (s2, _) :- Lift(s1, PutBlob(s1.disk, digest, blob));
    Done(s2, false)
  }

  /** Under the refcount lock: count the reference and persist the count. */
  function CountStep(s: State, digest: string, size: nat): Out<State, ()> {
    match Increment(s.refs, digest, size)
    case Err(e) => Fail(s, e)
    case Ok(r) =>
      Lift(s.(refs := s.refs[digest := r]), SaveRefcount(s.disk, digest, r.count, r.size))
  }

  /** Under the stats lock. */
  function StatsStep(s: State, existed: bool, size: nat): State {
    s.(stats := Totals(s.stats.total + size,
                       if existed then s.stats.stored else s.stats.stored + size,
                       s.stats.gc))
  }

  function StoreChunk(cfg: Cfg, s: State, digest: string, data: Bytes): Out<State, bool> {
    match Encode(cfg, data)
    case None => Fail(s, CodecFailed)
    case Some(blob) =>
      var (s1, existed) :- BlobStep(s, digest, blob);
      var (s2, _) :- CountStep(s1, digest, |data|);
      Done(StatsStep(s2, existed, |data|), existed)
  }

  // ----- Ingest sessions

  /** `accept` for every chunk in order; the digests in the same order. */
  function AcceptAll(cfg: Cfg, s: State, chunks: seq<Bytes>): Out<State, seq<string>>
    decreases |chunks|
  {
    if chunks == [] then Done(s, []) else
    var digest := DigestHex(cfg, chunks[0]);
    var (s1, _) :- StoreChunk(cfg, s, digest, chunks[0]);
    var (s2, rest) :- AcceptAll(cfg, s1, chunks[1..]);
    Done(s2, [digest] + rest)
  }

  /** The first half of `commit`: the manifest in memory, then on the backend. */
  function Publish(s: State, id: string, digests: seq<string>, fileBytes: nat): Out<State, ()> {
    if id == "" then Fail(s, InvalidArgument) else
    Lift(s.(files := s.files[id := FileRec(digests, fileBytes)]),
           SaveManifest(s.disk, id, digests, fileBytes))
  }

  function ChunkSize(cfg: Cfg, s: State, digest: string): Out<State, nat> {
    if digest in s.refs && s.refs[digest].size > 0 then Done(s, s.refs[digest].size) else
    var (s1, found) :- Lift(s, GetBlob(s.disk, digest));
    match found
    case None => Fail(s1, NotFound)
    case Some(blob) =>
      match Decode(cfg, blob)
      case None => Fail(s1, CodecFailed)
      case Some(data) => Done(s1, |data|)
  }

  /** What follows the decrement in `release_digests`: the refcount left in
      memory decides between dropping the chunk and saving the new count. */
  function Settle(s: State, digest: string, size: nat): Out<State, ()> {
    if digest in s.refs then
      Lift(s, SaveRefcount(s.disk, digest, s.refs[digest].count, size))
    else
      var (s1, _) :- Lift(s, DeleteBlob(s.disk, digest));
      var (s2, _) :- Lift(s1, RemoveRefcount(s1.disk, digest));
      Done(s2.(stats := s2.stats.(stored := Monus(s2.stats.stored, size), gc := s2.stats.gc + 1)), ())
  }

  /** One turn of the loop in `release_digests`. */
  function ReleaseOne(cfg: Cfg, s: State, digest: string): Out<State, ()> {
    var (s1, size) :- ChunkSize(cfg, s, digest);
    if digest !in s1.refs then Fail(s1, NotFound) else
    var (s2, _) :- Settle(s1.(refs := Decrement(s1.refs, digest)), digest, size);
    Done(s2.(stats := s2.stats.(total := Monus(s2.stats.total, size))), ())
  }

  function ReleaseAll(cfg: Cfg, s: State, digests: seq<string>): Out<State, ()>
    decreases |digests|
  {
    if digests == [] then Done(s, ()) else
    var (s1, _) :- ReleaseOne(cfg, s, digests[0]);
    ReleaseAll(cfg, s1, digests[1..])
  }

  function Commit(cfg: Cfg, s: State, id: string, digests: seq<string>, fileBytes: nat): Out<State, seq<string>> {
    var previous := if id in s.files then s.files[id].digests else [];
    var (s1, _) :- Publish(s, id, digests, fileBytes);
    var (s2, _) :- ReleaseAll(cfg, s1, previous);
    Done(s2, digests)
  }

  /** Every ingest path: accept the chunks in order, then commit. */
  function Ingest(cfg: Cfg, s: State, id: string, chunks: seq<Bytes>): Out<State, seq<string>> {
    var (s1, digests) :- AcceptAll(cfg, s, chunks);
    Commit(cfg, s1, id, digests, |Concat(chunks)|)
  }

  function IngestFixed(cfg: Cfg, s: State, id: string, data: Bytes, size: nat): Out<State, seq<string>> {
    if size == 0 then Fail(s, InvalidArgument) else Ingest(cfg, s, id, FixedChunks(data, size))
  }

  function Delete(cfg: Cfg, s: State, id: string): Out<State, ()> {
    if id !in s.files then Fail(s, NotFound) else
    var digests := s.files[id].digests;
    var s0 := s.(files := s.files - {id});
    var (s1, _) :- Lift(s0, RemoveManifest(s0.disk, id));
    ReleaseAll(cfg, s1, digests)
  }

  // ----- Reading

  function ReadChunk(cfg: Cfg, b: Disk, digest: string): Out<Disk, Bytes> {
    var (b1, found) :- GetBlob(b, digest);
    match found
    case None => Fail(b1, NotFound)
    case Some(blob) =>
      match Decode(cfg, blob)
      case None => Fail(b1, CodecFailed)
      case Some(data) =>
        if DigestHex(cfg, data) == digest then Done(b1, data) else Fail(b1, DigestMismatch)
  }

  /** The loop of `read_to_writer`; the state carries what has been written. */
  function ReadTo(cfg: Cfg, b: Disk, digests: seq<string>, written: Bytes): Out<(Disk, Bytes), ()>
    decreases |digests|
  {
    if digests == [] then Done((b, written), ()) else
    match ReadChunk(cfg, b, digests[0])
    case Fail(b1, e) => Fail((b1, written), e)
    case Done(b1, data) => ReadTo(cfg, b1, digests[1..], written + data)
  }

  function Read(cfg: Cfg, s: State, id: string): Out<State, Bytes> {
    if id !in s.files then Fail(s, NotFound) else
    match ReadTo(cfg, s.disk, s.files[id].digests, [])
    case Fail((b, _), e) => Fail(s.(disk := b), e)
    case Done((b, out), _) => Done(s.(disk := b), out)
  }

  // ----- Opening

  /** Whether `backfill_refcount_sizes` visits the entry. */
  predicate Stale(r: ChunkRef) {
    r.size == 0
  }

  /** `backfill_refcount_sizes` over the entries collected in the given order. */
  function Backfill(s: State, order: seq<string>): Out<State, ()>
    decreases |order|
  {
    if order == [] then Done(s, ())
    else if order[0] !in s.refs then Backfill(s, order[1..])
    else
      var digest := order[0];
      var count := s.refs[digest].count;
      var (s1, found) :- Lift(s, GetBlob(s.disk, digest));
      if found.None? || !IsChunkDigest(digest) then Backfill(s1, order[1..]) else
      var size := |found.value|;
      var (s2, _) :- Lift(s1.(refs := SetRef(s1.refs, digest, count, size)),
                            SaveRefcount(s1.disk, digest, count, size));
      Backfill(s2, order[1..])
  }

  /** A chunk's bytes, once as stored and once for each reference. */
  function AddChunk(sum: Totals, size: nat, count: nat): Totals {
    Totals(sum.total + size * count, sum.stored + size, sum.gc)
  }

  /** The loop of `rebuild_stats` over the entries in the given order, which
      measures unknown sizes on the backend. */
  function Recount(cfg: Cfg, s: State, order: seq<string>, sum: Totals): Out<State, Totals>
    decreases |order|
  {
    if order == [] then Done(s, sum)
    else if order[0] !in s.refs then Recount(cfg, s, order[1..], sum)
    else
      var (s1, size) :- ChunkSize(cfg, s, order[0]);
      var count := s.refs[order[0]].count;
      Recount(cfg, s1, order[1..], AddChunk(sum, size, count))
  }

  function RebuildStats(cfg: Cfg, s: State, order: seq<string>): Out<State, ()> {
    var (s1, sum) :- Recount(cfg, s, order, Totals(0, 0, 0));
    Done(s1.(stats := sum), ())
  }

  /** `open`: sizes are filled in and counted before a codec is attached. The
      two orders are the iteration orders of the refcount table. */
  function Open(cfg: Cfg, b: Disk, stale: seq<string>, order: seq<string>): Out<Disk, State> {
    var (b1, files) :- LoadManifests(b);
    var (b2, refs) :- LoadRefcounts(b1);
    match Backfill(State(files, refs, Totals(0, 0, 0), b2), stale)
    case Fail(s3, e) => Fail(s3.disk, e)
    case Done(s3, _) =>
      match RebuildStats(cfg.(codec := None), s3, order)
      case Fail(s4, e) => Fail(s4.disk, e)
      case Done(s4, _) => Done(s4.disk, s4)
  }

  /** One iteration order of the entries whose size is unknown. */
  ghost predicate IsStaleListing(order: seq<string>, refs: map<string, ChunkRef>) {
    IsListing(order, set d | d in refs && Stale(refs[d]))
  }

  // ----- Checking

  datatype Report = Report(missing: seq<string>, orphans: seq<string>, repaired: nat)

  /** The scan for counted digests without a blob. */
  function FindMissing(b: Disk, live: seq<string>): Out<Disk, seq<string>>
    decreases |live|
  {
    if live == [] then Done(b, []) else
    var (b1, present) :- Exists(b, live[0]);
    var (b2, rest) :- FindMissing(b1, live[1..]);
    Done(b2, if present then rest else [live[0]] + rest)
  }

  lemma {:induction false} FindMissingKeeps(b: Disk, live: seq<string>)
    ensures FindMissing(b, live).s == b.(plan := FindMissing(b, live).s.plan)
    decreases |live|
  {
    if live != [] {
      FindMissingKeeps(Spend(b), live[1..]);
    }
  }

  /** The filter of `collect_orphans`. */
  function OrphansAmong(names: seq<string>, live: seq<string>): seq<string> {
    if names == [] then []
    else if IsChunkDigest(names[0]) && names[0] !in live then [names[0]] + OrphansAmong(names[1..], live)
    else OrphansAmong(names[1..], live)
  }

  /** `list_keys`; a backend that cannot list answers None. */
  function ListKeys(b: Disk, names: Option<seq<string>>): Out<Disk, Option<seq<string>>> {
    if Down(b) then Fail(b, Fault) else Done(Spend(b), names)
  }

  function DeleteBlobs(b: Disk, names: seq<string>): Out<Disk, ()>
    decreases |names|
  {
    if names == [] then Done(b, ()) else
    var (b1, _) :- DeleteBlob(b, names[0]);
    DeleteBlobs(b1, names[1..])
  }

  /** `fsck`, for the order in which it visits the refcount table and the answer
      of the backend when it is asked to list its keys. */
  function Fsck(s: State, repair: bool, live: seq<string>, names: Option<seq<string>>): Out<State, Report> {
    var (s1, missing) :- Lift(s, FindMissing(s.disk, live));
    var (s2, listed) :- Lift(s1, ListKeys(s1.disk, names));
    var orphans := if listed.Some? then OrphansAmong(listed.value, live) else [];
    if !repair then Done(s2, Report(missing, orphans, 0)) else
    var (s3, _) :- Lift(s2, DeleteBlobs(s2.disk, orphans));
    Done(s3, Report(missing, orphans, |orphans|))
  }

  /** The names of all keys on the backend. */
  ghost predicate IsStored(b: Disk, name: string) {
    || name in b.blobs
    || (exists id :: id in b.manifests && name == Name(DocKey(Manifests, id)))
    || (exists id :: id in b.refcounts && name == Name(DocKey(Refcounts, id)))
  }

  /** No name of digest shape is listed twice. */
  ghost predicate DigestsOnce(names: seq<string>) {
    forall i, j :: 0 <= i < j < |names| && IsChunkDigest(names[i]) ==> names[i] != names[j]
  }

  /** One answer to `list_keys("")`. */
  ghost predicate IsNameListing(names: seq<string>, b: Disk) {
    DigestsOnce(names) && forall n :: n in names <==> IsStored(b, n)
  }
}
