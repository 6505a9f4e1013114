/** Threads that ingest new files at the same time. Each step is one lock scope
    of `store_chunk` or `commit`; a schedule picks the thread of every step. */
module Concurrency {
  import opened Types
  import opened Hashing
  import opened DiskSpec
  import opened StoreSpec
  import opened Counting
  import opened Records
  import opened Invariants
  import opened ExactSteps
  import opened ExactOps
  import opened ExactRelease
  import opened Refinement

  /** Where a thread is: before a chunk (or, out of chunks, before commit), with
      its chunk's blob there, with it counted, with the manifest in memory, with
      its record on the backend, with the index list read, or done. */
  datatype Pc =
    | Ready | Counting(existed: bool) | Tallying(existed: bool) | Saving | Listing | Appending(index: seq<string>)
    | Finished | Failed(e: Error)

  datatype Thread = Thread(id: string, chunks: seq<Bytes>, todo: seq<Bytes>, accepted: seq<string>,
                           fileBytes: nat, pc: Pc)

  /** The shared store, the threads, and the digests put so far, in order. */
  datatype Sys = Sys(s: State, threads: seq<Thread>, puts: seq<string>)

  function Current(cfg: Cfg, t: Thread): string
    requires t.todo != []
  {
    DigestHex(cfg, t.todo[0])
  }

  // ----- Steps

  function PutStep(cfg: Cfg, s: State, t: Thread): (State, Thread, seq<string>)
    requires t.todo != []
  {
    match Encode(cfg, t.todo[0])
    case None => (s, t.(pc := Failed(CodecFailed)), [])
    case Some(blob) =>
      match BlobStep(s, Current(cfg, t), blob)
      case Fail(s1, e) => (s1, t.(pc := Failed(e)), [])
      case Done(s1, existed) => (s1, t.(pc := Counting(existed)), if existed then [] else [Current(cfg, t)])
  }

  function IncrementStep(cfg: Cfg, s: State, t: Thread): (State, Thread)
    requires t.todo != [] && t.pc.Counting?
  {
    match CountStep(s, Current(cfg, t), |t.todo[0]|)
    case Fail(s1, e) => (s1, t.(pc := Failed(e)))
    case Done(s1, _) => (s1, t.(pc := Tallying(t.pc.existed)))
  }

  function TallyStep(cfg: Cfg, s: State, t: Thread): (State, Thread)
    requires t.todo != [] && t.pc.Tallying?
  {
    (StatsStep(s, t.pc.existed, |t.todo[0]|),
     t.(todo := t.todo[1..], accepted := t.accepted + [Current(cfg, t)],
        fileBytes := t.fileBytes + |t.todo[0]|, pc := Ready))
  }

  function InsertStep(s: State, t: Thread): (State, Thread) {
    if t.id == "" then (s, t.(pc := Failed(InvalidArgument)))
    else (s.(files := s.files[t.id := FileRec(t.accepted, t.fileBytes)]), t.(pc := Saving))
  }

  /** `save_manifest` holds no lock: putting the record, reading the index list
      and rewriting it are three steps. */
  function SaveStep(s: State, t: Thread): (State, Thread) {
    match Lift(s, PutDoc(s.disk, Manifests, t.id, ManifestDoc(t.accepted, t.fileBytes)))
    case Fail(s1, e) => (s1, t.(pc := Failed(e)))
    case Done(s1, _) => (s1, t.(pc := Listing))
  }

  function ListStep(s: State, t: Thread): (State, Thread) {
    match Lift(s, ReadList(s.disk, Manifests))
    case Fail(s1, e) => (s1, t.(pc := Failed(e)))
    case Done(s1, index) => (s1, t.(pc := if t.id in index then Finished else Appending(index)))
  }

  function AppendStep(s: State, t: Thread): (State, Thread)
    requires t.pc.Appending?
  {
    match Lift(s, PutDoc(s.disk, Manifests, INDEX, List(t.pc.index + [t.id])))
    case Fail(s1, e) => (s1, t.(pc := Failed(e)))
    case Done(s1, _) => (s1, t.(pc := Finished))
  }

  /** One step of thread `i`; a thread that is done, or not there, does nothing. */
  function Step(cfg: Cfg, sys: Sys, i: nat): Sys {
    if i >= |sys.threads| then sys else
    var t := sys.threads[i];
    match t.pc
    case Ready =>
      if t.todo != [] then
        var (s1, t1, put) := PutStep(cfg, sys.s, t);
        Sys(s1, sys.threads[i := t1], sys.puts + put)
      else
        var (s1, t1) := InsertStep(sys.s, t);
        sys.(s := s1, threads := sys.threads[i := t1])
    case Counting(_) =>
      if t.todo == [] then sys else
      var (s1, t1) := IncrementStep(cfg, sys.s, t);
      sys.(s := s1, threads := sys.threads[i := t1])
    case Tallying(_) =>
      if t.todo == [] then sys else
      var (s1, t1) := TallyStep(cfg, sys.s, t);
      sys.(s := s1, threads := sys.threads[i := t1])
    case Saving =>
      var (s1, t1) := SaveStep(sys.s, t);
      sys.(s := s1, threads := sys.threads[i := t1])
    case Listing =>
      var (s1, t1) := ListStep(sys.s, t);
      sys.(s := s1, threads := sys.threads[i := t1])
    case Appending(_) =>
      var (s1, t1) := AppendStep(sys.s, t);
      sys.(s := s1, threads := sys.threads[i := t1])
    case Finished => sys
    case Failed(_) => sys
  }

  function Run(cfg: Cfg, sys: Sys, schedule: seq<nat>): Sys
    decreases |schedule|
  {
    if schedule == [] then sys else Run(cfg, Step(cfg, sys, schedule[0]), schedule[1..])
  }

  // ----- What the threads hold

  /** References counted for a session whose manifest is not in memory yet. */
  ghost function Mine(cfg: Cfg, t: Thread): multiset<string> {
    if Inserted(t) then multiset{}
    else if t.pc.Tallying? && t.todo != [] then multiset(t.accepted) + multiset{Current(cfg, t)}
    else multiset(t.accepted)
  }

  ghost function AllMine(cfg: Cfg, ts: seq<Thread>): multiset<string> {
    if ts == [] then multiset{} else Mine(cfg, ts[0]) + AllMine(cfg, ts[1..])
  }

  /** Bytes counted but not yet in the running total. */
  ghost function Owed(t: Thread): nat {
    if t.pc.Tallying? && t.todo != [] then |t.todo[0]| else 0
  }

  /** Bytes put but not yet in the stored bytes. */
  ghost function OwedNew(t: Thread): nat {
    if (t.pc.Tallying? || t.pc.Counting?) && !t.pc.existed && t.todo != [] then |t.todo[0]| else 0
  }

  ghost function AllOwed(ts: seq<Thread>): nat {
    if ts == [] then 0 else Owed(ts[0]) + AllOwed(ts[1..])
  }

  ghost function AllOwedNew(ts: seq<Thread>): nat {
    if ts == [] then 0 else OwedNew(ts[0]) + AllOwedNew(ts[1..])
  }

  /** Replacing one thread changes each sum by that thread's share. */
  lemma {:induction false} SharesUpdate(cfg: Cfg, ts: seq<Thread>, i: nat, t: Thread)
    requires i < |ts|
    ensures AllMine(cfg, ts[i := t]) + Mine(cfg, ts[i]) == AllMine(cfg, ts) + Mine(cfg, t)
    ensures AllOwed(ts[i := t]) + Owed(ts[i]) == AllOwed(ts) + Owed(t)
    ensures AllOwedNew(ts[i := t]) + OwedNew(ts[i]) == AllOwedNew(ts) + OwedNew(t)
    decreases |ts|
  {
    hide Mine, Owed, OwedNew;
    var us := ts[i := t];
    if i == 0 {
      assert us[1..] == ts[1..];
      Swap(Mine(cfg, t), AllMine(cfg, ts[1..]), Mine(cfg, ts[0]));
    } else {
      assert us[1..] == ts[1..][i - 1 := t];
      SharesUpdate(cfg, ts[1..], i - 1, t);
      Regroup(Mine(cfg, ts[0]), AllMine(cfg, us[1..]), Mine(cfg, ts[i]), AllMine(cfg, ts[1..]), Mine(cfg, t));
    }
  }

  lemma Cancel(a: multiset<string>, b: multiset<string>, m: multiset<string>)
    requires a + m == b + m
    ensures a == b
  {
    forall x ensures a[x] == b[x] {
      assert (a + m)[x] == (b + m)[x];
    }
  }

  lemma Swap(x: multiset<string>, y: multiset<string>, z: multiset<string>)
    ensures (x + y) + z == (z + y) + x
  {
  }

  lemma Regroup(x: multiset<string>, a: multiset<string>, b: multiset<string>, c: multiset<string>, d: multiset<string>)
    requires a + b == c + d
    ensures (x + a) + b == (x + c) + d
  {
    assert (x + a) + b == x + (a + b);
    assert (x + c) + d == x + (c + d);
  }

  /** Bytes of the digest-shaped blobs. */
  ghost function BlobSizes(cfg: Cfg, blobs: map<string, Bytes>): map<string, nat> {
    map d | d in blobs && IsChunkDigest(d) :: |cfg.plain(d)|
  }

  ghost function BlobBytes(cfg: Cfg, blobs: map<string, Bytes>): nat {
    Sum(BlobSizes(cfg, blobs))
  }

  // ----- The invariant

  /** Counts are exact with what the sessions hold, persisted, and backed. */
  ghost predicate Ledger(cfg: Cfg, s: State, pending: multiset<string>) {
    && BlobsGood(cfg, s.disk.blobs) && Backed(cfg, s.refs, s.disk.blobs)
    && Counted(s.files, s.refs, pending)
    && Persisted(s.disk.refcounts, RefDocs(s.refs))
    && s.disk.plan.Never? && IndexReadable(s.disk.manifests)
  }

  /** The running totals and what the threads still owe them. */
  ghost predicate Settled(cfg: Cfg, s: State, owed: nat, owedNew: nat) {
    && s.stats.total + owed == TotalBytes(s.refs)
    && s.stats.stored + owedNew == BlobBytes(cfg, s.disk.blobs)
  }

  ghost function Record(cfg: Cfg, t: Thread): FileRec {
    FileRec(DigestsOf(cfg, t.chunks), |Concat(t.chunks)|)
  }

  /** The manifest is in memory. */
  ghost predicate Inserted(t: Thread) {
    t.pc.Saving? || Recorded(t)
  }

  /** The manifest record is on the backend. */
  ghost predicate Recorded(t: Thread) {
    t.pc.Listing? || t.pc.Appending? || t.pc.Finished?
  }

  /** What a thread has done so far, and what it relies on. */
  ghost predicate Sound(cfg: Cfg, s: State, t: Thread) {
    && !t.pc.Failed? && ValidId(t.id)
    && AllInPlay(cfg, t.chunks) && Encodable(cfg, t.chunks)
    && |t.accepted| <= |t.chunks| && t.todo == t.chunks[|t.accepted|..]
    && t.accepted == DigestsOf(cfg, t.chunks)[..|t.accepted|]
    && t.fileBytes == |Concat(t.chunks[..|t.accepted|])|
    && (t.pc.Counting? || t.pc.Tallying? ==> t.todo != [] && Current(cfg, t) in s.disk.blobs)
    && (Inserted(t) ==> t.todo == [] && t.id in s.files && s.files[t.id] == Record(cfg, t))
    && (!Inserted(t) ==> t.id !in s.files)
    && (Recorded(t) ==> t.id in s.disk.manifests &&
                           s.disk.manifests[t.id] == ManifestDoc(Record(cfg, t).digests, Record(cfg, t).fileBytes))
  }

  ghost predicate DistinctIds(ts: seq<Thread>) {
    forall i, j :: 0 <= i < j < |ts| ==> ts[i].id != ts[j].id
  }

  ghost predicate AllSound(cfg: Cfg, s: State, ts: seq<Thread>) {
    forall i :: 0 <= i < |ts| ==> Sound(cfg, s, ts[i])
  }

  /** Some thread is about to count this digest. */
  ghost predicate Awaited(cfg: Cfg, ts: seq<Thread>, d: string) {
    exists i :: 0 <= i < |ts| && ts[i].pc.Counting? && ts[i].todo != [] && Current(cfg, ts[i]) == d
  }

  /** A digest-shaped blob is counted, or about to be. */
  ghost predicate NoLostBlobs(cfg: Cfg, s: State, ts: seq<Thread>) {
    forall d :: d in s.disk.blobs && IsChunkDigest(d) ==> d in s.refs || Awaited(cfg, ts, d)
  }

  /** Every put was of a key that was not there; together with the keys at the
      start they make up the keys now. */
  ghost predicate PutOnce(before: map<string, Bytes>, now: map<string, Bytes>, puts: seq<string>) {
    && NoDup(puts)
    && (forall d :: d in puts ==> d !in before)
    && (forall d :: d in now <==> d in before || d in puts)
  }

  /** Some thread has put a manifest for this id in memory. */
  ghost predicate Owned(ts: seq<Thread>, f: string) {
    exists i :: 0 <= i < |ts| && ts[i].id == f && Inserted(ts[i])
  }

  /** The files at the start are as they were, and every file is one of those or some thread's. */
  ghost predicate FilesKept(start: State, s: State, ts: seq<Thread>) {
    && (forall f :: f in start.files ==> f in s.files && s.files[f] == start.files[f])
    && (forall f :: f in s.files ==> f in start.files || Owned(ts, f))
  }

  ghost predicate Inv(cfg: Cfg, start: State, sys: Sys) {
    && Ledger(cfg, sys.s, AllMine(cfg, sys.threads))
    && Settled(cfg, sys.s, AllOwed(sys.threads), AllOwedNew(sys.threads))
    && DistinctIds(sys.threads) && AllSound(cfg, sys.s, sys.threads)
    && NoLostBlobs(cfg, sys.s, sys.threads)
    && PutOnce(start.disk.blobs, sys.s.disk.blobs, sys.puts)
    && FilesKept(start, sys.s, sys.threads)
  }

  // ----- What does not concern the other threads

  /** Blobs only appear, and files and manifest records change only at `id`; the
      index list may change too. */
  ghost predicate Gentle(s: State, s': State, id: string) {
    && s.disk.blobs.Keys <= s'.disk.blobs.Keys
    && s'.files - {id} == s.files - {id}
    && s'.disk.manifests - {id, INDEX} == s.disk.manifests - {id, INDEX}
  }

  lemma OthersSound(cfg: Cfg, s: State, s': State, t: Thread, id: string)
    requires Sound(cfg, s, t) && Gentle(s, s', id) && t.id != id
    ensures Sound(cfg, s', t)
  {
    assert t.id != INDEX;
    hide AllInPlay, Encodable, DigestsOf, Concat, ValidId, Current, Record;
    assert t.id in s.files <==> t.id in s.files - {id};
    assert t.id in s'.files <==> t.id in s'.files - {id};
    assert t.id in s.files ==> s.files[t.id] == (s.files - {id})[t.id];
    assert t.id in s'.files ==> s'.files[t.id] == (s'.files - {id})[t.id];
    assert t.id in s.disk.manifests ==> t.id in s.disk.manifests - {id, INDEX};
    assert t.id in s.disk.manifests ==> s.disk.manifests[t.id] == (s'.disk.manifests - {id, INDEX})[t.id];
  }

  lemma AllSoundUpdate(cfg: Cfg, s: State, s': State, ts: seq<Thread>, i: nat, t: Thread)
    requires i < |ts| && AllSound(cfg, s, ts) && DistinctIds(ts)
    requires Gentle(s, s', ts[i].id) && Sound(cfg, s', t) && t.id == ts[i].id
    ensures AllSound(cfg, s', ts[i := t]) && DistinctIds(ts[i := t])
  {
    hide Sound, Gentle;
    var us := ts[i := t];
    forall j | 0 <= j < |us| ensures Sound(cfg, s', us[j]) {
      if j != i {
        OthersSound(cfg, s, s', ts[j], ts[i].id);
      }
    }
  }

  lemma AwaitedUpdate(cfg: Cfg, ts: seq<Thread>, i: nat, t: Thread, d: string)
    requires i < |ts| && Awaited(cfg, ts, d)
    requires ts[i].pc.Counting? && ts[i].todo != [] ==> Current(cfg, ts[i]) != d
    ensures Awaited(cfg, ts[i := t], d)
  {
    hide Current;
    var j :| 0 <= j < |ts| && ts[j].pc.Counting? && ts[j].todo != [] && Current(cfg, ts[j]) == d;
    assert ts[i := t][j] == ts[j];
  }

  lemma OwnedUpdate(ts: seq<Thread>, i: nat, t: Thread, f: string)
    requires i < |ts| && Owned(ts, f) && t.id == ts[i].id && (Inserted(ts[i]) ==> Inserted(t))
    ensures Owned(ts[i := t], f)
  {
    var j :| 0 <= j < |ts| && ts[j].id == f && Inserted(ts[j]);
    assert ts[i := t][j].id == f && Inserted(ts[i := t][j]);
  }

  /** The thread's next chunk. */
  lemma NextChunk(cfg: Cfg, s: State, t: Thread)
    requires Sound(cfg, s, t) && t.todo != []
    ensures InPlay(cfg, t.todo[0]) && Encode(cfg, t.todo[0]).Some?
    ensures Known(cfg, Current(cfg, t)) && cfg.plain(Current(cfg, t)) == t.todo[0] && IsChunkDigest(Current(cfg, t))
  {
    assert t.todo[0] == t.chunks[|t.accepted|];
    hide IsChunkDigest, Concat, Record, ValidId;
  }

  // ----- Each step keeps the ledger and the settlement

  lemma PutLedger(cfg: Cfg, s: State, data: Bytes, pending: multiset<string>)
    requires Ledger(cfg, s, pending) && LawfulCodec(cfg) && InPlay(cfg, data) && Encode(cfg, data).Some?
    ensures Ledger(cfg, BlobStep(s, DigestHex(cfg, data), Encode(cfg, data).value).s, pending)
  {
    var d, blob := DigestHex(cfg, data), Encode(cfg, data).value;
    hide Persisted, Counted;
    BlobStepEffect(s, d, blob);
    hide BlobStep;
    var s' := BlobStep(s, d, blob).s;
    assert BlobsGood(cfg, s'.disk.blobs);
  }

  lemma PutSettled(cfg: Cfg, s: State, data: Bytes, owed: nat, owedNew: nat)
    requires Settled(cfg, s, owed, owedNew) && InPlay(cfg, data) && Encode(cfg, data).Some?
    ensures var d := DigestHex(cfg, data);
            Settled(cfg, BlobStep(s, d, Encode(cfg, data).value).s, owed,
                    if d in s.disk.blobs || s.disk.plan == After(0) || s.disk.plan == After(1) then owedNew
                    else owedNew + |data|)
  {
    var d, blob := DigestHex(cfg, data), Encode(cfg, data).value;
    hide TotalBytes, BlobBytes, DigestHex, Encode;
    if d !in s.disk.blobs {
      NewBlobBytes(cfg, s.disk.blobs, data, blob);
    }
  }

  lemma NewBlobBytes(cfg: Cfg, blobs: map<string, Bytes>, data: Bytes, blob: Bytes)
    requires InPlay(cfg, data) && DigestHex(cfg, data) !in blobs
    ensures BlobBytes(cfg, blobs[DigestHex(cfg, data) := blob]) == BlobBytes(cfg, blobs) + |data|
  {
    hide DigestHex, IsChunkDigest;
    var d := DigestHex(cfg, data);
    assert IsChunkDigest(d);
    assert BlobSizes(cfg, blobs[d := blob]) == BlobSizes(cfg, blobs)[d := |data|];
    SumInsert(BlobSizes(cfg, blobs), d, |data|);
  }

  lemma IncrementLedger(cfg: Cfg, s: State, d: string, pending: multiset<string>)
    requires Ledger(cfg, s, pending) && Known(cfg, d) && IsChunkDigest(d) && d in s.disk.blobs
    ensures var o := CountStep(s, d, |cfg.plain(d)|);
            && o.Done? && Ledger(cfg, o.s, pending + multiset{d})
            && OnlyIn(s.disk, o.s.disk, Refcounts)
            && o.s == s.(refs := Recounted(cfg, s, d), disk := o.s.disk)
  {
    hide Persisted, Counted, Backed, BlobsGood, CountStep, IsChunkDigest, WithEntry, IndexOf;
    CountStepEffect(cfg, s, d);
    CountedRefs(cfg, s, d, pending);
    PersistedRef(s.disk.refcounts, s.refs, d, ChunkRef(Count(s.refs, d) + 1, |cfg.plain(d)|));
  }

  lemma IncrementSettled(cfg: Cfg, s: State, s': State, d: string, owed: nat, owedNew: nat)
    requires Settled(cfg, s, owed, owedNew) && RefsSized(cfg, s.refs)
    requires s'.refs == Recounted(cfg, s, d) && s'.stats == s.stats && s'.disk.blobs == s.disk.blobs
    ensures Settled(cfg, s', owed + |cfg.plain(d)|, owedNew)
  {
    BytesRecounted(cfg, s, d);
    hide TotalBytes, StoredBytes, BlobBytes, RefsSized;
  }

  // ----- Each step keeps the invariant

  lemma FilesKeptUpdate(start: State, s: State, s': State, ts: seq<Thread>, i: nat, t: Thread)
    requires FilesKept(start, s, ts) && i < |ts| && t.id == ts[i].id && (Inserted(ts[i]) ==> Inserted(t))
    requires s'.files == s.files
    ensures FilesKept(start, s', ts[i := t])
  {
    hide Owned;
    forall f | f in s'.files ensures f in start.files || Owned(ts[i := t], f) {
      if f !in start.files {
        OwnedUpdate(ts, i, t, f);
      }
    }
  }

  lemma PutKeeps(cfg: Cfg, start: State, sys: Sys, i: nat)
    requires Inv(cfg, start, sys) && LawfulCodec(cfg) && i < |sys.threads|
    requires sys.threads[i].pc.Ready? && sys.threads[i].todo != []
    ensures Inv(cfg, start, Step(cfg, sys, i))
  {
    var s, ts, t := sys.s, sys.threads, sys.threads[i];
    var d, data := Current(cfg, t), t.todo[0];
    NextChunk(cfg, s, t);
    assert s.disk.plan.Never?;
    hide Inv, LawfulCodec, InPlay, IsChunkDigest, Known;
    var blob := Encode(cfg, data).value;
    var o := BlobStep(s, d, blob);
    BlobStepEffect(s, d, blob);
    var t' := t.(pc := Counting(o.v));
    var sys' := Step(cfg, sys, i);
    hide BlobStep;
    assert sys' == Sys(o.s, ts[i := t'], sys.puts + if o.v then [] else [d]);
    PutKeepsLedger(cfg, start, sys, i, o.s, t');
    PutKeepsThreads(cfg, start, sys, i, o.s, t', d, blob);
    InvParts(cfg, start, sys');
  }

  lemma PutKeepsLedger(cfg: Cfg, start: State, sys: Sys, i: nat, s': State, t': Thread)
    requires Inv(cfg, start, sys) && LawfulCodec(cfg) && i < |sys.threads|
    requires sys.threads[i].pc.Ready? && sys.threads[i].todo != []
    requires var t := sys.threads[i];
             && InPlay(cfg, t.todo[0]) && Encode(cfg, t.todo[0]).Some?
             && s' == BlobStep(sys.s, Current(cfg, t), Encode(cfg, t.todo[0]).value).s
             && t' == t.(pc := Counting(Current(cfg, t) in sys.s.disk.blobs))
    ensures var ts := sys.threads[i := t'];
            Ledger(cfg, s', AllMine(cfg, ts)) && Settled(cfg, s', AllOwed(ts), AllOwedNew(ts))
  {
    hide AllSound, NoLostBlobs, PutOnce, FilesKept, DistinctIds, LawfulCodec, InPlay, BlobStep, AllMine, IndexReadable;
    hide Persisted, Backed, BlobsGood, Counted, TotalBytes, BlobBytes, IsChunkDigest;
    var ts, t := sys.threads, sys.threads[i];
    assert sys.s.disk.plan.Never? && Mine(cfg, t') == Mine(cfg, t) && Current(cfg, t) == DigestHex(cfg, t.todo[0]);
    hide Ledger, Settled, Inv, Mine, Current, DigestHex;
    PutLedger(cfg, sys.s, t.todo[0], AllMine(cfg, ts));
    PutSettled(cfg, sys.s, t.todo[0], AllOwed(ts), AllOwedNew(ts));
    SharesUpdate(cfg, ts, i, t');
    Cancel(AllMine(cfg, ts[i := t']), AllMine(cfg, ts), Mine(cfg, t));
  }

  lemma PutKeepsSound(cfg: Cfg, s: State, s': State, ts: seq<Thread>, i: nat, t': Thread)
    requires AllSound(cfg, s, ts) && DistinctIds(ts) && i < |ts|
    requires ts[i].pc.Ready? && ts[i].todo != []
    requires s' == s.(disk := s.disk.(blobs := s'.disk.blobs, plan := s'.disk.plan))
    requires s.disk.blobs.Keys <= s'.disk.blobs.Keys && Current(cfg, ts[i]) in s'.disk.blobs
    requires t' == ts[i].(pc := t'.pc) && t'.pc.Counting?
    ensures AllSound(cfg, s', ts[i := t']) && DistinctIds(ts[i := t'])
  {
    assert Sound(cfg, s, ts[i]);
    hide AllInPlay, Encodable, Concat, DigestsOf, ValidId, Current, Record;
    assert Sound(cfg, s', t');
    hide Sound;
    AllSoundUpdate(cfg, s, s', ts, i, t');
  }

  lemma PutKeepsBlobs(cfg: Cfg, s: State, s': State, ts: seq<Thread>, i: nat, t': Thread, d: string, blob: Bytes)
    requires NoLostBlobs(cfg, s, ts) && i < |ts|
    requires ts[i].pc.Ready? && ts[i].todo != [] && d == Current(cfg, ts[i])
    requires s'.refs == s.refs
    requires s'.disk.blobs == if d in s.disk.blobs then s.disk.blobs else s.disk.blobs[d := blob]
    requires t' == ts[i].(pc := t'.pc) && t'.pc.Counting?
    ensures NoLostBlobs(cfg, s', ts[i := t'])
  {
    hide IsChunkDigest, Hex;
    var us := ts[i := t'];
    assert us[i].pc.Counting? && Current(cfg, us[i]) == d;
    assert Awaited(cfg, us, d);
    forall x | x in s'.disk.blobs && IsChunkDigest(x) ensures x in s'.refs || Awaited(cfg, us, x) {
      if x != d && x !in s'.refs {
        AwaitedUpdate(cfg, ts, i, t', x);
      }
    }
  }

  lemma PutKeepsThreads(cfg: Cfg, start: State, sys: Sys, i: nat, s': State, t': Thread, d: string, blob: Bytes)
    requires Inv(cfg, start, sys) && i < |sys.threads|
    requires sys.threads[i].pc.Ready? && sys.threads[i].todo != [] && d == Current(cfg, sys.threads[i])
    requires s' == sys.s.(disk := sys.s.disk.(blobs := s'.disk.blobs, plan := s'.disk.plan))
    requires s'.disk.blobs == if d in sys.s.disk.blobs then sys.s.disk.blobs else sys.s.disk.blobs[d := blob]
    requires t' == sys.threads[i].(pc := Counting(d in sys.s.disk.blobs))
    ensures var ts := sys.threads[i := t'];
            && DistinctIds(ts) && AllSound(cfg, s', ts) && NoLostBlobs(cfg, s', ts) && FilesKept(start, s', ts)
            && PutOnce(start.disk.blobs, s'.disk.blobs, sys.puts + if d in sys.s.disk.blobs then [] else [d])
  {
    hide Ledger, Settled, FilesKept, AllSound, DistinctIds, NoLostBlobs, Current;
    PutKeepsSound(cfg, sys.s, s', sys.threads, i, t');
    PutKeepsBlobs(cfg, sys.s, s', sys.threads, i, t', d, blob);
    FilesKeptUpdate(start, sys.s, s', sys.threads, i, t');
  }

  /** The conjuncts of the invariant, to be put together again. */
  lemma InvParts(cfg: Cfg, start: State, sys: Sys)
    requires Ledger(cfg, sys.s, AllMine(cfg, sys.threads))
    requires Settled(cfg, sys.s, AllOwed(sys.threads), AllOwedNew(sys.threads))
    requires DistinctIds(sys.threads) && AllSound(cfg, sys.s, sys.threads)
    requires NoLostBlobs(cfg, sys.s, sys.threads)
    requires PutOnce(start.disk.blobs, sys.s.disk.blobs, sys.puts)
    requires FilesKept(start, sys.s, sys.threads)
    ensures Inv(cfg, start, sys)
  {
  }

  lemma IncrementKeepsThreads(cfg: Cfg, s: State, s': State, ts: seq<Thread>, i: nat, t': Thread)
    requires AllSound(cfg, s, ts) && DistinctIds(ts) && NoLostBlobs(cfg, s, ts) && i < |ts|
    requires ts[i].pc.Counting? && ts[i].todo != [] && t' == ts[i].(pc := Tallying(ts[i].pc.existed))
    requires s' == s.(refs := Recounted(cfg, s, Current(cfg, ts[i])), disk := s'.disk)
    requires OnlyIn(s.disk, s'.disk, Refcounts)
    ensures AllSound(cfg, s', ts[i := t']) && DistinctIds(ts[i := t']) && NoLostBlobs(cfg, s', ts[i := t'])
  {
    assert Sound(cfg, s, ts[i]);
    hide AllInPlay, Encodable, Concat, DigestsOf, ValidId, Current, Record, NoLostBlobs;
    assert Sound(cfg, s', t');
    hide Sound;
    AllSoundUpdate(cfg, s, s', ts, i, t');
    hide AllSound, DistinctIds, IsChunkDigest;
    CountedBlobs(cfg, s, s', ts, i, t');
  }

  lemma CountedBlobs(cfg: Cfg, s: State, s': State, ts: seq<Thread>, i: nat, t': Thread)
    requires NoLostBlobs(cfg, s, ts) && i < |ts| && ts[i].pc.Counting? && ts[i].todo != []
    requires s'.refs == Recounted(cfg, s, Current(cfg, ts[i])) && s'.disk.blobs == s.disk.blobs
    ensures NoLostBlobs(cfg, s', ts[i := t'])
  {
    hide IsChunkDigest, Current, Awaited;
    forall x | x in s'.disk.blobs && IsChunkDigest(x) ensures x in s'.refs || Awaited(cfg, ts[i := t'], x) {
      if x !in s'.refs {
        AwaitedUpdate(cfg, ts, i, t', x);
      }
    }
  }

  lemma IncrementKeepsLedger(cfg: Cfg, s: State, s': State, ts: seq<Thread>, i: nat, t': Thread)
    requires Ledger(cfg, s, AllMine(cfg, ts)) && Settled(cfg, s, AllOwed(ts), AllOwedNew(ts)) && i < |ts|
    requires ts[i].pc.Counting? && ts[i].todo != [] && t' == ts[i].(pc := Tallying(ts[i].pc.existed))
    requires var d := Current(cfg, ts[i]);
             && Known(cfg, d) && IsChunkDigest(d) && d in s.disk.blobs && cfg.plain(d) == ts[i].todo[0]
             && s' == CountStep(s, d, |cfg.plain(d)|).s
    ensures Ledger(cfg, s', AllMine(cfg, ts[i := t'])) &&
            Settled(cfg, s', AllOwed(ts[i := t']), AllOwedNew(ts[i := t']))
  {
    hide Ledger, CountStep, IsChunkDigest, Known, AllMine, Hex, Settled;
    var d, t, pending := Current(cfg, ts[i]), ts[i], AllMine(cfg, ts);
    IncrementLedger(cfg, s, d, pending);
    LedgerSized(cfg, s, pending);
    IncrementSettled(cfg, s, s', d, AllOwed(ts), AllOwedNew(ts));
    SharesUpdate(cfg, ts, i, t');
    hide AllOwed, AllOwedNew, Recounted;
    MineMoves(AllMine(cfg, ts[i := t']), pending, multiset(t.accepted), multiset{d});
  }

  lemma IncrementKeeps(cfg: Cfg, start: State, sys: Sys, i: nat)
    requires Inv(cfg, start, sys) && i < |sys.threads| && sys.threads[i].pc.Counting?
    ensures Inv(cfg, start, Step(cfg, sys, i))
  {
    var s, ts, t := sys.s, sys.threads, sys.threads[i];
    assert Sound(cfg, s, t);
    NextChunk(cfg, s, t);
    var d := Current(cfg, t);
    hide Sound, AllSound, NoLostBlobs, PutOnce, FilesKept, DistinctIds, InPlay, IsChunkDigest, Known, Settled, Ledger;
    IncrementLedger(cfg, s, d, AllMine(cfg, ts));
    hide AllMine, AllOwed, AllOwedNew, CountStep, Recounted;
    var s' := CountStep(s, d, |cfg.plain(d)|).s;
    var t' := t.(pc := Tallying(t.pc.existed));
    assert Step(cfg, sys, i) == sys.(s := s', threads := ts[i := t']);
    IncrementKeepsLedger(cfg, s, s', ts, i, t');
    IncrementKeepsThreads(cfg, s, s', ts, i, t');
    FilesKeptUpdate(start, s, s', ts, i, t');
    hide Inv;
    InvParts(cfg, start, Step(cfg, sys, i));
  }

  lemma LedgerSized(cfg: Cfg, s: State, pending: multiset<string>)
    requires Ledger(cfg, s, pending)
    ensures RefsSized(cfg, s.refs)
  {
  }

  lemma MineMoves(now: multiset<string>, was: multiset<string>, mine: multiset<string>, more: multiset<string>)
    requires now + mine == was + (mine + more)
    ensures now == was + more
  {
    assert was + (mine + more) == (was + more) + mine;
    Cancel(now, was + more, mine);
  }

  lemma TallyKeepsSound(cfg: Cfg, s: State, s': State, t: Thread, t': Thread)
    requires Sound(cfg, s, t) && t.pc.Tallying? && s' == s.(stats := s'.stats)
    requires t' == TallyStep(cfg, s, t).1
    ensures Sound(cfg, s', t')
  {
    hide AllInPlay, Encodable, Record, DigestsOf, Concat, DigestHex, StatsStep;
    var n := |t.accepted|;
    assert t.todo[0] == t.chunks[n] && t.todo[1..] == t.chunks[n + 1..];
    OneMore(cfg, t.chunks, n);
    assert t'.accepted == DigestsOf(cfg, t.chunks)[..n + 1];
    assert t'.fileBytes == |Concat(t.chunks[..n + 1])|;
  }

  lemma OneMore(cfg: Cfg, chunks: seq<Bytes>, n: nat)
    requires n < |chunks|
    ensures Concat(chunks[..n + 1]) == Concat(chunks[..n]) + chunks[n]
    ensures DigestsOf(cfg, chunks)[..n + 1] == DigestsOf(cfg, chunks)[..n] + [DigestHex(cfg, chunks[n])]
  {
    hide Hex;
    assert chunks[..n + 1] == chunks[..n] + [chunks[n]];
    ConcatAppend(chunks[..n], [chunks[n]]);
    assert Concat([chunks[n]]) == chunks[n] + Concat([]);
  }

  lemma TallyKeeps(cfg: Cfg, start: State, sys: Sys, i: nat)
    requires Inv(cfg, start, sys) && i < |sys.threads| && sys.threads[i].pc.Tallying?
    ensures Inv(cfg, start, Step(cfg, sys, i))
  {
    var s, ts, t := sys.s, sys.threads, sys.threads[i];
    assert Sound(cfg, s, t) && t.todo != [];
    var (s', t') := TallyStep(cfg, s, t);
    TallyKeepsSound(cfg, s, s', t, t');
    hide Sound, NoLostBlobs, PutOnce, FilesKept, AllMine, TotalBytes, BlobBytes, Counted, Backed, BlobsGood;
    hide Persisted, Current;
    AllSoundUpdate(cfg, s, s', ts, i, t');
    hide AllSound, DistinctIds;
    SharesUpdate(cfg, ts, i, t');
    assert Mine(cfg, t') == Mine(cfg, t) by { AcceptedGrows(t.accepted, Current(cfg, t)); }
    Cancel(AllMine(cfg, ts[i := t']), AllMine(cfg, ts), Mine(cfg, t));
    KeptBlobs(cfg, s, s', ts, i, t');
    FilesKeptUpdate(start, s, s', ts, i, t');
    InvParts(cfg, start, Step(cfg, sys, i));
  }

  lemma AcceptedGrows(xs: seq<string>, d: string)
    ensures multiset(xs + [d]) == multiset(xs) + multiset{d}
  {
  }

  lemma KeptBlobs(cfg: Cfg, s: State, s': State, ts: seq<Thread>, i: nat, t': Thread)
    requires NoLostBlobs(cfg, s, ts) && i < |ts| && !ts[i].pc.Counting?
    requires s'.refs == s.refs && s'.disk.blobs == s.disk.blobs
    ensures NoLostBlobs(cfg, s', ts[i := t'])
  {
    hide IsChunkDigest, Current, Awaited;
    forall x | x in s'.disk.blobs && IsChunkDigest(x) ensures x in s'.refs || Awaited(cfg, ts[i := t'], x) {
      if x !in s'.refs {
        AwaitedUpdate(cfg, ts, i, t', x);
      }
    }
  }

  lemma InsertKeepsLedger(cfg: Cfg, s: State, s': State, ts: seq<Thread>, i: nat, t': Thread)
    requires Ledger(cfg, s, AllMine(cfg, ts)) && Settled(cfg, s, AllOwed(ts), AllOwedNew(ts)) && i < |ts|
    requires ts[i].pc.Ready? && ts[i].todo == [] && t' == ts[i].(pc := Saving) && ts[i].id !in s.files
    requires s' == s.(files := s.files[ts[i].id := FileRec(ts[i].accepted, ts[i].fileBytes)])
    ensures Ledger(cfg, s', AllMine(cfg, ts[i := t'])) &&
            Settled(cfg, s', AllOwed(ts[i := t']), AllOwedNew(ts[i := t']))
  {
    hide Persisted, Backed, BlobsGood, TotalBytes, BlobBytes, Counted, AllMine;
    var us, t := ts[i := t'], ts[i];
    SharesUpdate(cfg, ts, i, t');
    assert AllMine(cfg, us) + multiset(t.accepted) == AllMine(cfg, ts);
    PublishedRefs(s.files, s.refs, AllMine(cfg, us), t.id, FileRec(t.accepted, t.fileBytes));
    var none: seq<string> := [];
    assert AllMine(cfg, us) + multiset(none) == AllMine(cfg, us);
  }

  lemma WholeAccepted(cfg: Cfg, s: State, t: Thread)
    requires Sound(cfg, s, t) && t.todo == []
    ensures FileRec(t.accepted, t.fileBytes) == Record(cfg, t)
  {
    assert |t.accepted| == |t.chunks|;
    assert t.chunks[..|t.chunks|] == t.chunks && DigestsOf(cfg, t.chunks)[..|t.chunks|] == DigestsOf(cfg, t.chunks);
  }

  lemma InsertSound(cfg: Cfg, s: State, s': State, t: Thread, t': Thread)
    requires Sound(cfg, s, t) && t.pc.Ready? && t.todo == [] && t' == t.(pc := Saving)
    requires s' == s.(files := s.files[t.id := FileRec(t.accepted, t.fileBytes)])
    ensures Sound(cfg, s', t') && t.id !in s.files
  {
    WholeAccepted(cfg, s, t);
    hide AllInPlay, Encodable, Concat, DigestsOf, ValidId, Current, Record;
  }

  lemma InsertKeepsThreads(cfg: Cfg, start: State, s: State, s': State, ts: seq<Thread>, i: nat, t': Thread)
    requires AllSound(cfg, s, ts) && DistinctIds(ts) && i < |ts| && FilesKept(start, s, ts)
    requires ts[i].pc.Ready? && ts[i].todo == [] && t' == ts[i].(pc := Saving)
    requires s' == s.(files := s.files[ts[i].id := FileRec(ts[i].accepted, ts[i].fileBytes)])
    ensures AllSound(cfg, s', ts[i := t']) && DistinctIds(ts[i := t']) && FilesKept(start, s', ts[i := t'])
  {
    assert Sound(cfg, s, ts[i]);
    InsertSound(cfg, s, s', ts[i], t');
    hide FilesKept, AllSound, DistinctIds, Sound;
    assert Gentle(s, s', ts[i].id) by { assert s'.files - {ts[i].id} == s.files - {ts[i].id}; }
    AllSoundUpdate(cfg, s, s', ts, i, t');
    hide AllSound, DistinctIds;
    InsertKeepsFiles(start, s, s', ts, i, t');
  }

  lemma InsertKeepsFiles(start: State, s: State, s': State, ts: seq<Thread>, i: nat, t': Thread)
    requires FilesKept(start, s, ts) && i < |ts| && t'.id == ts[i].id && Inserted(t') && t'.id !in s.files
    requires s'.files.Keys == s.files.Keys + {t'.id} && s'.files - {t'.id} == s.files - {t'.id}
    ensures FilesKept(start, s', ts[i := t'])
  {
    var us := ts[i := t'];
    assert us[i] == t';
    assert Owned(us, t'.id);
    hide Owned;
    forall f | f in s'.files ensures f in start.files || Owned(us, f) {
      if f != t'.id && f !in start.files {
        OwnedUpdate(ts, i, t', f);
      }
    }
    forall f | f in start.files ensures f in s'.files && s'.files[f] == start.files[f] {
      assert f != t'.id;
      assert (s'.files - {t'.id})[f] == (s.files - {t'.id})[f];
    }
  }

  lemma InsertKeeps(cfg: Cfg, start: State, sys: Sys, i: nat)
    requires Inv(cfg, start, sys) && i < |sys.threads| && sys.threads[i].pc.Ready? && sys.threads[i].todo == []
    ensures Inv(cfg, start, Step(cfg, sys, i))
  {
    var s, ts, t := sys.s, sys.threads, sys.threads[i];
    assert Sound(cfg, s, t);
    var (s', t') := InsertStep(s, t);
    assert ValidId(t.id) && t.id !in s.files;
    hide Sound, AllSound, NoLostBlobs, PutOnce, FilesKept, DistinctIds, Settled, Ledger, AllMine, AllOwed, AllOwedNew;
    InsertKeepsLedger(cfg, s, s', ts, i, t');
    InsertKeepsThreads(cfg, start, s, s', ts, i, t');
    KeptBlobs(cfg, s, s', ts, i, t');
    hide Inv;
    InvParts(cfg, start, Step(cfg, sys, i));
  }

  /** A step of the manifest save touches the record and the index list only. */
  ghost predicate SavesOnly(s: State, s': State, t: Thread, t': Thread) {
    && Inserted(t) && t' == t.(pc := t'.pc) && Inserted(t')
    && s' == s.(disk := s.disk.(manifests := s'.disk.manifests))
    && s'.disk.manifests - {t.id, INDEX} == s.disk.manifests - {t.id, INDEX}
    && IndexReadable(s'.disk.manifests)
    && (Recorded(t') ==> t.id in s'.disk.manifests && s'.disk.manifests[t.id] == ManifestDoc(t.accepted, t.fileBytes))
  }

  lemma SaveKeepsThreads(cfg: Cfg, s: State, s': State, ts: seq<Thread>, i: nat, t': Thread)
    requires AllSound(cfg, s, ts) && DistinctIds(ts) && i < |ts| && SavesOnly(s, s', ts[i], t')
    ensures AllSound(cfg, s', ts[i := t']) && DistinctIds(ts[i := t'])
  {
    assert Sound(cfg, s, ts[i]);
    WholeAccepted(cfg, s, ts[i]);
    hide AllInPlay, Encodable, Concat, DigestsOf, ValidId, Current, Record, IndexReadable;
    assert Sound(cfg, s', t');
    hide Sound;
    AllSoundUpdate(cfg, s, s', ts, i, t');
  }

  lemma SavesOnlyKeeps(cfg: Cfg, start: State, sys: Sys, i: nat, s': State, t': Thread)
    requires Inv(cfg, start, sys) && i < |sys.threads| && SavesOnly(sys.s, s', sys.threads[i], t')
    ensures Inv(cfg, start, sys.(s := s', threads := sys.threads[i := t']))
  {
    var s, ts, t := sys.s, sys.threads, sys.threads[i];
    hide AllSound, NoLostBlobs, PutOnce, FilesKept, DistinctIds, AllMine, TotalBytes, BlobBytes;
    hide Persisted, Backed, BlobsGood, Counted, IndexReadable;
    SaveKeepsThreads(cfg, s, s', ts, i, t');
    SharesUpdate(cfg, ts, i, t');
    Cancel(AllMine(cfg, ts[i := t']), AllMine(cfg, ts), Mine(cfg, t));
    KeptBlobs(cfg, s, s', ts, i, t');
    FilesKeptUpdate(start, s, s', ts, i, t');
    hide AllOwed, AllOwedNew;
    InvParts(cfg, start, sys.(s := s', threads := ts[i := t']));
  }

  lemma SaveStepsOnly(s: State, t: Thread)
    requires s.disk.plan.Never? && IndexReadable(s.disk.manifests) && t.id != INDEX
    requires Recorded(t) ==>
               t.id in s.disk.manifests && s.disk.manifests[t.id] == ManifestDoc(t.accepted, t.fileBytes)
    ensures t.pc.Saving? ==> SavesOnly(s, SaveStep(s, t).0, t, SaveStep(s, t).1)
    ensures t.pc.Listing? ==> SavesOnly(s, ListStep(s, t).0, t, ListStep(s, t).1)
    ensures t.pc.Appending? ==> SavesOnly(s, AppendStep(s, t).0, t, AppendStep(s, t).1)
  {
    var m, doc := s.disk.manifests, ManifestDoc(t.accepted, t.fileBytes);
    assert m[t.id := doc] - {t.id, INDEX} == m - {t.id, INDEX};
    if t.pc.Appending? {
      assert m[INDEX := List(t.pc.index + [t.id])] - {t.id, INDEX} == m - {t.id, INDEX};
    }
  }

  lemma SaveKeeps(cfg: Cfg, start: State, sys: Sys, i: nat)
    requires Inv(cfg, start, sys) && i < |sys.threads|
    requires var pc := sys.threads[i].pc; pc.Saving? || pc.Listing? || pc.Appending?
    ensures Inv(cfg, start, Step(cfg, sys, i))
  {
    hide Inv, IndexReadable, PutStep, IncrementStep, TallyStep, InsertStep, SavesOnly, SaveStep, ListStep, AppendStep;
    var s, t := sys.s, sys.threads[i];
    SaveFacts(cfg, start, sys, i);
    assert t.id != INDEX;
    SaveStepsOnly(s, t);
    var (s', t') := if t.pc.Saving? then SaveStep(s, t) else if t.pc.Listing? then ListStep(s, t) else AppendStep(s, t);
    SavesOnlyKeeps(cfg, start, sys, i, s', t');
  }

  lemma SaveFacts(cfg: Cfg, start: State, sys: Sys, i: nat)
    requires Inv(cfg, start, sys) && i < |sys.threads|
    ensures var s, t := sys.s, sys.threads[i];
            && s.disk.plan.Never? && IndexReadable(s.disk.manifests) && ValidId(t.id)
            && (Recorded(t) ==> t.id in s.disk.manifests &&
                                s.disk.manifests[t.id] == ManifestDoc(t.accepted, t.fileBytes))
  {
    assert Sound(cfg, sys.s, sys.threads[i]);
    if Inserted(sys.threads[i]) {
      WholeAccepted(cfg, sys.s, sys.threads[i]);
    }
    hide AllInPlay, Encodable, Concat, DigestsOf, Current, NoLostBlobs, PutOnce, FilesKept, Settled, AllSound;
  }

  lemma StepKeeps(cfg: Cfg, start: State, sys: Sys, i: nat)
    requires Inv(cfg, start, sys) && LawfulCodec(cfg)
    ensures Inv(cfg, start, Step(cfg, sys, i))
  {
    if i < |sys.threads| {
      assert Sound(cfg, sys.s, sys.threads[i]);
      var pc := sys.threads[i].pc;
      hide Inv, LawfulCodec, PutStep, IncrementStep, TallyStep, InsertStep, SaveStep, ListStep, AppendStep;
      hide AllInPlay, Encodable, DigestsOf, Sound;
      match pc
      case Ready =>
        if sys.threads[i].todo != [] {
          PutKeeps(cfg, start, sys, i);
        } else {
          InsertKeeps(cfg, start, sys, i);
        }
      case Counting(_) => IncrementKeeps(cfg, start, sys, i);
      case Tallying(_) => TallyKeeps(cfg, start, sys, i);
      case Saving => SaveKeeps(cfg, start, sys, i);
      case Listing => SaveKeeps(cfg, start, sys, i);
      case Appending(_) => SaveKeeps(cfg, start, sys, i);
      case Finished =>
      case Failed(_) =>
    }
  }

  lemma {:induction false} RunKeeps(cfg: Cfg, start: State, sys: Sys, schedule: seq<nat>)
    requires Inv(cfg, start, sys) && LawfulCodec(cfg)
    ensures Inv(cfg, start, Run(cfg, sys, schedule))
    decreases |schedule|
  {
    hide Inv, LawfulCodec, Step;
    if schedule != [] {
      StepKeeps(cfg, start, sys, schedule[0]);
      RunKeeps(cfg, start, Step(cfg, sys, schedule[0]), schedule[1..]);
    }
  }

  // ----- From a clean store, under every schedule

  /** A thread about to ingest a new file. */
  ghost predicate Fresh(cfg: Cfg, s: State, t: Thread) {
    && t == Thread(t.id, t.chunks, t.chunks, [], 0, Ready)
    && ValidId(t.id) && t.id !in s.files
    && AllInPlay(cfg, t.chunks) && Encodable(cfg, t.chunks)
  }

  ghost predicate AllFresh(cfg: Cfg, s: State, ts: seq<Thread>) {
    DistinctIds(ts) && forall i :: 0 <= i < |ts| ==> Fresh(cfg, s, ts[i])
  }

  lemma {:induction false} FreshShares(cfg: Cfg, s: State, ts: seq<Thread>)
    requires forall i :: 0 <= i < |ts| ==> Fresh(cfg, s, ts[i])
    ensures AllMine(cfg, ts) == multiset{} && AllOwed(ts) == 0 && AllOwedNew(ts) == 0
    decreases |ts|
  {
    hide AllInPlay, Encodable;
    if ts != [] {
      FreshShares(cfg, s, ts[1..]);
      assert Fresh(cfg, s, ts[0]);
      assert Mine(cfg, ts[0]) == multiset{};
    }
  }

  lemma BalancedIsSettled(cfg: Cfg, s: State)
    requires Balanced(s) && NoOrphans(s) && Backed(cfg, s.refs, s.disk.blobs)
    ensures Settled(cfg, s, 0, 0)
  {
    hide TotalBytes, Hex;
    forall d | d in s.refs ensures IsChunkDigest(d) {
      var x := DigestHex(cfg, cfg.plain(d));
    }
    hide IsChunkDigest;
    assert BlobSizes(cfg, s.disk.blobs) == RefSizes(s.refs);
  }

  lemma FreshSound(cfg: Cfg, s: State, t: Thread)
    requires Fresh(cfg, s, t)
    ensures Sound(cfg, s, t)
  {
    assert t.chunks[..0] == [] && DigestsOf(cfg, t.chunks)[..0] == [] && t.chunks[0..] == t.chunks;
    hide AllInPlay, Encodable, DigestsOf;
  }

  lemma StartInv(cfg: Cfg, s: State, ts: seq<Thread>)
    requires Clean(cfg, s) && Balanced(s) && NoOrphans(s) && AllFresh(cfg, s, ts)
    ensures Inv(cfg, s, Sys(s, ts, []))
  {
    FreshShares(cfg, s, ts);
    forall i | 0 <= i < |ts| ensures Sound(cfg, s, ts[i]) {
      FreshSound(cfg, s, ts[i]);
    }
    StartLedger(cfg, s);
    hide Consistent, Balanced, Ledger, Settled, AllMine, AllOwed, AllOwedNew, Sound, Fresh, IsChunkDigest;
    InvParts(cfg, s, Sys(s, ts, []));
  }

  lemma StartLedger(cfg: Cfg, s: State)
    requires Clean(cfg, s) && Balanced(s) && NoOrphans(s)
    ensures Ledger(cfg, s, multiset{}) && Settled(cfg, s, 0, 0)
  {
    hide Persisted, BlobsGood, Counted, FilesSized, Balanced, NoOrphans, Settled;
    ReadableIndex(cfg, s, multiset{});
    BalancedIsSettled(cfg, s);
  }

  lemma LedgerFileReads(cfg: Cfg, s: State, pending: multiset<string>, f: string)
    requires Ledger(cfg, s, pending) && f in s.files
    ensures Read(cfg, s, f) == Done(s, Meaning(cfg, s.files[f].digests))
  {
    var digests := s.files[f].digests;
    hide Persisted, ReadTo, Meaning, BlobsGood, IsChunkDigest, Known;
    forall i | 0 <= i < |digests| ensures Known(cfg, digests[i]) && digests[i] in s.disk.blobs {
      AllRefsMember(s.files, f, digests[i]);
      assert AllRefs(s.files)[digests[i]] + pending[digests[i]] == Count(s.refs, digests[i]);
    }
    ReadToExact(cfg, s.disk, digests, []);
    assert [] + Meaning(cfg, digests) == Meaning(cfg, digests);
  }

  /** In every interleaving of the blob, refcount, stats and manifest steps of
      any number of threads ingesting new files, at every point: no step has
      failed; each new digest has been put exactly once and no other key was
      put; the persisted counts are the counts in memory; every file in memory
      reads back, the files of finished threads with their chunks; and the
      totals with what the threads still owe are the recounted ones. */
  lemma EveryInterleaving(cfg: Cfg, start: State, ts: seq<Thread>, schedule: seq<nat>)
    requires Clean(cfg, start) && Balanced(start) && NoOrphans(start) && AllFresh(cfg, start, ts) && LawfulCodec(cfg)
    ensures var sys := Run(cfg, Sys(start, ts, []), schedule);
            var s := sys.s;
            && (forall i :: 0 <= i < |sys.threads| ==> !sys.threads[i].pc.Failed?)
            && PutOnce(start.disk.blobs, s.disk.blobs, sys.puts)
            && Persisted(s.disk.refcounts, RefDocs(s.refs))
            && Counted(s.files, s.refs, AllMine(cfg, sys.threads))
            && (forall f :: f in s.files ==> Read(cfg, s, f) == Done(s, Meaning(cfg, s.files[f].digests)))
            && (forall i :: 0 <= i < |sys.threads| && sys.threads[i].pc.Finished? ==>
                  sys.threads[i].id in s.files && s.files[sys.threads[i].id] == Record(cfg, sys.threads[i]))
            && s.stats.total + AllOwed(sys.threads) == TotalBytes(s.refs)
            && s.stats.stored + AllOwedNew(sys.threads) == BlobBytes(cfg, s.disk.blobs)
  {
    StartInv(cfg, start, ts);
    RunKeeps(cfg, start, Sys(start, ts, []), schedule);
    var sys := Run(cfg, Sys(start, ts, []), schedule);
    var s := sys.s;
    hide Run, Clean, Balanced, NoOrphans, AllFresh, AllMine, AllOwed, AllOwedNew, BlobBytes, TotalBytes;
    hide PutOnce, Read, Meaning;
    hide AllInPlay, Encodable, DigestsOf, Concat;
    assert Ledger(cfg, s, AllMine(cfg, sys.threads)) && AllSound(cfg, s, sys.threads);
    assert forall i :: 0 <= i < |sys.threads| ==> Sound(cfg, s, sys.threads[i]);
    hide Inv, Persisted, Counted, Backed, BlobsGood;
    forall f | f in s.files ensures Read(cfg, s, f) == Done(s, Meaning(cfg, s.files[f].digests)) {
      LedgerFileReads(cfg, s, AllMine(cfg, sys.threads), f);
    }
  }

  // ----- When all threads are done

  ghost predicate AllDone(ts: seq<Thread>) {
    forall i :: 0 <= i < |ts| ==> ts[i].pc.Finished?
  }

  lemma {:induction false} DoneShares(cfg: Cfg, ts: seq<Thread>)
    requires AllDone(ts)
    ensures AllMine(cfg, ts) == multiset{} && AllOwed(ts) == 0 && AllOwedNew(ts) == 0
    decreases |ts|
  {
    if ts != [] {
      DoneShares(cfg, ts[1..]);
      assert ts[0].pc.Finished?;
    }
  }

  lemma SettledIsBalanced(cfg: Cfg, s: State)
    requires Settled(cfg, s, 0, 0) && NoOrphans(s) && Backed(cfg, s.refs, s.disk.blobs)
    ensures Balanced(s)
  {
    hide TotalBytes, Hex;
    forall d | d in s.refs ensures IsChunkDigest(d) {
      var x := DigestHex(cfg, cfg.plain(d));
    }
    hide IsChunkDigest;
    assert BlobSizes(cfg, s.disk.blobs) == RefSizes(s.refs);
  }

  lemma QuiescentInv(cfg: Cfg, start: State, sys: Sys)
    requires Inv(cfg, start, sys) && AllDone(sys.threads)
    ensures var s := sys.s;
            && Counted(s.files, s.refs, multiset{}) && Balanced(s) && NoOrphans(s)
            && FilesKept(start, s, sys.threads) && AllSound(cfg, s, sys.threads)
  {
    var s, ts := sys.s, sys.threads;
    DoneShares(cfg, ts);
    assert forall d :: !Awaited(cfg, ts, d);
    hide AllMine, AllOwed, AllOwedNew, TotalBytes, BlobBytes, AllSound, FilesKept, Persisted, BlobsGood;
    hide IsChunkDigest, Awaited;
    assert NoOrphans(s);
    SettledIsBalanced(cfg, s);
  }

  /** The sessions are the ones that were started. */
  ghost predicate SameSessions(ts: seq<Thread>, us: seq<Thread>) {
    && |us| == |ts|
    && forall i :: 0 <= i < |ts| ==> us[i].id == ts[i].id && us[i].chunks == ts[i].chunks
  }

  lemma StepSessions(cfg: Cfg, sys: Sys, i: nat)
    ensures SameSessions(sys.threads, Step(cfg, sys, i).threads)
  {
    hide BlobStep, CountStep, StatsStep;
  }

  lemma {:induction false} RunSessions(cfg: Cfg, sys: Sys, schedule: seq<nat>)
    ensures SameSessions(sys.threads, Run(cfg, sys, schedule).threads)
    decreases |schedule|
  {
    hide Step;
    if schedule != [] {
      StepSessions(cfg, sys, schedule[0]);
      RunSessions(cfg, Step(cfg, sys, schedule[0]), schedule[1..]);
    }
  }

  ghost predicate HasFile(cfg: Cfg, s: State, t: Thread) {
    && t.id in s.files && s.files[t.id] == Record(cfg, t)
    && t.id in s.disk.manifests
    && s.disk.manifests[t.id] == ManifestDoc(Record(cfg, t).digests, Record(cfg, t).fileBytes)
  }

  /** The files at the start as they were, one file for each session, and no
      others. */
  ghost predicate HoldsSessions(cfg: Cfg, start: State, s: State, ts: seq<Thread>) {
    && (forall f :: f in start.files ==> f in s.files && s.files[f] == start.files[f])
    && (forall i :: 0 <= i < |ts| ==> HasFile(cfg, s, ts[i]))
    && (forall f :: f in s.files ==> f in start.files || exists i :: 0 <= i < |ts| && ts[i].id == f)
  }

  lemma DoneSessions(cfg: Cfg, start: State, s: State, ts: seq<Thread>, us: seq<Thread>)
    requires SameSessions(ts, us) && AllDone(us) && AllSound(cfg, s, us) && FilesKept(start, s, us)
    ensures HoldsSessions(cfg, start, s, ts)
  {
    hide AllInPlay, Encodable, DigestsOf, Concat;
    forall i | 0 <= i < |ts| ensures HasFile(cfg, s, ts[i]) {
      assert Sound(cfg, s, us[i]) && us[i].pc.Finished?;
      assert Record(cfg, us[i]) == Record(cfg, ts[i]);
    }
    hide Sound;
    forall f | f in s.files && f !in start.files ensures exists i :: 0 <= i < |ts| && ts[i].id == f {
      var i :| 0 <= i < |us| && us[i].id == f && Inserted(us[i]);
      assert ts[i].id == f;
    }
  }

  /** When every thread is done, under whatever schedule: the counts are exact,
      the totals are exact, no blob is an orphan, and the files are those at the
      start together with one for each thread, which holds the thread's chunks
      and has its manifest record on the backend. */
  lemma Quiescent(cfg: Cfg, start: State, ts: seq<Thread>, schedule: seq<nat>)
    requires Clean(cfg, start) && Balanced(start) && NoOrphans(start) && AllFresh(cfg, start, ts) && LawfulCodec(cfg)
    requires AllDone(Run(cfg, Sys(start, ts, []), schedule).threads)
    ensures var s := Run(cfg, Sys(start, ts, []), schedule).s;
            && Counted(s.files, s.refs, multiset{}) && Balanced(s) && NoOrphans(s)
            && HoldsSessions(cfg, start, s, ts)
  {
    var sys := Run(cfg, Sys(start, ts, []), schedule);
    StartInv(cfg, start, ts);
    RunKeeps(cfg, start, Sys(start, ts, []), schedule);
    RunSessions(cfg, Sys(start, ts, []), schedule);
    hide *;
    QuiescentInv(cfg, start, sys);
    DoneSessions(cfg, start, sys.s, ts, sys.threads);
  }
}
