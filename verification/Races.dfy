/** A delete that runs while a file is being ingested. docs/CONSISTENCY.md calls
    concurrent ingest and delete on one store safe; the lock scopes do not make
    it so. */
module Races {
  import opened Types
  import opened Hashing
  import opened DiskSpec
  import opened StoreSpec
  import opened Counting
  import opened Records
  import opened Invariants
  import opened ExactSteps
  import opened ExactOps
  import opened ExactRelease
  import opened Refinement
  import opened SavePoint
  import opened Twins

  // ----- The interleaving

  /** Where a delete can run between two lock scopes of an ingest: before chunk
      `k` (or, past the last one, before commit), between the put of chunk `k`
      and its count, between its count and the totals, between the insertion of
      the manifest and its save, and before turn `j` of the release of the
      previous version. */
  datatype Boundary =
    | BeforeChunk(k: nat) | AfterPut(k: nat) | AfterCount(k: nat) | AfterInsert | InRelease(j: nat)

  predicate IsBoundary(s: State, id: string, chunks: seq<Bytes>, file: string, at: Boundary) {
    match at
    case BeforeChunk(k) => k <= |chunks|
    case AfterPut(k) => k < |chunks|
    case AfterCount(k) => k < |chunks|
    case AfterInsert => file != id
    case InRelease(j) => file != id && id in s.files && j <= |s.files[id].digests|
  }

  /** The chunk during which the delete runs. */
  function StoreRaced(cfg: Cfg, s: State, data: Bytes, file: string, afterPut: bool): Out<State, ()> {
    var d := DigestHex(cfg, data);
    match Encode(cfg, data)
    case None => Fail(s, CodecFailed)
    case Some(blob) =>
      var (s1, existed) :- BlobStep(s, d, blob);
      var (s2, _) :- CountStep(if afterPut then Delete(cfg, s1, file).s else s1, d, |data|);
      Done(StatsStep(if afterPut then s2 else Delete(cfg, s2, file).s, existed, |data|), ())
  }

  function AcceptRaced(cfg: Cfg, s: State, chunks: seq<Bytes>, file: string, at: Boundary): Out<State, seq<string>>
    requires at.BeforeChunk? ==> at.k <= |chunks|
    requires at.AfterPut? || at.AfterCount? ==> at.k < |chunks|
  {
    if at.AfterInsert? || at.InRelease? then AcceptAll(cfg, s, chunks) else
    var (s1, first) :- AcceptAll(cfg, s, chunks[..at.k]);
    if at.BeforeChunk? then
      var (s2, rest) :- AcceptAll(cfg, Delete(cfg, s1, file).s, chunks[at.k..]);
      Done(s2, first + rest)
    else
      var (s2, _) :- StoreRaced(cfg, s1, chunks[at.k], file, at.AfterPut?);
      var (s3, rest) :- AcceptAll(cfg, s2, chunks[at.k + 1..]);
      Done(s3, first + [DigestHex(cfg, chunks[at.k])] + rest)
  }

  /** The release of the previous version, with the delete before turn `j`. */
  function ReleaseRaced(cfg: Cfg, s: State, previous: seq<string>, file: string, j: nat): Out<State, ()> {
    if j > |previous| then ReleaseAll(cfg, s, previous) else
    var (s1, _) :- ReleaseAll(cfg, s, previous[..j]);
    ReleaseAll(cfg, Delete(cfg, s1, file).s, previous[j..])
  }

  function CommitRaced(cfg: Cfg, s: State, id: string, digests: seq<string>, fileBytes: nat, file: string,
                       at: Boundary): Out<State, seq<string>> {
    var previous := if id in s.files then s.files[id].digests else [];
    match at
    case AfterInsert =>
      if id == "" then Fail(s, InvalidArgument) else
      var s1 := Delete(cfg, s.(files := s.files[id := FileRec(digests, fileBytes)]), file).s;
      var (s2, _) :- Lift(s1, SaveManifest(s1.disk, id, digests, fileBytes));
      var (s3, _) :- ReleaseAll(cfg, s2, previous);
      Done(s3, digests)
    case InRelease(j) =>
      var (s1, _) :- Publish(s, id, digests, fileBytes);
      var (s2, _) :- ReleaseRaced(cfg, s1, previous, file, j);
      Done(s2, digests)
    case _ => Commit(cfg, s, id, digests, fileBytes)
  }

  /** An ingest with a delete at one of its boundaries. */
  function RacedIngest(cfg: Cfg, s: State, id: string, chunks: seq<Bytes>, file: string, at: Boundary)
    : Out<State, seq<string>>
    requires IsBoundary(s, id, chunks, file, at)
  {
    var (s1, digests) :- AcceptRaced(cfg, s, chunks, file, at);
    CommitRaced(cfg, s1, id, digests, |Concat(chunks)|, file, at)
  }

  // ----- A delete beside pending references

  /** Releasing only takes blobs away, and touches no digest off the list. */
  lemma {:induction false} ReleaseAllBlobs(cfg: Cfg, s: State, digests: seq<string>, pending: multiset<string>)
    requires Consistent(cfg, s, pending + multiset(digests)) && s.disk.plan.Never?
    ensures var t := ReleaseAll(cfg, s, digests).s;
            && (forall x :: x in t.disk.blobs ==> x in s.disk.blobs && t.disk.blobs[x] == s.disk.blobs[x])
            && (forall x :: x in t.refs ==> x in s.refs)
            && (forall x :: x !in digests ==>
                  (x in t.disk.blobs <==> x in s.disk.blobs) && (x in t.refs <==> x in s.refs))
            && (forall x :: x in digests && x !in t.refs ==> x !in t.disk.blobs)
    decreases |digests|
  {
    hide Consistent, ReleaseOne, Known, IsChunkDigest, WithEntry, WithoutEntry, Monus;
    if digests != [] {
      var d, rest := digests[0], digests[1..];
      PendingSplit(pending, digests);
      PendingIsBacked(cfg, s, pending + multiset(digests), d);
      ReleaseOneReleased(cfg, s, d, pending + multiset(digests));
      var o := ReleaseOne(cfg, s, d);
      ReleasedExact(cfg, s, o.s, d, pending + multiset(rest));
      ReleaseAllBlobs(cfg, o.s, rest, pending);
      assert forall x :: x in digests <==> x == d || x in rest;
    }
  }

  /** A delete keeps what other sessions hold. A chunk of the deleted file is
      there afterwards exactly when it is still counted. */
  lemma DeletePending(cfg: Cfg, s: State, file: string, pending: multiset<string>)
    requires Consistent(cfg, s, pending) && s.disk.plan.Never? && file in s.files
    ensures var o := Delete(cfg, s, file);
            && o.Done? && Consistent(cfg, o.s, pending) && o.s.disk.plan.Never? && o.s.files == s.files - {file}
            && (forall x :: x in s.files[file].digests ==> (x in o.s.disk.blobs <==> x in o.s.refs))
            && (forall x :: x in s.disk.blobs && x !in s.files[file].digests ==> x in o.s.disk.blobs)
  {
    hide Consistent, ReleaseAll, RemoveManifest, WithoutEntry;
    UnlinkExact(cfg, s, file, pending);
    var s1 := s.(files := s.files - {file}, disk := RemoveManifest(s.disk, file).s);
    var digests := s.files[file].digests;
    ReleaseAllExact(cfg, s1, digests, pending);
    ReleaseAllBlobs(cfg, s1, digests, pending);
    var t := ReleaseAll(cfg, s1, digests).s;
    CountedHasBlob(cfg, t, pending);
  }

  lemma CountedHasBlob(cfg: Cfg, s: State, pending: multiset<string>)
    requires Consistent(cfg, s, pending)
    ensures forall x :: x in s.refs ==> x in s.disk.blobs
    ensures BlobsGood(cfg, s.disk.blobs)
    ensures forall x :: x in s.refs <==> AllRefs(s.files)[x] + pending[x] > 0
  {
    hide Persisted, FilesSized, BlobsGood, AllRefs, Known;
    assert forall x :: x in s.refs <==> Count(s.refs, x) > 0;
  }

  // ----- Accepting with the delete in between

  lemma JoinDigests(cfg: Cfg, a: seq<Bytes>, b: seq<Bytes>)
    ensures DigestsOf(cfg, a + b) == DigestsOf(cfg, a) + DigestsOf(cfg, b)
  {
    hide DigestHex;
  }

  lemma SplitDigests(cfg: Cfg, chunks: seq<Bytes>, k: nat)
    requires k <= |chunks|
    ensures DigestsOf(cfg, chunks) == DigestsOf(cfg, chunks[..k]) + DigestsOf(cfg, chunks[k..])
    ensures k < |chunks| ==>
              DigestsOf(cfg, chunks) ==
              DigestsOf(cfg, chunks[..k]) + [DigestHex(cfg, chunks[k])] + DigestsOf(cfg, chunks[k + 1..])
  {
    hide DigestsOf, DigestHex;
    assert chunks == chunks[..k] + chunks[k..];
    JoinDigests(cfg, chunks[..k], chunks[k..]);
    if k < |chunks| {
      var a, d, c := DigestsOf(cfg, chunks[..k]), DigestHex(cfg, chunks[k]), DigestsOf(cfg, chunks[k + 1..]);
      assert DigestsOf(cfg, chunks[k..]) == [d] + c by {
        assert chunks[k..] == [chunks[k]] + chunks[k + 1..];
        JoinDigests(cfg, [chunks[k]], chunks[k + 1..]);
        assert DigestsOf(cfg, [chunks[k]]) == [d];
      }
      assert a + ([d] + c) == a + [d] + c;
    }
  }

  lemma SplitIngestible(cfg: Cfg, chunks: seq<Bytes>, k: nat)
    requires Ingestible(cfg, chunks) && k <= |chunks|
    ensures Ingestible(cfg, chunks[..k]) && Ingestible(cfg, chunks[k..])
    ensures k < |chunks| ==>
              InPlay(cfg, chunks[k]) && Encode(cfg, chunks[k]).Some? && Ingestible(cfg, chunks[k + 1..])
  {
    hide InPlay, Encode;
  }

  /** What is not exact about the store `a` at the end of an ingest whose delete
      unlinked the chunk being stored: the blobs in `keys`. */
  ghost predicate Nearly(cfg: Cfg, keys: set<string>, a: State, ideal: State, pending: multiset<string>) {
    Twin(keys, a, ideal) && Consistent(cfg, ideal, pending) && BlobsGood(cfg, a.disk.blobs)
  }

  lemma ExactIsNearly(cfg: Cfg, s: State, pending: multiset<string>)
    requires Consistent(cfg, s, pending) && s.disk.plan.Never?
    ensures Nearly(cfg, {}, s, s, pending)
  {
    assert s.disk.blobs - {} == s.disk.blobs;
  }

  lemma BlobStepGood(cfg: Cfg, s: State, data: Bytes)
    requires BlobsGood(cfg, s.disk.blobs) && LawfulCodec(cfg) && InPlay(cfg, data) && Encode(cfg, data).Some?
    ensures BlobsGood(cfg, BlobStep(s, DigestHex(cfg, data), Encode(cfg, data).value).s.disk.blobs)
  {
    BlobStepEffect(s, DigestHex(cfg, data), Encode(cfg, data).value);
  }

  lemma StoreChunkGood(cfg: Cfg, keys: set<string>, s: State, t: State, data: Bytes)
    requires Twin(keys, s, t) && BlobsGood(cfg, s.disk.blobs) && LawfulCodec(cfg) && InPlay(cfg, data)
    ensures var o := StoreChunk(cfg, s, DigestHex(cfg, data), data);
            o.Done? ==> BlobsGood(cfg, o.s.disk.blobs)
  {
    if Encode(cfg, data).Some? {
      var d, blob := DigestHex(cfg, data), Encode(cfg, data).value;
      BlobStepGood(cfg, s, data);
      BlobStepTwin(keys, s, t, d, blob);
      CountStepTwin(keys, BlobStep(s, d, blob).s, BlobStep(t, d, blob).s, d, |data|);
      hide BlobStep, CountStep, BlobsGood, IsChunkDigest, LawfulCodec;
    }
  }

  lemma {:induction false} AcceptAllGood(cfg: Cfg, keys: set<string>, s: State, t: State, chunks: seq<Bytes>)
    requires Twin(keys, s, t) && BlobsGood(cfg, s.disk.blobs) && LawfulCodec(cfg) && AllInPlay(cfg, chunks)
    ensures var o := AcceptAll(cfg, s, chunks);
            o.Done? ==> BlobsGood(cfg, o.s.disk.blobs)
    decreases |chunks|
  {
    if chunks != [] {
      assert InPlay(cfg, chunks[0]) && AllInPlay(cfg, chunks[1..]);
      hide StoreChunk, Twin, IsChunkDigest, BlobsGood, LawfulCodec, AllInPlay;
      var d := DigestHex(cfg, chunks[0]);
      StoreChunkGood(cfg, keys, s, t, chunks[0]);
      StoreChunkTwin(cfg, keys, s, t, d, chunks[0]);
      var o, p := StoreChunk(cfg, s, d, chunks[0]), StoreChunk(cfg, t, d, chunks[0]);
      if o.Done? {
        AcceptAllGood(cfg, keys, o.s, p.s, chunks[1..]);
      }
    }
  }

  /** Accepting from a store that is nearly exact. */
  lemma AcceptNearly(cfg: Cfg, keys: set<string>, a: State, ideal: State, chunks: seq<Bytes>, pending: multiset<string>)
    requires Nearly(cfg, keys, a, ideal, pending) && LawfulCodec(cfg) && Ingestible(cfg, chunks)
    ensures var o, p := AcceptAll(cfg, a, chunks), AcceptAll(cfg, ideal, chunks);
            && o.Done? && p.Done? && o.v == DigestsOf(cfg, chunks) && SameFiles(ideal, p.s)
            && Nearly(cfg, keys, o.s, p.s, pending + multiset(o.v))
            && (forall x :: x in o.s.disk.blobs <==> x in a.disk.blobs || x in o.v)
  {
    assert ideal.disk.plan.Never?;
    hide AcceptAll, Consistent, Twin, BlobsGood, LawfulCodec, AllInPlay, Encodable;
    AcceptAllExact(cfg, ideal, chunks, pending);
    AcceptAllTwin(cfg, keys, a, ideal, chunks);
    AcceptAllGood(cfg, keys, a, ideal, chunks);
  }

  // ----- The chunk during which the delete runs

  /** The delete unlinks the chunk between its put and its count: the deleted
      file held it, and no other file does, nor the chunks accepted before. */
  ghost predicate Taken(s: State, d: string, file: string, pending: multiset<string>)
    requires file in s.files
  {
    d in s.files[file].digests && AllRefs(s.files - {file})[d] + pending[d] == 0
  }

  lemma PutTwin(s: State, d: string, blob: Bytes)
    requires s.disk.plan.Never?
    ensures BlobStep(s, d, blob).Done?
    ensures Twin(if d in s.disk.blobs then {} else {d}, s, BlobStep(s, d, blob).s)
  {
    BlobStepEffect(s, d, blob);
    assert s.disk.blobs - {} == s.disk.blobs;
    assert s.disk.blobs[d := blob] - {d} == s.disk.blobs - {d};
  }

  lemma StoreParts(cfg: Cfg, s: State, d: string, data: Bytes)
    requires Encode(cfg, data).Some?
    ensures var o := BlobStep(s, d, Encode(cfg, data).value);
            var p := CountStep(o.s, d, |data|);
            StoreChunk(cfg, s, d, data).Done? ==>
              o.Done? && p.Done? && StoreChunk(cfg, s, d, data).s == StatsStep(p.s, o.v, |data|)
  {
    hide BlobStep, CountStep;
  }

  lemma TakenIff(cfg: Cfg, s: State, d: string, file: string, pending: multiset<string>)
    requires Consistent(cfg, s, pending) && s.disk.plan.Never? && file in s.files && d in s.disk.blobs
    ensures var u := Delete(cfg, s, file).s;
            && Consistent(cfg, u, pending) && u.disk.plan.Never? && u.files == s.files - {file}
            && BlobsGood(cfg, u.disk.blobs) && Delete(cfg, s, file).Done?
            && (d in u.disk.blobs <==> !Taken(s, d, file, pending))
  {
    hide Consistent, Delete, BlobsGood, AllRefs;
    DeletePending(cfg, s, file, pending);
    CountedHasBlob(cfg, Delete(cfg, s, file).s, pending);
  }

  /** Counting a chunk, whether its blob is there or not, leaves a store that
      agrees, up to that blob, with storing it. */
  lemma CountNearly(cfg: Cfg, u: State, data: Bytes, existed: bool, pending: multiset<string>)
    requires Consistent(cfg, u, pending) && u.disk.plan.Never? && LawfulCodec(cfg)
    requires InPlay(cfg, data) && Encode(cfg, data).Some? && BlobsGood(cfg, u.disk.blobs)
    ensures var d := DigestHex(cfg, data);
            var o := CountStep(u, d, |data|);
            var keys := if d in u.disk.blobs then {} else {d};
            && o.Done? && o.s.disk.blobs == u.disk.blobs
            && Nearly(cfg, keys, StatsStep(o.s, existed, |data|), StoreChunk(cfg, u, d, data).s, pending + multiset{d})
  {
    var d, blob := DigestHex(cfg, data), Encode(cfg, data).value;
    hide Consistent, BlobStep, CountStep, LawfulCodec, BlobsGood, InPlay, IsChunkDigest, StoreChunk, Twin;
    StoreChunkExact(cfg, u, data, pending);
    StoreParts(cfg, u, d, data);
    PutTwin(u, d, blob);
    var keys := if d in u.disk.blobs then {} else {d};
    var t := BlobStep(u, d, blob).s;
    CountStepTwin(keys, u, t, d, |data|);
    StatsTwin(keys, CountStep(u, d, |data|).s, CountStep(t, d, |data|).s);
  }

  /** Deleting after the put leaves a store that agrees, up to that blob, with
      storing the chunk after the delete. */
  lemma AfterPutNearly(cfg: Cfg, s: State, data: Bytes, file: string, pending: multiset<string>)
    requires Consistent(cfg, s, pending) && s.disk.plan.Never? && LawfulCodec(cfg) && file in s.files
    requires InPlay(cfg, data) && Encode(cfg, data).Some?
    ensures var d := DigestHex(cfg, data);
            var o := StoreRaced(cfg, s, data, file, true);
            var u := Delete(cfg, BlobStep(s, d, Encode(cfg, data).value).s, file).s;
            var keys := if Taken(s, d, file, pending) then {d} else {};
            && o.Done? && u.files == s.files - {file}
            && Consistent(cfg, u, pending) && u.disk.plan.Never?
            && Nearly(cfg, keys, o.s, StoreChunk(cfg, u, d, data).s, pending + multiset{d})
            && (Taken(s, d, file, pending) ==> d !in o.s.disk.blobs)
  {
    var d, blob := DigestHex(cfg, data), Encode(cfg, data).value;
    hide Consistent, BlobStep, CountStep, Delete, LawfulCodec, BlobsGood, AllRefs, InPlay, IsChunkDigest;
    hide StoreChunk, Twin;
    BlobStepExact(cfg, s, data, pending);
    BlobStepEffect(s, d, blob);
    var o1 := BlobStep(s, d, blob);
    assert Taken(o1.s, d, file, pending) == Taken(s, d, file, pending);
    TakenIff(cfg, o1.s, d, file, pending);
    hide Taken, Nearly;
    CountNearly(cfg, Delete(cfg, o1.s, file).s, data, o1.v, pending);
  }

  lemma StatsTwin(keys: set<string>, s: State, t: State)
    requires Twin(keys, s, t)
    ensures forall a, b :: Twin(keys, s.(stats := a), t.(stats := b))
  {
  }

  /** Deleting after the count leaves an exact store. */
  lemma AfterCountExact(cfg: Cfg, s: State, data: Bytes, file: string, pending: multiset<string>)
    requires Consistent(cfg, s, pending) && s.disk.plan.Never? && LawfulCodec(cfg) && file in s.files
    requires InPlay(cfg, data) && Encode(cfg, data).Some?
    ensures var d := DigestHex(cfg, data);
            var o := StoreRaced(cfg, s, data, file, false);
            && o.Done? && Consistent(cfg, o.s, pending + multiset{d}) && o.s.disk.plan.Never?
            && o.s.files == s.files - {file}
  {
    var d, blob := DigestHex(cfg, data), Encode(cfg, data).value;
    hide Consistent, BlobStep, CountStep, Delete, LawfulCodec, BlobsGood, InPlay, IsChunkDigest, StoreChunk, Stored;
    StoreChunkExact(cfg, s, data, pending);
    StoreChunkStored(cfg, s, data, pending);
    assert StoreChunk(cfg, s, d, data).s.files == s.files by { StoredKeepsFiles(cfg, s, d, data); }
    StoreParts(cfg, s, d, data);
    var o1 := BlobStep(s, d, blob);
    var o2 := CountStep(o1.s, d, |data|);
    SameButStats(cfg, StoreChunk(cfg, s, d, data).s, o2.s, pending + multiset{d});
    DeletePending(cfg, o2.s, file, pending + multiset{d});
    var u := Delete(cfg, o2.s, file).s;
    SameButStats(cfg, u, StatsStep(u, o1.v, |data|), pending + multiset{d});
  }

  // ----- The whole session

  /** The chunk that the delete takes, if it does. */
  ghost function Lost(cfg: Cfg, s: State, chunks: seq<Bytes>, file: string, at: Boundary): set<string>
    requires file in s.files && (at.AfterPut? ==> at.k < |chunks|)
  {
    if at.AfterPut? && Taken(s, DigestHex(cfg, chunks[at.k]), file, multiset(DigestsOf(cfg, chunks[..at.k])))
    then {DigestHex(cfg, chunks[at.k])} else {}
  }

  lemma AcceptFirst(cfg: Cfg, s: State, chunks: seq<Bytes>)
    requires Clean(cfg, s) && LawfulCodec(cfg) && Ingestible(cfg, chunks)
    ensures var o := AcceptAll(cfg, s, chunks);
            && o.Done? && o.v == DigestsOf(cfg, chunks) && Consistent(cfg, o.s, multiset(o.v))
            && o.s.files == s.files && o.s.disk.plan.Never?
  {
    hide Consistent, LawfulCodec, AcceptAll, AllInPlay, Encodable;
    AcceptAllExact(cfg, s, chunks, multiset{});
    assert multiset{} + multiset(AcceptAll(cfg, s, chunks).v) == multiset(AcceptAll(cfg, s, chunks).v);
  }

  lemma AcceptRest(cfg: Cfg, keys: set<string>, a: State, ideal: State, chunks: seq<Bytes>, before: seq<string>)
    requires Nearly(cfg, keys, a, ideal, multiset(before)) && LawfulCodec(cfg) && Ingestible(cfg, chunks)
    ensures var o, p := AcceptAll(cfg, a, chunks), AcceptAll(cfg, ideal, chunks);
            && o.Done? && o.v == DigestsOf(cfg, chunks) && p.s.files == ideal.files
            && Nearly(cfg, keys, o.s, p.s, multiset(before + o.v))
            && (forall x :: x in o.s.disk.blobs <==> x in a.disk.blobs || x in o.v)
  {
    hide Nearly, LawfulCodec, AcceptAll, Ingestible;
    AcceptNearly(cfg, keys, a, ideal, chunks, multiset(before));
    assert multiset(before) + multiset(AcceptAll(cfg, a, chunks).v) == multiset(before + AcceptAll(cfg, a, chunks).v);
  }

  lemma BeforeParts(cfg: Cfg, s: State, chunks: seq<Bytes>, file: string, k: nat)
    requires k <= |chunks|
    ensures var o := AcceptAll(cfg, s, chunks[..k]);
            var p := AcceptAll(cfg, Delete(cfg, o.s, file).s, chunks[k..]);
            o.Done? && p.Done? ==>
              AcceptRaced(cfg, s, chunks, file, BeforeChunk(k)) == Done(p.s, o.v + p.v)
  {
    hide AcceptAll, Delete;
  }

  lemma LostParts(cfg: Cfg, s: State, chunks: seq<Bytes>, file: string, k: nat, afterPut: bool)
    requires k < |chunks| && file in s.files
    ensures var d := DigestHex(cfg, chunks[k]);
            Lost(cfg, s, chunks, file, if afterPut then AfterPut(k) else AfterCount(k)) ==
            if afterPut && Taken(s, d, file, multiset(DigestsOf(cfg, chunks[..k]))) then {d} else {}
  {
  }

  lemma AroundParts(cfg: Cfg, s: State, chunks: seq<Bytes>, file: string, k: nat, afterPut: bool)
    requires k < |chunks|
    ensures var at := if afterPut then AfterPut(k) else AfterCount(k);
            var o := AcceptAll(cfg, s, chunks[..k]);
            var m := StoreRaced(cfg, o.s, chunks[k], file, afterPut);
            var p := AcceptAll(cfg, m.s, chunks[k + 1..]);
            o.Done? && m.Done? && p.Done? ==>
              AcceptRaced(cfg, s, chunks, file, at) == Done(p.s, o.v + [DigestHex(cfg, chunks[k])] + p.v)
  {
    hide AcceptAll, Delete, StoreRaced, DigestHex;
  }

  /** The delete before a chunk. */
  lemma AcceptBefore(cfg: Cfg, s: State, chunks: seq<Bytes>, file: string, k: nat) returns (ideal: State)
    requires Clean(cfg, s) && LawfulCodec(cfg) && Ingestible(cfg, chunks) && file in s.files && k <= |chunks|
    ensures var o := AcceptRaced(cfg, s, chunks, file, BeforeChunk(k));
            && o.Done? && o.v == DigestsOf(cfg, chunks) && ideal.files == s.files - {file}
            && Nearly(cfg, {}, o.s, ideal, multiset(o.v))
  {
    hide *;
    SplitIngestible(cfg, chunks, k);
    SplitDigests(cfg, chunks, k);
    BeforeParts(cfg, s, chunks, file, k);
    AcceptFirst(cfg, s, chunks[..k]);
    var o1 := AcceptAll(cfg, s, chunks[..k]);
    DeletePending(cfg, o1.s, file, multiset(o1.v));
    var u := Delete(cfg, o1.s, file).s;
    ExactIsNearly(cfg, u, multiset(o1.v));
    AcceptRest(cfg, {}, u, u, chunks[k..], o1.v);
    ideal := AcceptAll(cfg, u, chunks[k..]).s;
  }

  lemma NearlyParts(cfg: Cfg, keys: set<string>, a: State, ideal: State, pending: multiset<string>)
    requires Nearly(cfg, keys, a, ideal, pending)
    ensures Twin(keys, a, ideal) && Consistent(cfg, ideal, pending) && BlobsGood(cfg, a.disk.blobs)
    ensures a.files == ideal.files && a.refs == ideal.refs && a.disk.plan.Never? && ideal.disk.plan.Never?
  {
    hide Consistent, BlobsGood;
  }

  /** The store right after the chunk during which the delete runs. */
  lemma StoreNearly(cfg: Cfg, s: State, data: Bytes, file: string, afterPut: bool, before: seq<string>)
    returns (ideal: State)
    requires Consistent(cfg, s, multiset(before)) && s.disk.plan.Never? && LawfulCodec(cfg) && file in s.files
    requires InPlay(cfg, data) && Encode(cfg, data).Some?
    ensures var d := DigestHex(cfg, data);
            var o := StoreRaced(cfg, s, data, file, afterPut);
            var keys := if afterPut && Taken(s, d, file, multiset(before)) then {d} else {};
            && o.Done? && ideal.files == s.files - {file}
            && Nearly(cfg, keys, o.s, ideal, multiset(before + [d]))
            && (forall x :: x in keys ==> x !in o.s.disk.blobs)
  {
    var d := DigestHex(cfg, data);
    hide Consistent, LawfulCodec, Delete, Nearly, StoreRaced, Taken, StoreChunk, BlobStep, IsChunkDigest, InPlay;
    assert multiset(before) + multiset{d} == multiset(before + [d]);
    if afterPut {
      AfterPutNearly(cfg, s, data, file, multiset(before));
      var u := Delete(cfg, BlobStep(s, d, Encode(cfg, data).value).s, file).s;
      ideal := StoreChunk(cfg, u, d, data).s;
      StoredKeepsFiles(cfg, u, d, data);
    } else {
      AfterCountExact(cfg, s, data, file, multiset(before));
      ideal := StoreRaced(cfg, s, data, file, afterPut).s;
      ExactIsNearly(cfg, ideal, multiset(before) + multiset{d});
    }
  }

  /** The delete within a chunk. */
  lemma AcceptAround(cfg: Cfg, s: State, chunks: seq<Bytes>, file: string, k: nat, afterPut: bool)
    returns (ideal: State)
    requires Clean(cfg, s) && LawfulCodec(cfg) && Ingestible(cfg, chunks) && file in s.files && k < |chunks|
    ensures var at := if afterPut then AfterPut(k) else AfterCount(k);
            var o := AcceptRaced(cfg, s, chunks, file, at);
            var keys := Lost(cfg, s, chunks, file, at);
            && o.Done? && o.v == DigestsOf(cfg, chunks) && ideal.files == s.files - {file}
            && Nearly(cfg, keys, o.s, ideal, multiset(o.v))
            && (forall x :: x in keys ==> (x in o.s.disk.blobs <==> x in DigestsOf(cfg, chunks[k + 1..])))
  {
    LostParts(cfg, s, chunks, file, k, afterPut);
    hide *;
    SplitIngestible(cfg, chunks, k);
    SplitDigests(cfg, chunks, k);
    AroundParts(cfg, s, chunks, file, k, afterPut);
    AcceptFirst(cfg, s, chunks[..k]);
    var o1 := AcceptAll(cfg, s, chunks[..k]);
    var d := DigestHex(cfg, chunks[k]);
    TakenFiles(s, o1.s, d, file, multiset(o1.v));
    var mid := StoreNearly(cfg, o1.s, chunks[k], file, afterPut, o1.v);
    var s2 := StoreRaced(cfg, o1.s, chunks[k], file, afterPut).s;
    var keys := if afterPut && Taken(o1.s, d, file, multiset(o1.v)) then {d} else {};
    AcceptRest(cfg, keys, s2, mid, chunks[k + 1..], o1.v + [d]);
    ideal := AcceptAll(cfg, mid, chunks[k + 1..]).s;
  }

  lemma TakenFiles(s: State, t: State, d: string, file: string, pending: multiset<string>)
    requires file in s.files && t.files == s.files
    ensures Taken(s, d, file, pending) == Taken(t, d, file, pending)
  {
  }

  lemma CommitNearly(cfg: Cfg, keys: set<string>, a: State, ideal: State, id: string, digests: seq<string>)
    requires Nearly(cfg, keys, a, ideal, multiset(digests)) && ValidId(id)
    requires forall d :: d in Previous(a, id) ==> d !in keys
    ensures var n := |Meaning(cfg, digests)|;
            var o, p := Commit(cfg, a, id, digests, n), Commit(cfg, ideal, id, digests, n);
            && o.Done? && o.v == digests && o.s.files == a.files[id := FileRec(digests, n)]
            && Nearly(cfg, keys, o.s, p.s, multiset{}) && SameAt(keys, a, o.s)
  {
    var n := |Meaning(cfg, digests)|;
    NearlyParts(cfg, keys, a, ideal, multiset(digests));
    CommitExact(cfg, ideal, id, digests);
    CommitTwin(cfg, keys, a, ideal, id, digests, n);
    var o, p := Commit(cfg, a, id, digests, n), Commit(cfg, ideal, id, digests, n);
    CountedHasBlob(cfg, p.s, multiset{});
    CommitAnswers(cfg, a, id, digests, n);
    hide Consistent, Commit, Meaning, Previous;
    assert BlobsGood(cfg, o.s.disk.blobs) by { TwinGood(cfg, keys, a, o.s, p.s); }
    assert o.s.files == p.s.files by { TwinFiles(keys, o.s, p.s); }
  }

  lemma CommitAnswers(cfg: Cfg, s: State, id: string, digests: seq<string>, n: nat)
    ensures Commit(cfg, s, id, digests, n).Done? ==> Commit(cfg, s, id, digests, n).v == digests
  {
    hide Publish, ReleaseAll;
  }

  lemma TwinFiles(keys: set<string>, s: State, t: State)
    requires Twin(keys, s, t)
    ensures s.files == t.files
  {
  }

  lemma TwinGood(cfg: Cfg, keys: set<string>, a: State, b: State, ideal: State)
    requires BlobsGood(cfg, a.disk.blobs) && SameAt(keys, a, b) && Twin(keys, b, ideal) &&
             BlobsGood(cfg, ideal.disk.blobs)
    ensures BlobsGood(cfg, b.disk.blobs)
  {
    hide IsChunkDigest;
    forall d | d in b.disk.blobs && IsChunkDigest(d) ensures Decode(cfg, b.disk.blobs[d]) == Some(cfg.plain(d)) {
      if d !in keys {
        TwinBlobs(keys, b, ideal, d);
      }
    }
  }

  lemma {:induction false} ReadToStops(cfg: Cfg, b: Disk, digests: seq<string>, written: Bytes)
    requires b.plan.Never? && exists i :: 0 <= i < |digests| && digests[i] !in b.blobs
    ensures ReadTo(cfg, b, digests, written).Fail?
    decreases |digests|
  {
    hide IsChunkDigest, Decode;
    var i :| 0 <= i < |digests| && digests[i] !in b.blobs;
    if i > 0 {
      assert digests[1..][i - 1] == digests[i];
      var o := ReadChunk(cfg, b, digests[0]);
      if o.Done? {
        ReadToStops(cfg, o.s, digests[1..], written + o.v);
      }
    }
  }

  /** A file of a nearly exact store can be read unless it names a missing blob. */
  lemma ReadNearly(cfg: Cfg, keys: set<string>, a: State, ideal: State, id: string)
    requires Nearly(cfg, keys, a, ideal, multiset{}) && id in a.files
    ensures var digests := a.files[id].digests;
            && (Read(cfg, a, id).Done? <==> forall x :: x in digests && x in keys ==> x in a.disk.blobs)
            && (Read(cfg, a, id).Done? ==> Read(cfg, a, id).v == Meaning(cfg, digests))
  {
    NearlyParts(cfg, keys, a, ideal, multiset{});
    var digests := a.files[id].digests;
    hide Nearly, Consistent, BlobsGood, IsChunkDigest, ReadTo, Meaning, Known;
    forall i | 0 <= i < |digests|
      ensures Known(cfg, digests[i]) && (digests[i] !in keys ==> digests[i] in a.disk.blobs)
    {
      FileIsBacked(cfg, ideal, multiset{}, id, digests[i]);
      if digests[i] !in keys {
        TwinBlobs(keys, a, ideal, digests[i]);
      }
    }
    if forall i :: 0 <= i < |digests| ==> digests[i] in a.disk.blobs {
      ReadToExact(cfg, a.disk, digests, []);
      assert [] + Meaning(cfg, digests) == Meaning(cfg, digests);
    } else {
      ReadToStops(cfg, a.disk, digests, []);
    }
  }

  // ----- The delete during commit

  /** The same store with other manifests, in memory and on the backend. */
  function Elsewhere(s: State, files: map<string, FileRec>, m: map<string, Doc>): State {
    s.(files := files, disk := s.disk.(manifests := m))
  }

  /** Releasing does not look at manifests. */
  lemma {:induction false} ReleaseElsewhere(cfg: Cfg, s: State, files: map<string, FileRec>, m: map<string, Doc>,
                                            digests: seq<string>)
    ensures var o, p := ReleaseAll(cfg, s, digests), ReleaseAll(cfg, Elsewhere(s, files, m), digests);
            p == if o.Done? then Done(Elsewhere(o.s, files, m), ()) else Fail(Elsewhere(o.s, files, m), o.e)
    decreases |digests|
  {
    hide ReleaseOne, Elsewhere;
    if digests != [] {
      ReleaseOneElsewhere(cfg, s, files, m, digests[0]);
      var o := ReleaseOne(cfg, s, digests[0]);
      if o.Done? {
        ReleaseElsewhere(cfg, o.s, files, m, digests[1..]);
      }
    }
  }

  lemma ReleaseOneElsewhere(cfg: Cfg, s: State, files: map<string, FileRec>, m: map<string, Doc>, d: string)
    ensures var o, p := ReleaseOne(cfg, s, d), ReleaseOne(cfg, Elsewhere(s, files, m), d);
            p == if o.Done? then Done(Elsewhere(o.s, files, m), ()) else Fail(Elsewhere(o.s, files, m), o.e)
  {
    hide Settle, Decode, Monus, Decrement;
    var o := ChunkSize(cfg, s, d);
    assert ChunkSize(cfg, Elsewhere(s, files, m), d) ==
           if o.Done? then Done(Elsewhere(o.s, files, m), o.v) else Fail(Elsewhere(o.s, files, m), o.e);
    hide ChunkSize;
    if o.Done? && d in s.refs {
      SettleElsewhere(o.s.(refs := Decrement(o.s.refs, d)), files, m, d, o.v);
    }
  }

  lemma SettleElsewhere(s: State, files: map<string, FileRec>, m: map<string, Doc>, d: string, size: nat)
    ensures var o, p := Settle(s, d, size), Settle(Elsewhere(s, files, m), d, size);
            p == if o.Done? then Done(Elsewhere(o.s, files, m), ()) else Fail(Elsewhere(o.s, files, m), o.e)
  {
    hide SaveRefcount, RemoveRefcount, Monus;
    if d in s.refs {
      SaveElsewhere(s.disk, m, d, s.refs[d].count, size);
    } else {
      RemoveElsewhere(DeleteBlob(s.disk, d).s, m, d);
    }
  }

  lemma ReadElsewhere(b: Disk, m: map<string, Doc>)
    ensures var o, p := ReadList(b, Refcounts), ReadList(b.(manifests := m), Refcounts);
            p == if o.Done? then Done(o.s.(manifests := m), o.v) else Fail(o.s.(manifests := m), o.e)
  {
  }

  lemma SaveElsewhere(b: Disk, m: map<string, Doc>, d: string, count: nat, size: nat)
    ensures var o, p := SaveRefcount(b, d, count, size), SaveRefcount(b.(manifests := m), d, count, size);
            p == if o.Done? then Done(o.s.(manifests := m), ()) else Fail(o.s.(manifests := m), o.e)
  {
    hide IsChunkDigest, ReadList;
    var o := PutDoc(b, Refcounts, d, CountSize(count, size));
    if o.Done? {
      ReadElsewhere(o.s, m);
    }
  }

  lemma RemoveElsewhere(b: Disk, m: map<string, Doc>, d: string)
    ensures var o, p := RemoveRefcount(b, d), RemoveRefcount(b.(manifests := m), d);
            p == if o.Done? then Done(o.s.(manifests := m), ()) else Fail(o.s.(manifests := m), o.e)
  {
    hide Retain, ReadList;
    var o := DeleteDoc(b, Refcounts, d);
    if o.Done? {
      ReadElsewhere(o.s, m);
    }
  }

  lemma DeleteFilesFree(cfg: Cfg, s: State, files: map<string, FileRec>, file: string)
    requires file in s.files && file in files && files[file] == s.files[file]
    ensures Delete(cfg, s.(files := files), file).s == Delete(cfg, s, file).s.(files := files - {file})
  {
    hide ReleaseAll, RemoveManifest;
    var s1 := s.(files := s.files - {file}, disk := RemoveManifest(s.disk, file).s);
    ReleaseElsewhere(cfg, s1, files - {file}, s1.disk.manifests, s.files[file].digests);
    ReleaseElsewhere(cfg, s1, s1.files, s1.disk.manifests, s.files[file].digests);
  }

  lemma DeleteFiles(cfg: Cfg, s: State, file: string)
    requires file in s.files
    ensures Delete(cfg, s, file).s.files == s.files - {file}
  {
    hide ReleaseAll, RemoveManifest;
    var s1 := s.(files := s.files - {file}, disk := RemoveManifest(s.disk, file).s);
    ReleaseElsewhere(cfg, s1, s1.files, s1.disk.manifests, s.files[file].digests);
  }

  /** Deleting another file after the insertion of the manifest comes to the same
      as deleting it before. */
  lemma InsertedThenDeleted(cfg: Cfg, s: State, id: string, digests: seq<string>, n: nat, file: string)
    requires file in s.files && file != id && id != ""
    ensures CommitRaced(cfg, s, id, digests, n, file, AfterInsert) ==
            Commit(cfg, Delete(cfg, s, file).s, id, digests, n)
  {
    var rec := FileRec(digests, n);
    DeleteFilesFree(cfg, s, s.files[id := rec], file);
    DeleteFiles(cfg, s, file);
    var u := Delete(cfg, s, file).s;
    assert s.files[id := rec] - {file} == u.files[id := rec];
    hide Delete, SaveManifest, ReleaseAll;
  }

  lemma SplitRelease(cfg: Cfg, s: State, previous: seq<string>, file: string, j: nat)
    requires Consistent(cfg, s, multiset(previous)) && s.disk.plan.Never? && file in s.files && j <= |previous|
    ensures var o := ReleaseRaced(cfg, s, previous, file, j);
            && o.Done? && Consistent(cfg, o.s, multiset{}) && o.s.files == s.files - {file} && o.s.disk.plan.Never?
  {
    hide Consistent, ReleaseAll, Delete;
    assert previous == previous[..j] + previous[j..];
    var rest := multiset(previous[j..]);
    assert multiset(previous) == rest + multiset(previous[..j]);
    ReleaseAllExact(cfg, s, previous[..j], rest);
    var s1 := ReleaseAll(cfg, s, previous[..j]).s;
    DeletePending(cfg, s1, file, rest);
    assert rest == multiset{} + multiset(previous[j..]);
    ReleaseAllExact(cfg, Delete(cfg, s1, file).s, previous[j..], multiset{});
  }

  /** A delete during the release of the previous version, of another file or of
      the new version itself, leaves an exact store. */
  lemma CommitInRelease(cfg: Cfg, s: State, id: string, digests: seq<string>, file: string, j: nat)
    requires Consistent(cfg, s, multiset(digests)) && s.disk.plan.Never? && ValidId(id)
    requires file in s.files && id in s.files && j <= |s.files[id].digests|
    ensures var n := |Meaning(cfg, digests)|;
            var o := CommitRaced(cfg, s, id, digests, n, file, InRelease(j));
            && o.Done? && o.v == digests && Consistent(cfg, o.s, multiset{}) && o.s.disk.plan.Never?
            && o.s.files == s.files[id := FileRec(digests, n)] - {file}
  {
    var n := |Meaning(cfg, digests)|;
    hide Consistent, Publish, ReleaseRaced, Meaning, AllDigests, IndexReadable, WithEntry;
    assert multiset{} + multiset(digests) == multiset(digests);
    PendingDigests(cfg, s, digests, multiset{});
    PublishEffect(s, id, digests, n);
    var o := Publish(s, id, digests, n);
    PublishedExact(cfg, s, o.s, id, digests, multiset{});
    var previous := Previous(s, id);
    assert multiset{} + multiset(previous) == multiset(previous);
    SplitRelease(cfg, o.s, previous, file, j);
  }

  // ----- The file after the race

  /** The digests of the chunks that follow. */
  function Later(cfg: Cfg, chunks: seq<Bytes>, at: Boundary): seq<string>
    requires at.AfterPut? ==> at.k < |chunks|
  {
    if at.AfterPut? then DigestsOf(cfg, chunks[at.k + 1..]) else []
  }

  lemma LostIsUnused(cfg: Cfg, s: State, chunks: seq<Bytes>, file: string, at: Boundary, f: string)
    requires file in s.files && (at.AfterPut? ==> at.k < |chunks|) && f in s.files && f != file
    ensures forall d :: d in s.files[f].digests ==> d !in Lost(cfg, s, chunks, file, at)
  {
    hide IsChunkDigest, DigestsOf, AllRefs;
    forall d | d in s.files[f].digests && d in Lost(cfg, s, chunks, file, at) ensures false {
      AllRefsMember(s.files - {file}, f, d);
    }
  }

  predicate IsLate(at: Boundary) {
    at.AfterInsert? || at.InRelease?
  }

  lemma BoundaryFits(cfg: Cfg, s: State, id: string, chunks: seq<Bytes>, file: string, at: Boundary)
    requires IsBoundary(s, id, chunks, file, at) && Ingestible(cfg, chunks)
    ensures at.AfterPut? || at.AfterCount? ==> at.k < |chunks|
    ensures Meaning(cfg, DigestsOf(cfg, chunks)) == Concat(chunks)
  {
    hide Encodable;
    MeaningOfChunks(cfg, chunks);
  }

  lemma LateFits(cfg: Cfg, s: State, id: string, chunks: seq<Bytes>, file: string, at: Boundary)
    requires file in s.files && IsBoundary(s, id, chunks, file, at) && IsLate(at)
    ensures file != id && (at.InRelease? ==> id in s.files && at.j <= |s.files[id].digests|)
    ensures Lost(cfg, s, chunks, file, at) == {}
  {
  }

  lemma PreviousUnlost(cfg: Cfg, s: State, id: string, chunks: seq<Bytes>, file: string, at: Boundary, a: State)
    requires file in s.files && (at.AfterPut? ==> at.k < |chunks|) && a.files == s.files - {file}
    ensures forall d :: d in Previous(a, id) ==> d !in Lost(cfg, s, chunks, file, at)
  {
    hide Lost;
    if id in a.files {
      LostIsUnused(cfg, s, chunks, file, at, id);
    }
  }

  lemma RacedParts(cfg: Cfg, s: State, id: string, chunks: seq<Bytes>, file: string, at: Boundary)
    requires IsBoundary(s, id, chunks, file, at)
    ensures !IsLate(at) ==> if at.BeforeChunk? then at.k <= |chunks| else at.k < |chunks|
    ensures var o := AcceptRaced(cfg, s, chunks, file, at);
            && (IsLate(at) ==> o == AcceptAll(cfg, s, chunks))
            && (o.Done? ==>
                  RacedIngest(cfg, s, id, chunks, file, at) ==
                  CommitRaced(cfg, o.s, id, o.v, |Concat(chunks)|, file, at))
  {
    hide AcceptAll, StoreRaced, CommitRaced, Delete, Concat;
  }

  lemma CommitUnraced(cfg: Cfg, s: State, id: string, digests: seq<string>, n: nat, file: string, at: Boundary)
    requires !IsLate(at)
    ensures CommitRaced(cfg, s, id, digests, n, file, at) == Commit(cfg, s, id, digests, n)
  {
    hide Commit, Delete, SaveManifest, ReleaseAll, Publish, ReleaseRaced;
  }

  /** The store after the race, when the delete runs after the insertion of the
      manifest. */
  lemma LateNearly(cfg: Cfg, s: State, id: string, digests: seq<string>, file: string, at: Boundary)
    returns (ideal: State)
    requires Consistent(cfg, s, multiset(digests)) && s.disk.plan.Never? && ValidId(id) && IsLate(at)
    requires file in s.files && file != id
    requires at.InRelease? ==> id in s.files && at.j <= |s.files[id].digests|
    ensures var n := |Meaning(cfg, digests)|;
            var o := CommitRaced(cfg, s, id, digests, n, file, at);
            && o.Done? && o.v == digests && o.s.files == (s.files - {file})[id := FileRec(digests, n)]
            && Nearly(cfg, {}, o.s, ideal, multiset{})
  {
    hide Consistent, Nearly, CommitRaced, Delete, Commit, Meaning;
    var n := |Meaning(cfg, digests)|;
    if at.AfterInsert? {
      DeletePending(cfg, s, file, multiset(digests));
      var t := Delete(cfg, s, file).s;
      ExactIsNearly(cfg, t, multiset(digests));
      InsertedThenDeleted(cfg, s, id, digests, n, file);
      CommitNearly(cfg, {}, t, t, id, digests);
      ideal := Commit(cfg, t, id, digests, n).s;
    } else {
      CommitInRelease(cfg, s, id, digests, file, at.j);
      assert s.files[id := FileRec(digests, n)] - {file} == (s.files - {file})[id := FileRec(digests, n)];
      ideal := CommitRaced(cfg, s, id, digests, n, file, at).s;
      ExactIsNearly(cfg, ideal, multiset{});
    }
  }

  /** The store when the chunks are accepted, when the delete runs before that. */
  lemma EarlyNearly(cfg: Cfg, s: State, chunks: seq<Bytes>, file: string, at: Boundary) returns (ideal: State)
    requires Clean(cfg, s) && LawfulCodec(cfg) && Ingestible(cfg, chunks) && file in s.files && !IsLate(at)
    requires if at.BeforeChunk? then at.k <= |chunks| else at.k < |chunks|
    ensures var o := AcceptRaced(cfg, s, chunks, file, at);
            var keys := Lost(cfg, s, chunks, file, at);
            && o.Done? && o.v == DigestsOf(cfg, chunks) && o.s.files == s.files - {file}
            && Nearly(cfg, keys, o.s, ideal, multiset(o.v))
            && (forall x :: x in keys ==> (x in o.s.disk.blobs <==> x in Later(cfg, chunks, at)))
  {
    hide Clean, LawfulCodec, Ingestible, Nearly, DigestsOf, Taken, AcceptRaced;
    if at.BeforeChunk? {
      ideal := AcceptBefore(cfg, s, chunks, file, at.k);
    } else {
      ideal := AcceptAround(cfg, s, chunks, file, at.k, at.AfterPut?);
      assert at == if at.AfterPut? then AfterPut(at.k) else AfterCount(at.k);
    }
    var a := AcceptRaced(cfg, s, chunks, file, at).s;
    NearlyParts(cfg, Lost(cfg, s, chunks, file, at), a, ideal, multiset(DigestsOf(cfg, chunks)));
  }

  /** The store after the race, up to the chunk that the delete took. */
  lemma RacedNearly(cfg: Cfg, s: State, id: string, chunks: seq<Bytes>, file: string, at: Boundary)
    returns (ideal: State)
    requires Clean(cfg, s) && LawfulCodec(cfg) && Ingestible(cfg, chunks) && ValidId(id)
    requires file in s.files && IsBoundary(s, id, chunks, file, at)
    ensures var o := RacedIngest(cfg, s, id, chunks, file, at);
            var keys := Lost(cfg, s, chunks, file, at);
            && o.Done? && o.v == DigestsOf(cfg, chunks)
            && o.s.files == (s.files - {file})[id := FileRec(o.v, |Concat(chunks)|)]
            && Nearly(cfg, keys, o.s, ideal, multiset{})
            && (forall x :: x in keys ==> (x in o.s.disk.blobs <==> x in Later(cfg, chunks, at)))
  {
    hide *;
    RacedParts(cfg, s, id, chunks, file, at);
    BoundaryFits(cfg, s, id, chunks, file, at);
    var digests, n := DigestsOf(cfg, chunks), |Concat(chunks)|;
    var keys := Lost(cfg, s, chunks, file, at);
    if IsLate(at) {
      LateFits(cfg, s, id, chunks, file, at);
      AcceptFirst(cfg, s, chunks);
      ideal := LateNearly(cfg, AcceptAll(cfg, s, chunks).s, id, digests, file, at);
    } else {
      var mid := EarlyNearly(cfg, s, chunks, file, at);
      var a := AcceptRaced(cfg, s, chunks, file, at).s;
      PreviousUnlost(cfg, s, id, chunks, file, at, a);
      CommitNearly(cfg, keys, a, mid, id, digests);
      CommitUnraced(cfg, a, id, digests, n, file, at);
      ideal := Commit(cfg, mid, id, digests, n).s;
      SameAtBlobs(keys, a, RacedIngest(cfg, s, id, chunks, file, at).s);
    }
  }

  /** The new file is lost: the delete runs between the put of a chunk and its
      count, takes the chunk, and no later chunk of the file is the same. */
  ghost predicate Loses(cfg: Cfg, s: State, chunks: seq<Bytes>, file: string, at: Boundary)
    requires file in s.files && (at.AfterPut? ==> at.k < |chunks|)
  {
    && at.AfterPut?
    && var d := DigestHex(cfg, chunks[at.k]);
       && d in s.files[file].digests
       && AllRefs(s.files - {file})[d] + multiset(DigestsOf(cfg, chunks[..at.k]))[d] == 0
       && d !in DigestsOf(cfg, chunks[at.k + 1..])
  }

  ghost predicate ReadsAs(cfg: Cfg, s: State, f: string, data: Bytes) {
    Read(cfg, s, f).Done? && Read(cfg, s, f).v == data
  }

  lemma LosesIff(cfg: Cfg, s: State, chunks: seq<Bytes>, file: string, at: Boundary)
    requires file in s.files && (at.AfterPut? || at.AfterCount? ==> at.k < |chunks|)
    ensures Loses(cfg, s, chunks, file, at) <==>
            exists x :: x in DigestsOf(cfg, chunks) && x in Lost(cfg, s, chunks, file, at) &&
              x !in Later(cfg, chunks, at)
  {
    hide DigestsOf, IsChunkDigest, AllRefs, DigestHex;
    if at.AfterPut? {
      var d := DigestHex(cfg, chunks[at.k]);
      assert d == DigestsOf(cfg, chunks)[at.k];
      assert d in DigestsOf(cfg, chunks);
    }
  }

  lemma ReadAfterRace(cfg: Cfg, keys: set<string>, a: State, ideal: State, id: string)
    requires Nearly(cfg, keys, a, ideal, multiset{}) && id in a.files
    ensures var digests := a.files[id].digests;
            if forall x :: x in digests && x in keys ==> x in a.disk.blobs
            then ReadsAs(cfg, a, id, Meaning(cfg, digests)) else Read(cfg, a, id).Fail?
  {
    hide Nearly, Read, Meaning;
    ReadNearly(cfg, keys, a, ideal, id);
  }

  /** A nearly exact store that has all its blobs is exact. */
  lemma NearlyIsExact(cfg: Cfg, keys: set<string>, a: State, ideal: State, pending: multiset<string>)
    requires Nearly(cfg, keys, a, ideal, pending) && forall x :: x in keys ==> x in a.disk.blobs
    ensures Consistent(cfg, a, pending) && a.disk.plan.Never?
  {
    NearlyParts(cfg, keys, a, ideal, pending);
    hide Persisted, Counted, FilesSized, IsChunkDigest, Known, BlobsGood, Nearly;
    forall d | d in a.refs ensures d in a.disk.blobs {
      if d !in keys {
        TwinBlobs(keys, a, ideal, d);
      }
    }
  }

  lemma NeverIsClean(cfg: Cfg, s: State)
    requires Consistent(cfg, s, multiset{}) && s.disk.plan.Never?
    ensures Clean(cfg, s)
  {
  }

  /** Only the lost chunk is missing. */
  lemma NothingLost(cfg: Cfg, s: State, chunks: seq<Bytes>, file: string, at: Boundary)
    requires file in s.files && (at.AfterPut? || at.AfterCount? ==> at.k < |chunks|)
    requires !Loses(cfg, s, chunks, file, at)
    ensures forall x :: x in Lost(cfg, s, chunks, file, at) ==> x in Later(cfg, chunks, at)
  {
    LosesIff(cfg, s, chunks, file, at);
    hide DigestsOf, IsChunkDigest, AllRefs, DigestHex;
    if at.AfterPut? {
      var d := DigestHex(cfg, chunks[at.k]);
      assert d == DigestsOf(cfg, chunks)[at.k];
      assert d in DigestsOf(cfg, chunks);
    }
  }

  /** A delete of a file at one of these boundaries of an ingest: the ingest
      always reports success and the manifests are as if one had followed the
      other. Every other file reads as before. The store is exact and the new
      file reads back, unless the delete ran between the put of a chunk and its count, the deleted file
      held that chunk and no other file, and neither the chunks accepted before
      nor those still to come are the same; and then it cannot be read. */
  lemma DeleteDuringIngest(cfg: Cfg, s: State, id: string, chunks: seq<Bytes>, file: string, at: Boundary)
    requires Clean(cfg, s) && LawfulCodec(cfg) && Ingestible(cfg, chunks) && ValidId(id)
    requires file in s.files && IsBoundary(s, id, chunks, file, at)
    ensures var o := RacedIngest(cfg, s, id, chunks, file, at);
            && o.Done? && o.v == DigestsOf(cfg, chunks)
            && o.s.files == (s.files - {file})[id := FileRec(o.v, |Concat(chunks)|)]
            && (Loses(cfg, s, chunks, file, at) ==> Read(cfg, o.s, id).Fail?)
            && (!Loses(cfg, s, chunks, file, at) ==> Clean(cfg, o.s) && ReadsAs(cfg, o.s, id, Concat(chunks)))
            && (forall f :: f in s.files && f != file && f != id ==>
                  ReadsAs(cfg, o.s, f, Meaning(cfg, s.files[f].digests)))
  {
    hide *;
    BoundaryFits(cfg, s, id, chunks, file, at);
    LosesIff(cfg, s, chunks, file, at);
    var keys := Lost(cfg, s, chunks, file, at);
    var ideal := RacedNearly(cfg, s, id, chunks, file, at);
    var o := RacedIngest(cfg, s, id, chunks, file, at);
    ReadAfterRace(cfg, keys, o.s, ideal, id);
    if !Loses(cfg, s, chunks, file, at) {
      NothingLost(cfg, s, chunks, file, at);
      NearlyIsExact(cfg, keys, o.s, ideal, multiset{});
      NeverIsClean(cfg, o.s);
    }
    forall f | f in s.files && f != file && f != id
      ensures ReadsAs(cfg, o.s, f, Meaning(cfg, s.files[f].digests))
    {
      LostIsUnused(cfg, s, chunks, file, at, f);
      ReadAfterRace(cfg, keys, o.s, ideal, f);
    }
  }
}
