/** An ingest up to its manifest save, and what follows. */
module SavePoint {
  import opened Types
  import opened Hashing
  import opened DiskSpec
  import opened StoreSpec
  import opened Counting
  import opened Records
  import opened Invariants
  import opened ExactSteps
  import opened ExactOps
  import opened ExactRelease
  import opened Vault

  /** The part before the previous version is released. */
  function IngestUpToSave(cfg: Cfg, s: State, id: string, chunks: seq<Bytes>): Out<State, ()> {
    var (s1, digests) :- AcceptAll(cfg, s, chunks);
    Publish(s1, id, digests, |Concat(chunks)|)
  }

  /** Ingesting is this part, then the release. */
  lemma IngestIsSaveThenRelease(cfg: Cfg, s: State, id: string, chunks: seq<Bytes>)
    ensures var save := IngestUpToSave(cfg, s, id, chunks);
            var whole := Ingest(cfg, s, id, chunks);
            && (save.Fail? ==> whole == Fail(save.s, save.e))
            && (save.Done? ==>
                 var release := ReleaseAll(cfg, save.s, Previous(AcceptAll(cfg, s, chunks).s, id));
                 whole.s == release.s && whole.Done? == release.Done?)
  {
  }

  lemma SaveIsPublish(cfg: Cfg, s: State, id: string, chunks: seq<Bytes>)
    ensures var o, save := AcceptAll(cfg, s, chunks), IngestUpToSave(cfg, s, id, chunks);
            save == if o.Done? then Publish(o.s, id, o.v, |Concat(chunks)|) else Fail(o.s, o.e)
  {
    hide AcceptAll, Publish;
  }

  lemma StoredIsEncoded(cfg: Cfg, s: State, d: string, data: Bytes)
    requires StoreChunk(cfg, s, d, data).Done?
    ensures Encode(cfg, data).Some?
  {
    hide BlobStep, CountStep;
  }

  /** What was accepted could be encoded, and is named by its digests. */
  lemma {:induction false} AcceptedEncodes(cfg: Cfg, s: State, chunks: seq<Bytes>)
    requires AcceptAll(cfg, s, chunks).Done?
    ensures Encodable(cfg, chunks) && AcceptAll(cfg, s, chunks).v == DigestsOf(cfg, chunks)
    ensures AcceptAll(cfg, s, chunks).s.files == s.files
    decreases |chunks|
  {
    hide StoreChunk, Encode, IsChunkDigest;
    if chunks != [] {
      var d := DigestHex(cfg, chunks[0]);
      StoredIsEncoded(cfg, s, d, chunks[0]);
      StoredKeepsFiles(cfg, s, d, chunks[0]);
      AcceptedEncodes(cfg, StoreChunk(cfg, s, d, chunks[0]).s, chunks[1..]);
      assert forall i :: 0 < i < |chunks| ==> chunks[i] == chunks[1..][i - 1];
    }
  }

  lemma StoredKeepsFiles(cfg: Cfg, s: State, d: string, data: Bytes)
    ensures var t := StoreChunk(cfg, s, d, data).s;
            SameFiles(s, t)
  {
    if Encode(cfg, data).Some? {
      hide BlobStep, CountStep;
      BlobStepEffect(s, d, Encode(cfg, data).value);
      CountStepFiles(BlobStep(s, d, Encode(cfg, data).value).s, d, |data|);
    }
  }

  lemma CountStepFiles(s: State, d: string, size: nat)
    ensures var t := CountStep(s, d, size).s;
            SameFiles(s, t)
  {
    hide SaveEntry;
    if IsChunkDigest(d) && StoreSpec.Increment(s.refs, d, size).Ok? {
      var r := StoreSpec.Increment(s.refs, d, size).value;
      DigestIsNotIndex(d);
      SaveEntryAny(s.disk, Refcounts, d, CountSize(r.count, r.size));
    }
  }

  /** Accepting chunks, wherever it stops, leaves the manifests alone. */
  lemma {:induction false} AcceptedKeepsFiles(cfg: Cfg, s: State, chunks: seq<Bytes>)
    ensures SameFiles(s, AcceptAll(cfg, s, chunks).s)
    decreases |chunks|
  {
    hide StoreChunk;
    if chunks != [] {
      var d := DigestHex(cfg, chunks[0]);
      StoredKeepsFiles(cfg, s, d, chunks[0]);
      var o := StoreChunk(cfg, s, d, chunks[0]);
      if o.Done? {
        AcceptedKeepsFiles(cfg, o.s, chunks[1..]);
      }
    }
  }

  /** When the manifest is saved, the previous version's references are all that
      is left to release. */
  lemma SavedExact(cfg: Cfg, s: State, id: string, chunks: seq<Bytes>)
    requires Consistent(cfg, s, multiset{}) && LawfulCodec(cfg) && AllInPlay(cfg, chunks) && ValidId(id)
    ensures var o := IngestUpToSave(cfg, s, id, chunks);
            o.Done? ==>
              && Consistent(cfg, o.s, multiset(Previous(s, id)))
              && o.s.files == s.files[id := FileRec(DigestsOf(cfg, chunks), |Concat(chunks)|)]
              && Previous(AcceptAll(cfg, s, chunks).s, id) == Previous(s, id)
  {
    hide Consistent, AcceptAll, Publish, AllInPlay, Encodable, LawfulCodec, Concat, Meaning, AllDigests, IndexReadable;
    hide WithEntry;
    var o1 := AcceptAll(cfg, s, chunks);
    if o1.Done? {
      AcceptedEncodes(cfg, s, chunks);
      AcceptAllExact(cfg, s, chunks, multiset{});
      var digests := o1.v;
      assert multiset{} + multiset(digests) == multiset(digests);
      MeaningOfChunks(cfg, chunks);
      PendingDigests(cfg, o1.s, digests, multiset{});
      PublishEffect(o1.s, id, digests, |Concat(chunks)|);
      var o2 := Publish(o1.s, id, digests, |Concat(chunks)|);
      if o2.Done? {
        PublishedExact(cfg, o1.s, o2.s, id, digests, multiset{});
        assert multiset{} + multiset(Previous(s, id)) == multiset(Previous(s, id));
      }
    }
  }
}
