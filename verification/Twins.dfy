/** Two stores that differ in a few blobs and in their totals take the same
    steps, as long as those blobs are not asked for. */
module Twins {
  import opened Types
  import opened Hashing
  import opened DiskSpec
  import opened StoreSpec
  import opened ExactSteps
  import opened ExactOps

  /** The stores agree, except in the blobs with these keys, which `t` has, and
      in the totals. No call fails. */
  ghost predicate Twin(keys: set<string>, s: State, t: State) {
    && s.files == t.files && s.refs == t.refs
    && s.disk.manifests == t.disk.manifests && s.disk.refcounts == t.disk.refcounts
    && s.disk.plan.Never? && t.disk.plan.Never?
    && s.disk.blobs - keys == t.disk.blobs - keys && keys <= t.disk.blobs.Keys
  }

  /** The blobs with these keys are as they were. */
  ghost predicate SameAt(keys: set<string>, s: State, s': State) {
    forall x :: x in keys ==>
      (x in s'.disk.blobs <==> x in s.disk.blobs) && (x in s.disk.blobs ==> s'.disk.blobs[x] == s.disk.blobs[x])
  }

  lemma SameAtBlobs(keys: set<string>, s: State, s': State)
    requires SameAt(keys, s, s')
    ensures forall x :: x in keys ==> (x in s'.disk.blobs <==> x in s.disk.blobs)
  {
  }

  /** Off the differing keys the blobs are the same. */
  lemma TwinBlobs(keys: set<string>, s: State, t: State, d: string)
    requires Twin(keys, s, t) && d !in keys
    ensures d in s.disk.blobs <==> d in t.disk.blobs
    ensures d in s.disk.blobs ==> s.disk.blobs[d] == t.disk.blobs[d]
  {
    assert d in s.disk.blobs <==> d in s.disk.blobs - keys;
    assert d in t.disk.blobs <==> d in t.disk.blobs - keys;
    assert d in s.disk.blobs ==> s.disk.blobs[d] == (s.disk.blobs - keys)[d];
    assert d in t.disk.blobs ==> t.disk.blobs[d] == (t.disk.blobs - keys)[d];
  }

  lemma BlobStepTwin(keys: set<string>, s: State, t: State, d: string, blob: Bytes)
    requires Twin(keys, s, t)
    ensures var o, p := BlobStep(s, d, blob), BlobStep(t, d, blob);
            && o.Done? && p.Done? && Twin(keys, o.s, p.s)
            && o.s.stats == s.stats && p.s.stats == t.stats
            && (forall x :: x in o.s.disk.blobs <==> x in s.disk.blobs || x == d)
  {
    BlobStepEffect(s, d, blob);
    BlobStepEffect(t, d, blob);
    if d in keys {
      assert s.disk.blobs[d := blob] - keys == s.disk.blobs - keys;
    } else {
      TwinBlobs(keys, s, t, d);
      assert s.disk.blobs[d := blob] - keys == (s.disk.blobs - keys)[d := blob];
      assert t.disk.blobs[d := blob] - keys == (t.disk.blobs - keys)[d := blob];
    }
  }

  lemma SaveRefcountTwin(keys: set<string>, s: State, t: State, d: string, count: nat, size: nat)
    requires Twin(keys, s, t)
    ensures var o, p := SaveRefcount(s.disk, d, count, size), SaveRefcount(t.disk, d, count, size);
            && o.Done? == p.Done? && Twin(keys, s.(disk := o.s), t.(disk := p.s)) && o.s.blobs == s.disk.blobs
  {
    hide IsChunkDigest;
  }

  /** Counting looks at no blob. */
  lemma CountStepTwin(keys: set<string>, s: State, t: State, d: string, size: nat)
    requires Twin(keys, s, t)
    ensures var o, p := CountStep(s, d, size), CountStep(t, d, size);
            && o.Done? == p.Done? && Twin(keys, o.s, p.s) && o.s.disk.blobs == s.disk.blobs
            && o.s.files == s.files
  {
    hide SaveRefcount, StoreSpec.Increment;
    var r := StoreSpec.Increment(s.refs, d, size);
    if r.Ok? {
      var refs := s.refs[d := r.value];
      SaveRefcountTwin(keys, s.(refs := refs), t.(refs := refs), d, r.value.count, r.value.size);
    }
  }

  lemma StoreChunkTwin(cfg: Cfg, keys: set<string>, s: State, t: State, d: string, data: Bytes)
    requires Twin(keys, s, t)
    ensures var o, p := StoreChunk(cfg, s, d, data), StoreChunk(cfg, t, d, data);
            && o.Done? == p.Done?
            && (o.Done? ==> Twin(keys, o.s, p.s) && forall x :: x in o.s.disk.blobs <==> x in s.disk.blobs || x == d)
  {
    if Encode(cfg, data).Some? {
      var blob := Encode(cfg, data).value;
      BlobStepTwin(keys, s, t, d, blob);
      var o, p := BlobStep(s, d, blob), BlobStep(t, d, blob);
      CountStepTwin(keys, o.s, p.s, d, |data|);
      hide BlobStep, CountStep;
    }
  }

  lemma {:induction false} AcceptAllTwin(cfg: Cfg, keys: set<string>, s: State, t: State, chunks: seq<Bytes>)
    requires Twin(keys, s, t)
    ensures var o, p := AcceptAll(cfg, s, chunks), AcceptAll(cfg, t, chunks);
            && o.Done? == p.Done?
            && (o.Done? ==>
                && o.v == p.v && Twin(keys, o.s, p.s)
                && forall x :: x in o.s.disk.blobs <==> x in s.disk.blobs || x in DigestsOf(cfg, chunks))
    decreases |chunks|
  {
    hide StoreChunk, Twin, IsChunkDigest;
    if chunks != [] {
      var d := DigestHex(cfg, chunks[0]);
      StoreChunkTwin(cfg, keys, s, t, d, chunks[0]);
      var o, p := StoreChunk(cfg, s, d, chunks[0]), StoreChunk(cfg, t, d, chunks[0]);
      if o.Done? {
        AcceptAllTwin(cfg, keys, o.s, p.s, chunks[1..]);
        assert forall x :: x in DigestsOf(cfg, chunks) <==> x == d || x in DigestsOf(cfg, chunks[1..]);
      }
    }
  }

  lemma PublishTwin(keys: set<string>, s: State, t: State, id: string, digests: seq<string>, fileBytes: nat)
    requires Twin(keys, s, t)
    ensures var o, p := Publish(s, id, digests, fileBytes), Publish(t, id, digests, fileBytes);
            o.Done? == p.Done? && Twin(keys, o.s, p.s) && o.s.disk.blobs == s.disk.blobs
  {
    hide SaveManifest;
    SameManifests(s.disk, t.disk, id, digests, fileBytes);
  }

  /** Saving a manifest looks at the manifests only. */
  lemma SameManifests(b: Disk, b': Disk, id: string, digests: seq<string>, fileBytes: nat)
    requires b.manifests == b'.manifests && b.plan.Never? && b'.plan.Never?
    ensures var o, p := SaveManifest(b, id, digests, fileBytes), SaveManifest(b', id, digests, fileBytes);
            && o.Done? == p.Done? && o.s.manifests == p.s.manifests
            && o.s == b.(manifests := o.s.manifests) && p.s == b'.(manifests := p.s.manifests)
  {
    hide AllDigests;
  }

  lemma ReleaseOneTwin(cfg: Cfg, keys: set<string>, s: State, t: State, d: string)
    requires Twin(keys, s, t) && d !in keys
    ensures var o, p := ReleaseOne(cfg, s, d), ReleaseOne(cfg, t, d);
            && o.Done? == p.Done?
            && (o.Done? ==> Twin(keys, o.s, p.s) && SameAt(keys, s, o.s))
  {
    TwinBlobs(keys, s, t, d);
    assert ChunkSize(cfg, s, d).Done? == ChunkSize(cfg, t, d).Done?;
    var o, p := ChunkSize(cfg, s, d), ChunkSize(cfg, t, d);
    assert o.s == s && p.s == t && (o.Done? ==> o.v == p.v);
    hide ChunkSize, Decode;
    if o.Done? && d in s.refs {
      var s1, t1 := s.(refs := Decrement(s.refs, d)), t.(refs := Decrement(t.refs, d));
      SettleTwin(keys, s1, t1, d, o.v);
      hide Settle, Decrement;
    }
  }

  lemma SettleTwin(keys: set<string>, s: State, t: State, d: string, size: nat)
    requires Twin(keys, s, t) && d !in keys
    ensures var o, p := Settle(s, d, size), Settle(t, d, size);
            && o.Done? == p.Done?
            && (o.Done? ==> Twin(keys, o.s, p.s) && SameAt(keys, s, o.s))
  {
    hide IsChunkDigest, Retain, Monus;
    if d in s.refs {
      SaveRefcountTwin(keys, s, t, d, s.refs[d].count, size);
    } else {
      var s1, t1 := s.(disk := DeleteBlob(s.disk, d).s), t.(disk := DeleteBlob(t.disk, d).s);
      assert s1.disk.blobs - keys == t1.disk.blobs - keys by {
        assert s1.disk.blobs - keys == (s.disk.blobs - keys) - {d};
        assert t1.disk.blobs - keys == (t.disk.blobs - keys) - {d};
      }
      RemoveRefcountTwin(keys, s1, t1, d);
      hide RemoveRefcount;
    }
  }

  lemma RemoveRefcountTwin(keys: set<string>, s: State, t: State, d: string)
    requires Twin(keys, s, t)
    ensures var o, p := RemoveRefcount(s.disk, d), RemoveRefcount(t.disk, d);
            && o.Done? == p.Done? && Twin(keys, s.(disk := o.s), t.(disk := p.s)) && o.s.blobs == s.disk.blobs
  {
    hide Retain;
  }

  lemma {:induction false} ReleaseAllTwin(cfg: Cfg, keys: set<string>, s: State, t: State, digests: seq<string>)
    requires Twin(keys, s, t) && forall d :: d in digests ==> d !in keys
    ensures var o, p := ReleaseAll(cfg, s, digests), ReleaseAll(cfg, t, digests);
            && o.Done? == p.Done?
            && (o.Done? ==> Twin(keys, o.s, p.s) && SameAt(keys, s, o.s))
    decreases |digests|
  {
    hide ReleaseOne, Twin;
    if digests != [] {
      ReleaseOneTwin(cfg, keys, s, t, digests[0]);
      var o, p := ReleaseOne(cfg, s, digests[0]), ReleaseOne(cfg, t, digests[0]);
      if o.Done? {
        ReleaseAllTwin(cfg, keys, o.s, p.s, digests[1..]);
      }
    }
  }

  lemma CommitTwin(cfg: Cfg, keys: set<string>, s: State, t: State, id: string, digests: seq<string>, fileBytes: nat)
    requires Twin(keys, s, t) && forall d :: d in Previous(s, id) ==> d !in keys
    ensures var o, p := Commit(cfg, s, id, digests, fileBytes), Commit(cfg, t, id, digests, fileBytes);
            && o.Done? == p.Done?
            && (o.Done? ==> Twin(keys, o.s, p.s) && SameAt(keys, s, o.s))
  {
    PublishTwin(keys, s, t, id, digests, fileBytes);
    var o, p := Publish(s, id, digests, fileBytes), Publish(t, id, digests, fileBytes);
    assert Previous(s, id) == Previous(t, id);
    hide Publish, Twin, ReleaseAll;
    if o.Done? {
      ReleaseAllTwin(cfg, keys, o.s, p.s, Previous(s, id));
    }
  }
}
