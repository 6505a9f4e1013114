/** What each step does to the two families of records, whatever call fails:
    records stay decodable, and only removals can tear the backend. */
module Families {
  import opened Types
  import opened Hashing
  import opened DiskSpec
  import opened StoreSpec
  import opened Records
  import opened Invariants
  import opened ExactSteps
  import opened ExactRelease
  import opened Opening
  import opened Vault
  import opened Salvage

  // ----- Refcount records

  lemma RefcountPut(m: map<string, Doc>, m': map<string, Doc>, d: string, count: nat, size: nat)
    requires RefcountsParse(m) && IsChunkDigest(d)
    requires var put := m[d := CountSize(count, size)];
             m' == m || m' == put || m' == Appended(put, d)
    ensures RefcountsParse(m') && (AllListed(m) ==> AllListed(m'))
  {
    DigestIsNotIndex(d);
    hide IsChunkDigest;
    var put := m[d := CountSize(count, size)];
    assert IndexOf(put) == IndexOf(m);
    assert IndexOf(Appended(put, d)) == IndexOf(m) + [d];
  }

  lemma RefcountCut(m: map<string, Doc>, m': map<string, Doc>, d: string)
    requires RefcountsParse(m) && (m' == m || m' == m - {d} || m' == WithoutEntry(m, d))
    ensures RefcountsParse(m')
    ensures m' == WithoutEntry(m, d) && d != INDEX && AllListed(m) ==> AllListed(m')
  {
    RetainMembers(IndexOf(m), d);
    hide IsChunkDigest, Retain;
  }

  /** Saving a count keeps the records decodable, and tears nothing as long as a
      chunk of size zero is there. */
  lemma SaveRefcountKeeps(b: Disk, d: string, count: Pos, size: nat)
    requires RefcountsParse(b.refcounts)
    ensures var b' := SaveRefcount(b, d, count, size).s;
            && OnlyIn(b, b', Refcounts) && RefcountsParse(b'.refcounts)
            && ((size == 0 ==> d in b.blobs) && !Torn(b) ==> !Torn(b'))
  {
    if IsChunkDigest(d) {
      DigestIsNotIndex(d);
      hide IsChunkDigest, SaveEntry, RefsIn, IndexOf, Appended, RefcountsParse, AllListed;
      SaveEntryAny(b, Refcounts, d, CountSize(count, size));
      RefcountPut(b.refcounts, SaveRefcount(b, d, count, size).s.refcounts, d, count, size);
      SaveRefcountLoads(b, d, count, size);
    }
  }

  lemma RemoveRefcountKeeps(b: Disk, d: string)
    requires RefcountsParse(b.refcounts)
    ensures var b' := RemoveRefcount(b, d).s;
            OnlyIn(b, b', Refcounts) && RefcountsParse(b'.refcounts)
  {
    if d == INDEX {
      RemoveIndexEntry(b);
      hide RemoveEntry;
    } else {
      hide RemoveEntry, RefcountsParse, WithoutEntry;
      RemoveEntryAny(b, Refcounts, d);
      RefcountCut(b.refcounts, RemoveRefcount(b, d).s.refcounts, d);
    }
  }

  lemma RemoveIndexEntry(b: Disk)
    ensures var b' := RemoveRefcount(b, INDEX).s;
            && OnlyIn(b, b', Refcounts)
            && (b'.refcounts == b.refcounts || (IndexReadable(b'.refcounts) && IndexOf(b'.refcounts) == []))
  {
    assert Retain([], INDEX) == [];
  }

  // ----- Manifest records

  lemma ManifestPut(m: map<string, Doc>, m': map<string, Doc>, id: string, rec: FileRec)
    requires ManifestsParse(m) && ValidId(id) && AllDigests(rec.digests)
    requires var put := m[id := ManifestDoc(rec.digests, rec.fileBytes)];
             m' == m || m' == put || m' == Appended(put, id)
    ensures ManifestsParse(m') && (AllListed(m) ==> AllListed(m'))
  {
    hide AllDigests;
    var put := m[id := ManifestDoc(rec.digests, rec.fileBytes)];
    assert IndexOf(put) == IndexOf(m);
    assert IndexOf(Appended(put, id)) == IndexOf(m) + [id];
  }

  lemma PutFilesIn(m: map<string, Doc>, id: string, rec: FileRec)
    requires id != INDEX
    ensures var put := m[id := ManifestDoc(rec.digests, rec.fileBytes)];
            && FilesIn(put) == (if id in IndexOf(m) then FilesIn(m)[id := rec] else FilesIn(m))
            && (IndexReadable(m) ==> FilesIn(Appended(put, id)) == FilesIn(m)[id := rec])
  {
    var put := m[id := ManifestDoc(rec.digests, rec.fileBytes)];
    assert IndexOf(put) == IndexOf(m);
    assert IndexOf(Appended(put, id)) == IndexOf(m) + [id];
  }

  /** Saving a manifest lists the new version, or leaves the old one listed. */
  lemma SaveManifestKeeps(b: Disk, id: string, rec: FileRec)
    requires ManifestsParse(b.manifests) && ValidId(id)
    ensures var o := SaveManifest(b, id, rec.digests, rec.fileBytes);
            && OnlyIn(b, o.s, Manifests) && ManifestsParse(o.s.manifests)
            && (AllListed(b.manifests) ==> AllListed(o.s.manifests))
            && (|| FilesIn(o.s.manifests) == FilesIn(b.manifests)
                || FilesIn(o.s.manifests) == FilesIn(b.manifests)[id := rec])
            && (o.Done? ==> FilesIn(o.s.manifests) == FilesIn(b.manifests)[id := rec])
  {
    if AllDigests(rec.digests) {
      assert IndexReadable(b.manifests);
      hide AllDigests, SaveEntry, FilesIn, IndexOf, Appended, ManifestsParse, AllListed, IndexReadable;
      SaveEntryAny(b, Manifests, id, ManifestDoc(rec.digests, rec.fileBytes));
      ManifestPut(b.manifests, SaveManifest(b, id, rec.digests, rec.fileBytes).s.manifests, id, rec);
      PutFilesIn(b.manifests, id, rec);
    }
  }

  lemma ManifestCut(m: map<string, Doc>, m': map<string, Doc>, id: string)
    requires ManifestsParse(m) && id != INDEX && (m' == m || m' == m - {id} || m' == WithoutEntry(m, id))
    ensures ManifestsParse(m')
    ensures FilesIn(m') == (if m' == m then FilesIn(m) else FilesIn(m) - {id})
    ensures m' == WithoutEntry(m, id) && AllListed(m) ==> AllListed(m')
  {
    RetainMembers(IndexOf(m), id);
    hide AllDigests, Retain;
    assert IndexOf(m - {id}) == IndexOf(m);
  }

  /** Removing a manifest drops the file, or leaves it listed. */
  lemma RemoveManifestKeeps(b: Disk, id: string)
    requires ManifestsParse(b.manifests) && id != INDEX
    ensures var o := RemoveManifest(b, id);
            && OnlyIn(b, o.s, Manifests) && ManifestsParse(o.s.manifests)
            && (FilesIn(o.s.manifests) == FilesIn(b.manifests) || FilesIn(o.s.manifests) == FilesIn(b.manifests) - {id})
            && (o.Done? ==> FilesIn(o.s.manifests) == FilesIn(b.manifests) - {id} &&
                            (AllListed(b.manifests) ==> AllListed(o.s.manifests)))
  {
    hide RemoveEntry, FilesIn, ManifestsParse, AllListed, WithoutEntry;
    RemoveEntryAny(b, Manifests, id);
    var m' := RemoveManifest(b, id).s.manifests;
    ManifestCut(b.manifests, m', id);
    if RemoveManifest(b, id).Done? && m' == b.manifests {
      RemovedIsUnlisted(b.manifests, id);
    }
  }

  lemma RemovedIsUnlisted(m: map<string, Doc>, id: string)
    requires m == WithoutEntry(m, id) && id != INDEX
    ensures FilesIn(m) == FilesIn(m) - {id}
  {
    assert id !in m;
  }

  // ----- Steps of the store

  lemma CountStepKeeps(s: State, d: string, size: nat)
    requires RefcountsParse(s.disk.refcounts)
    ensures var t := CountStep(s, d, size).s;
            && SameFamilies(s, t) && t.disk.blobs == s.disk.blobs && RefcountsParse(t.disk.refcounts)
            && (d in s.disk.blobs && !Torn(s.disk) ==> !Torn(t.disk))
  {
    hide SaveRefcount, Torn, RefcountsParse;
    var r := StoreSpec.Increment(s.refs, d, size);
    if r.Ok? {
      SaveRefcountKeeps(s.disk, d, r.value.count, r.value.size);
    }
  }

  lemma MoreBlobsTear(b: Disk, b': Disk)
    requires b' == b.(blobs := b'.blobs, plan := b'.plan) && b.blobs.Keys <= b'.blobs.Keys
    ensures !Torn(b) ==> !Torn(b')
  {
    hide RefsIn, AllListed;
  }

  lemma StoreChunkKeeps(cfg: Cfg, s: State, d: string, data: Bytes)
    requires Parses(s.disk)
    ensures var t := StoreChunk(cfg, s, d, data).s;
            SameFamilies(s, t) && Parses(t.disk) && (!Torn(s.disk) ==> !Torn(t.disk))
  {
    if Encode(cfg, data).Some? {
      hide BlobStep, CountStep, Torn, ManifestsParse, RefcountsParse;
      var blob := Encode(cfg, data).value;
      BlobStepEffect(s, d, blob);
      var o := BlobStep(s, d, blob);
      MoreBlobsTear(s.disk, o.s.disk);
      if o.Done? {
        CountStepKeeps(o.s, d, |data|);
      }
    }
  }

  lemma {:induction false} AcceptAllKeeps(cfg: Cfg, s: State, chunks: seq<Bytes>)
    requires Parses(s.disk)
    ensures var t := AcceptAll(cfg, s, chunks).s;
            SameFamilies(s, t) && Parses(t.disk) && (!Torn(s.disk) ==> !Torn(t.disk))
    decreases |chunks|
  {
    hide StoreChunk, Torn, Parses;
    if chunks != [] {
      var d := DigestHex(cfg, chunks[0]);
      StoreChunkKeeps(cfg, s, d, chunks[0]);
      var o := StoreChunk(cfg, s, d, chunks[0]);
      if o.Done? {
        AcceptAllKeeps(cfg, o.s, chunks[1..]);
      }
    }
  }

  lemma PublishKeeps(s: State, id: string, rec: FileRec)
    requires Parses(s.disk) && ValidId(id)
    ensures var o := Publish(s, id, rec.digests, rec.fileBytes);
            var was, now := FilesIn(s.disk.manifests), FilesIn(o.s.disk.manifests);
            && Parses(o.s.disk) && (!Torn(s.disk) ==> !Torn(o.s.disk))
            && o.s == s.(files := s.files[id := rec], disk := o.s.disk) && OnlyIn(s.disk, o.s.disk, Manifests)
            && (now == was || now == was[id := rec]) && (o.Done? ==> now == was[id := rec])
  {
    hide SaveManifest, FilesIn, RefsIn, ManifestsParse, RefcountsParse, AllListed, Sizable;
    SaveManifestKeeps(s.disk, id, rec);
  }

  lemma ChunkSizeKeeps(cfg: Cfg, s: State, d: string)
    ensures ChunkSize(cfg, s, d).s == s.(disk := s.disk.(plan := ChunkSize(cfg, s, d).s.disk.plan))
  {
  }

  lemma SettleKeeps(s: State, d: string, size: nat)
    requires Parses(s.disk)
    ensures var t := Settle(s, d, size).s;
            SameFamilies(s, t) && Parses(t.disk)
  {
    hide SaveRefcount, RemoveRefcount, Torn, RefcountsParse, ManifestsParse, Monus;
    if d in s.refs {
      SaveRefcountKeeps(s.disk, d, s.refs[d].count, size);
    } else {
      var o := DeleteBlob(s.disk, d);
      if o.Done? {
        RemoveRefcountKeeps(o.s, d);
      }
    }
  }

  lemma ReleaseOneKeeps(cfg: Cfg, s: State, d: string)
    requires Parses(s.disk)
    ensures var t := ReleaseOne(cfg, s, d).s;
            SameFamilies(s, t) && Parses(t.disk)
  {
    hide ChunkSize, Settle, Parses;
    ChunkSizeKeeps(cfg, s, d);
    var o := ChunkSize(cfg, s, d);
    SamePlanned(s.disk, o.s.disk);
    if o.Done? && d in o.s.refs {
      SettleKeeps(o.s.(refs := Decrement(o.s.refs, d)), d, o.v);
    }
  }

  lemma {:induction false} ReleaseAllKeeps(cfg: Cfg, s: State, digests: seq<string>)
    requires Parses(s.disk)
    ensures var t := ReleaseAll(cfg, s, digests).s;
            SameFamilies(s, t) && Parses(t.disk)
    decreases |digests|
  {
    hide ReleaseOne, Parses;
    if digests != [] {
      ReleaseOneKeeps(cfg, s, digests[0]);
      var o := ReleaseOne(cfg, s, digests[0]);
      if o.Done? {
        ReleaseAllKeeps(cfg, o.s, digests[1..]);
      }
    }
  }
}
