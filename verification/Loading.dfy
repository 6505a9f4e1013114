/** What `open` makes of the documents on a backend, record by record, and when
    and how it refuses them. */
module Loading {
  import opened Types
  import opened Hashing
  import opened DiskSpec
  import opened StoreSpec
  import opened Counting
  import opened Records
  import opened Opening

  // ----- Well-formed documents

  ghost predicate FileReads(m: map<string, Doc>, f: string) {
    && f in m && m[f].ManifestDoc?
    && f != "" && forall i :: 0 <= i < |m[f].digests| ==> IsChunkDigest(m[f].digests[i])
  }

  /** A count is a bare number, in the legacy form, or a number with a size. */
  ghost predicate CountReads(m: map<string, Doc>, d: string) {
    IsChunkDigest(d) && d in m && (m[d].LegacyCount? || m[d].CountSize?)
  }

  ghost function CountAt(m: map<string, Doc>, d: string): nat
    requires CountReads(m, d)
  {
    match m[d]
    case LegacyCount(c) => c
    case CountSize(c, _) => c
  }

  /** The size is not recorded: the legacy form has none, and zero says nothing. */
  ghost predicate SizeUnknown(m: map<string, Doc>, d: string)
    requires CountReads(m, d)
  {
    m[d].LegacyCount? || m[d].size == 0
  }

  ghost predicate IndexReads(m: map<string, Doc>) {
    INDEX in m ==> m[INDEX].List?
  }

  ghost predicate ManifestsRead(m: map<string, Doc>) {
    IndexReads(m) && forall i :: 0 <= i < |IndexOf(m)| ==> FileReads(m, IndexOf(m)[i])
  }

  ghost predicate CountsRead(m: map<string, Doc>) {
    IndexReads(m) && forall i :: 0 <= i < |IndexOf(m)| ==> CountReads(m, IndexOf(m)[i])
  }

  /** Listed, with a positive count. */
  ghost predicate Live(m: map<string, Doc>, d: string) {
    d in IndexOf(m) && CountReads(m, d) && CountAt(m, d) > 0
  }

  /** Every live chunk of unknown size has its blob. */
  ghost predicate SizesFound(b: Disk) {
    forall d :: Live(b.refcounts, d) && SizeUnknown(b.refcounts, d) ==> d in b.blobs
  }

  ghost predicate WellFormed(b: Disk) {
    ManifestsRead(b.manifests) && CountsRead(b.refcounts)
  }

  /** Iteration orders of the live entries: of all, and of those of unknown size. */
  ghost predicate VisitsLive(m: map<string, Doc>, order: seq<string>) {
    NoDup(order) && forall d :: d in order <==> Live(m, d)
  }

  ghost predicate VisitsUnknown(m: map<string, Doc>, order: seq<string>) {
    NoDup(order) && forall d :: d in order <==> Live(m, d) && SizeUnknown(m, d)
  }

  // ----- The table, read through the specification

  /** A listed count is loaded as its document says. */
  lemma LoadedCount(m: map<string, Doc>, d: string)
    requires d in IndexOf(m) ==> IsChunkDigest(d)
    ensures d in RefsIn(m) <==> Live(m, d)
    ensures d in RefsIn(m) ==>
              RefsIn(m)[d] == ChunkRef(CountAt(m, d), if m[d].LegacyCount? then 0 else m[d].size)
  {
    hide IndexOf, IsChunkDigest;
  }

  lemma WellFormedIsLoadable(b: Disk)
    requires b.plan.Never?
    ensures WellFormed(b) <==> Loadable(b)
  {
    hide IsChunkDigest, IndexOf;
  }

  lemma LoadedCounts(m: map<string, Doc>)
    requires CountsRead(m)
    ensures forall d :: d in RefsIn(m) <==> Live(m, d)
    ensures forall d :: d in RefsIn(m) ==> (RefsIn(m)[d].size == 0 <==> SizeUnknown(m, d))
  {
    hide RefsIn, IsChunkDigest, IndexOf;
    forall d
      ensures d in RefsIn(m) <==> Live(m, d)
      ensures d in RefsIn(m) ==> (RefsIn(m)[d].size == 0 <==> SizeUnknown(m, d))
    {
      assert d in IndexOf(m) ==> IsChunkDigest(d);
      LoadedCount(m, d);
    }
  }

  lemma OrdersFit(m: map<string, Doc>, stale: seq<string>, order: seq<string>)
    requires CountsRead(m) && VisitsUnknown(m, stale) && VisitsLive(m, order)
    ensures IsStaleListing(stale, RefsIn(m)) && IsListing(order, RefsIn(m).Keys)
  {
    LoadedCounts(m);
    hide RefsIn, Live, SizeUnknown, CountsRead, NoDup;
    assert forall d :: d in RefsIn(m).Keys <==> d in RefsIn(m);
  }

  // ----- What is loaded

  /** The store that opening gives, document by document. The files are those
      listed, as recorded. The counts are those listed that are positive, in the
      legacy form or not; the size is the recorded one, or the length of the blob
      when none is recorded. Nothing else is in the tables, and nothing but
      records of counts is rewritten. */
  lemma OpenedTable(cfg: Cfg, b: Disk, stale: seq<string>, order: seq<string>)
    requires b.plan.Never? && WellFormed(b) && SizesFound(b)
    requires VisitsUnknown(b.refcounts, stale) && VisitsLive(b.refcounts, order)
    ensures var o := Open(cfg, b, stale, order);
            && o.Done? && o.v.disk == o.s && o.s == b.(refcounts := o.s.refcounts)
            && (forall f :: f in o.v.files <==> f in IndexOf(b.manifests))
            && (forall f :: f in o.v.files ==>
                  f in b.manifests && b.manifests[f] == ManifestDoc(o.v.files[f].digests, o.v.files[f].fileBytes))
            && (forall d :: d in o.v.refs <==> Live(b.refcounts, d))
            && (forall d :: d in o.v.refs ==>
                  o.v.refs[d] == ChunkRef(CountAt(b.refcounts, d),
                                          if SizeUnknown(b.refcounts, d) then |b.blobs[d]| else b.refcounts[d].size))
  {
    WellFormedIsLoadable(b);
    OrdersFit(b.refcounts, stale, order);
    LoadedCounts(b.refcounts);
    SizesAreFound(b);
    hide Open, IsStaleListing, IsListing, RefsIn, VisitsLive, VisitsUnknown, TotalBytes, StoredBytes, FilledDocs;
    OpenResult(cfg, b, stale, order);
    hide Loadable;
    ListedFiles(b.manifests);
    hide FilesIn, ManifestsRead;
    forall d | d in Opened(b).refs
      ensures Opened(b).refs[d] == ChunkRef(CountAt(b.refcounts, d),
                                            if SizeUnknown(b.refcounts, d) then |b.blobs[d]| else b.refcounts[d].size)
    {
      LoadedCount(b.refcounts, d);
    }
  }

  lemma SizesAreFound(b: Disk)
    requires CountsRead(b.refcounts)
    ensures SizesFound(b) <==> Sizable(RefsIn(b.refcounts), b.blobs)
  {
    LoadedCounts(b.refcounts);
    hide RefsIn, Live, SizeUnknown, CountsRead;
  }

  lemma ListedFiles(m: map<string, Doc>)
    requires ManifestsRead(m)
    ensures forall f :: f in FilesIn(m) <==> f in IndexOf(m)
    ensures forall f :: f in FilesIn(m) ==>
              f in m && m[f] == ManifestDoc(FilesIn(m)[f].digests, FilesIn(m)[f].fileBytes)
  {
    hide IsChunkDigest, IndexOf;
  }

  // ----- What is refused

  /** The first listed name that the family has no readable record for. */
  ghost predicate FirstUnreadFile(m: map<string, Doc>, ids: seq<string>, k: nat) {
    k < |ids| && !FileReads(m, ids[k]) && forall i :: 0 <= i < k ==> FileReads(m, ids[i])
  }

  ghost predicate FirstUnreadCount(m: map<string, Doc>, ids: seq<string>, k: nat) {
    k < |ids| && !CountReads(m, ids[k]) && forall i :: 0 <= i < k ==> CountReads(m, ids[i])
  }

  lemma {:induction false} LoadFilesStop(b: Disk, ids: seq<string>, files: map<string, FileRec>, k: nat)
    requires b.plan.Never? && FirstUnreadFile(b.manifests, ids, k)
    ensures LoadFiles(b, ids, files) ==
            Fail(b, if ids[k] in b.manifests && b.manifests[ids[k]].ManifestDoc? then InvalidArgument else Corrupt)
    decreases k
  {
    hide IsChunkDigest;
    if k > 0 {
      assert FileReads(b.manifests, ids[0]);
      var doc := b.manifests[ids[0]];
      LoadFilesStop(b, ids[1..], files[ids[0] := FileRec(doc.digests, doc.fileBytes)], k - 1);
    }
  }

  lemma {:induction false} LoadRefsStop(b: Disk, ids: seq<string>, refs: map<string, ChunkRef>, k: nat)
    requires b.plan.Never? && FirstUnreadCount(b.refcounts, ids, k)
    ensures LoadRefs(b, ids, refs) == Fail(b, if IsChunkDigest(ids[k]) then Corrupt else InvalidArgument)
    decreases k
  {
    hide IsChunkDigest, SetRef;
    if k > 0 {
      assert CountReads(b.refcounts, ids[0]);
      var (count, size) := ParseRefcount(b.refcounts[ids[0]]).value;
      LoadRefsStop(b, ids[1..], if count > 0 then SetRef(refs, ids[0], count, size) else refs, k - 1);
    }
  }

  lemma {:induction false} SomeUnreadFile(m: map<string, Doc>, ids: seq<string>) returns (k: nat)
    requires exists i :: 0 <= i < |ids| && !FileReads(m, ids[i])
    ensures FirstUnreadFile(m, ids, k)
    decreases |ids|
  {
    hide FileReads;
    if FileReads(m, ids[0]) {
      var i :| 0 <= i < |ids| && !FileReads(m, ids[i]);
      assert !FileReads(m, ids[1..][i - 1]);
      var j := SomeUnreadFile(m, ids[1..]);
      k := j + 1;
      assert forall i :: 0 < i < k ==> ids[i] == ids[1..][i - 1];
    } else {
      k := 0;
    }
  }

  lemma {:induction false} SomeUnreadCount(m: map<string, Doc>, ids: seq<string>) returns (k: nat)
    requires exists i :: 0 <= i < |ids| && !CountReads(m, ids[i])
    ensures FirstUnreadCount(m, ids, k)
    decreases |ids|
  {
    hide CountReads;
    if CountReads(m, ids[0]) {
      var i :| 0 <= i < |ids| && !CountReads(m, ids[i]);
      assert !CountReads(m, ids[1..][i - 1]);
      var j := SomeUnreadCount(m, ids[1..]);
      k := j + 1;
      assert forall i :: 0 < i < k ==> ids[i] == ids[1..][i - 1];
    } else {
      k := 0;
    }
  }

  /** The tables are loaded before anything else is looked at. */
  lemma OpenStops(cfg: Cfg, b: Disk, stale: seq<string>, order: seq<string>)
    ensures LoadManifests(b).Fail? ==> Open(cfg, b, stale, order) == Fail(LoadManifests(b).s, LoadManifests(b).e)
    ensures LoadManifests(b).Done? ==>
              var o := LoadRefcounts(LoadManifests(b).s);
              o.Fail? ==> Open(cfg, b, stale, order) == Fail(o.s, o.e)
  {
    hide LoadManifests, LoadRefcounts, Backfill, RebuildStats;
  }

  lemma ManifestsLoad(b: Disk)
    requires b.plan.Never? && ManifestsRead(b.manifests)
    ensures LoadManifests(b).Done? && LoadManifests(b).s == b
  {
    hide IsChunkDigest, FilesAmong;
    LoadFilesResult(b, IndexOf(b.manifests), map[]);
  }

  /** How a backend that is not well formed is refused, with nothing changed: the
      manifests come first, then the counts, each family in the order of its
      index. */
  lemma OpenRefuses(cfg: Cfg, b: Disk, stale: seq<string>, order: seq<string>)
    requires b.plan.Never?
    ensures !IndexReads(b.manifests) ==> Open(cfg, b, stale, order) == Fail(b, Corrupt)
    ensures forall k: nat :: IndexReads(b.manifests) && FirstUnreadFile(b.manifests, IndexOf(b.manifests), k) ==>
              var f := IndexOf(b.manifests)[k];
              Open(cfg, b, stale, order) ==
              Fail(b, if f in b.manifests && b.manifests[f].ManifestDoc? then InvalidArgument else Corrupt)
    ensures ManifestsRead(b.manifests) && !IndexReads(b.refcounts) ==> Open(cfg, b, stale, order) == Fail(b, Corrupt)
    ensures forall k: nat :: (&& ManifestsRead(b.manifests) && IndexReads(b.refcounts)
                              && FirstUnreadCount(b.refcounts, IndexOf(b.refcounts), k)) ==>
              Open(cfg, b, stale, order) ==
              Fail(b, if IsChunkDigest(IndexOf(b.refcounts)[k]) then Corrupt else InvalidArgument)
  {
    OpenStops(cfg, b, stale, order);
    hide Open, IsChunkDigest, LoadFiles, LoadRefs, FileReads, CountReads;
    if ManifestsRead(b.manifests) {
      ManifestsLoad(b);
    }
    forall k: nat | IndexReads(b.manifests) && FirstUnreadFile(b.manifests, IndexOf(b.manifests), k)
      ensures var f := IndexOf(b.manifests)[k];
              LoadManifests(b) ==
              Fail(b, if f in b.manifests && b.manifests[f].ManifestDoc? then InvalidArgument else Corrupt)
    {
      LoadFilesStop(b, IndexOf(b.manifests), map[], k);
    }
    forall k: nat | IndexReads(b.refcounts) && FirstUnreadCount(b.refcounts, IndexOf(b.refcounts), k)
      ensures LoadRefcounts(b) == Fail(b, if IsChunkDigest(IndexOf(b.refcounts)[k]) then Corrupt else InvalidArgument)
    {
      LoadRefsStop(b, IndexOf(b.refcounts), map[], k);
    }
  }

  /** On a backend that does not fail, `open` succeeds if and only if both indexes
      and all listed records are well formed and every size can be found; a size
      that cannot be found is refused with NotFound. */
  lemma OpensIff(cfg: Cfg, b: Disk, stale: seq<string>, order: seq<string>)
    requires b.plan.Never?
    requires VisitsUnknown(b.refcounts, stale) && VisitsLive(b.refcounts, order)
    ensures Open(cfg, b, stale, order).Done? <==> WellFormed(b) && SizesFound(b)
    ensures WellFormed(b) && !SizesFound(b) ==>
              Open(cfg, b, stale, order).Fail? && Open(cfg, b, stale, order).e == NotFound
  {
    WellFormedIsLoadable(b);
    OpenRefuses(cfg, b, stale, order);
    hide Open, FileReads, CountReads, SizesFound, Loadable, RefsIn, VisitsUnknown, VisitsLive, IsStaleListing;
    hide IsListing;
    if WellFormed(b) {
      OrdersFit(b.refcounts, stale, order);
      SizesAreFound(b);
      OpensIffSizable(cfg, b, stale, order);
    } else if ManifestsRead(b.manifests) && IndexReads(b.refcounts) {
      var k := SomeUnreadCount(b.refcounts, IndexOf(b.refcounts));
    } else if IndexReads(b.manifests) && !ManifestsRead(b.manifests) {
      var k := SomeUnreadFile(b.manifests, IndexOf(b.manifests));
    }
  }
}
