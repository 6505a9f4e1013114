/** Backends that a stopped process may leave behind, and what `open` makes of
    them. */
module Salvage {
  import opened Types
  import opened Hashing
  import opened DiskSpec
  import opened StoreSpec
  import opened Counting
  import opened Records
  import opened Invariants
  import opened Refinement
  import opened Opening
  import opened Reopen
  import opened Vault

  /** Every listed record is there. */
  ghost predicate AllListed(m: map<string, Doc>) {
    forall x :: x in IndexOf(m) ==> x in m
  }

  /** Some listed record is missing, or the blob of a counted chunk of unknown
      size is. */
  ghost predicate Torn(b: Disk) {
    !AllListed(b.manifests) || !AllListed(b.refcounts) || !Sizable(RefsIn(b.refcounts), b.blobs)
  }

  /** The listed manifests that are there can be decoded. */
  ghost predicate ManifestsParse(m: map<string, Doc>) {
    && IndexReadable(m)
    && forall f :: f in IndexOf(m) ==> f != "" && (f in m ==> m[f].ManifestDoc? && AllDigests(m[f].digests))
  }

  /** The listed refcounts that are there can be decoded. */
  ghost predicate RefcountsParse(m: map<string, Doc>) {
    && IndexReadable(m)
    && forall d :: d in IndexOf(m) ==> IsChunkDigest(d) && (d in m ==> ParseRefcount(m[d]).Some?)
  }

  ghost predicate Parses(b: Disk) {
    ManifestsParse(b.manifests) && RefcountsParse(b.refcounts)
  }

  /** What there is on the backend belongs to these files: it can be decoded, the
      chunks that the files name are there, and the counts cover them. */
  ghost predicate Salvageable(cfg: Cfg, b: Disk, files: map<string, FileRec>) {
    && Parses(b) && FilesIn(b.manifests) == files
    && BlobsGood(cfg, b.blobs) && AllThere(AllRefs(files), b.blobs)
    && Tabled(cfg, RefsIn(b.refcounts), AllRefs(files))
  }

  /** A store whose memory is in step with a backend that is not torn. The counts
      in memory and on the backend cover the files, and may exceed them, each in
      its own way: this is all that is left after calls that failed and
      processes that stopped. */
  ghost predicate InStep(cfg: Cfg, s: State) {
    && Salvageable(cfg, s.disk, s.files) && !Torn(s.disk)
    && Tabled(cfg, s.refs, AllRefs(s.files))
  }

  lemma InStepIsGuarded(cfg: Cfg, s: State)
    requires InStep(cfg, s)
    ensures Guarded(cfg, s, AllRefs(s.files)) && Parses(s.disk) && FilesIn(s.disk.manifests) == s.files
  {
  }

  lemma GuardedIsInStep(cfg: Cfg, s: State, held: multiset<string>)
    requires Guarded(cfg, s, held) && AllRefs(s.files) <= held
    requires Parses(s.disk) && FilesIn(s.disk.manifests) == s.files
    ensures Salvageable(cfg, s.disk, s.files)
    ensures !Torn(s.disk) ==> InStep(cfg, s)
  {
    GuardedLess(cfg, s, held, AllRefs(s.files));
    hide AllRefs, Tabled, AllThere, BlobsGood, FilesIn, RefsIn, Torn, Parses;
  }

  /** The backend of a guarded store belongs to the files it lists, if the
      holdings cover them. */
  lemma GuardedIsSalvageable(cfg: Cfg, s: State, held: multiset<string>, files: map<string, FileRec>)
    requires Guarded(cfg, s, held) && AllRefs(files) <= held
    requires Parses(s.disk) && FilesIn(s.disk.manifests) == files
    ensures Salvageable(cfg, s.disk, files)
  {
    GuardedLess(cfg, s, held, AllRefs(files));
    hide AllRefs, Tabled, AllThere, BlobsGood, FilesIn, RefsIn, Parses;
  }

  /** None of this depends on which calls will fail. */
  lemma SamePlanned(b: Disk, b': Disk)
    requires b' == b.(plan := b'.plan)
    ensures Torn(b) == Torn(b') && Parses(b) == Parses(b')
    ensures forall cfg, files :: Salvageable(cfg, b, files) == Salvageable(cfg, b', files)
  {
    hide AllListed, Sizable, RefsIn, FilesIn, ManifestsParse, RefcountsParse, BlobsGood, AllThere, Tabled;
  }

  lemma LoadableParses(b: Disk)
    requires Loadable(b)
    ensures Parses(b) && AllListed(b.manifests) && AllListed(b.refcounts)
  {
    hide IsChunkDigest, AllDigests, IndexOf;
  }

  /** What is listed loads, as long as it is all there. */
  lemma WholeLoads(b: Disk)
    requires Parses(b)
    ensures AllListed(b.manifests) ==> FilesLoadable(b.manifests, IndexOf(b.manifests))
    ensures AllListed(b.refcounts) ==> RefsLoadable(b.refcounts, IndexOf(b.refcounts))
  {
    hide IsChunkDigest, AllDigests;
    var files, refs := IndexOf(b.manifests), IndexOf(b.refcounts);
    hide IndexOf;
    assert forall i :: 0 <= i < |files| ==> files[i] in files;
    assert forall i :: 0 <= i < |refs| ==> refs[i] in refs;
  }

  // ----- Opening

  /** One listed manifest without a record stops loading altogether. */
  lemma {:induction false} LoadFilesStops(b: Disk, ids: seq<string>, files: map<string, FileRec>, id: string)
    requires b.plan.Never? && id in ids && id !in b.manifests
    ensures LoadFiles(b, ids, files).Fail?
    decreases |ids|
  {
    hide AllDigests;
    if ids[0] != id && ids[0] in b.manifests && b.manifests[ids[0]].ManifestDoc? {
      var doc := b.manifests[ids[0]];
      LoadFilesStops(b, ids[1..], files[ids[0] := FileRec(doc.digests, doc.fileBytes)], id);
    }
  }

  /** So does one listed refcount without a record. */
  lemma {:induction false} LoadRefsStops(b: Disk, ids: seq<string>, refs: map<string, ChunkRef>, d: string)
    requires b.plan.Never? && d in ids && d !in b.refcounts
    ensures LoadRefs(b, ids, refs).Fail?
    decreases |ids|
  {
    hide IsChunkDigest, SetRef;
    if ids[0] != d && IsChunkDigest(ids[0]) && ids[0] in b.refcounts && ParseRefcount(b.refcounts[ids[0]]).Some? {
      LoadRefsStops(b, ids[1..], WithRef(b.refcounts[ids[0]], refs, ids[0]), d);
    }
  }

  lemma MissingManifestStopsOpen(cfg: Cfg, b: Disk, f: string, stale: seq<string>, order: seq<string>)
    requires b.plan.Never? && IndexReadable(b.manifests) && f in IndexOf(b.manifests) && f !in b.manifests
    ensures Open(cfg, b, stale, order).Fail?
  {
    hide LoadRefcounts, Backfill, RebuildStats;
    LoadFilesStops(b, IndexOf(b.manifests), map[], f);
  }

  lemma MissingRefcountStopsOpen(cfg: Cfg, b: Disk, d: string, stale: seq<string>, order: seq<string>)
    requires b.plan.Never? && IndexReadable(b.manifests) && FilesLoadable(b.manifests, IndexOf(b.manifests))
    requires IndexReadable(b.refcounts) && d in IndexOf(b.refcounts) && d !in b.refcounts
    ensures Open(cfg, b, stale, order).Fail?
  {
    LoadFilesResult(b, IndexOf(b.manifests), map[]);
    LoadRefsStops(b, IndexOf(b.refcounts), map[], d);
    hide Backfill, RebuildStats, FilesLoadable, LoadFiles, LoadRefs;
  }

  lemma TornStopsOpen(cfg: Cfg, b: Disk, stale: seq<string>, order: seq<string>)
    requires b.plan.Never? && Parses(b) && Torn(b)
    requires IsStaleListing(stale, RefsIn(b.refcounts)) && IsListing(order, RefsIn(b.refcounts).Keys)
    ensures Open(cfg, b, stale, order).Fail?
  {
    WholeLoads(b);
    hide IsStaleListing, IsListing, Open, RefsIn, FilesLoadable, RefsLoadable, IndexOf;
    if f :| f in IndexOf(b.manifests) && f !in b.manifests {
      MissingManifestStopsOpen(cfg, b, f, stale, order);
    } else if d :| d in IndexOf(b.refcounts) && d !in b.refcounts {
      MissingRefcountStopsOpen(cfg, b, d, stale, order);
    } else {
      OpensIffSizable(cfg, b, stale, order);
    }
  }

  /** The store `t` holds these files, reads every one of them, and counts at
      least the references they make. */
  ghost predicate Serves(cfg: Cfg, t: State, files: map<string, FileRec>) {
    && t.files == files
    && Covers(files, t.refs, multiset{})
    && forall f :: f in files ==> Read(cfg, t, f) == Done(t, Meaning(cfg, files[f].digests))
  }

  lemma InStepReads(cfg: Cfg, t: State, f: string)
    requires t.disk.plan.Never? && InStep(cfg, t) && f in t.files
    ensures Read(cfg, t, f) == Done(t, Meaning(cfg, t.files[f].digests))
  {
    InStepIsGuarded(cfg, t);
    assert BlobsGood(cfg, t.disk.blobs);
    hide InStep, Guarded, BlobsGood, IsChunkDigest, ReadTo, Meaning, Known, Parses, FilesIn;
    var digests := t.files[f].digests;
    forall i | 0 <= i < |digests| ensures Known(cfg, digests[i]) && digests[i] in t.disk.blobs {
      AllRefsMember(t.files, f, digests[i]);
      HeldIsCounted(cfg, t, AllRefs(t.files), digests[i]);
    }
    ReadToExact(cfg, t.disk, digests, []);
    assert [] + Meaning(cfg, digests) == Meaning(cfg, digests);
  }

  lemma InStepServes(cfg: Cfg, t: State)
    requires t.disk.plan.Never? && InStep(cfg, t)
    ensures Serves(cfg, t, t.files)
  {
    assert Covers(t.files, t.refs, multiset{}) by { TabledCovers(cfg, t.files, t.refs); }
    hide InStep, Read, Covers, Meaning;
    forall f | f in t.files ensures Read(cfg, t, f) == Done(t, Meaning(cfg, t.files[f].digests)) {
      InStepReads(cfg, t, f);
    }
  }

  lemma TabledCovers(cfg: Cfg, files: map<string, FileRec>, refs: map<string, ChunkRef>)
    requires Tabled(cfg, refs, AllRefs(files))
    ensures Covers(files, refs, multiset{})
  {
    hide AllRefs, RefsKnown;
  }

  /** Measuring unknown sizes keeps the counts and fits the payloads. */
  lemma FilledTabled(cfg: Cfg, refs: map<string, ChunkRef>, blobs: map<string, Bytes>, held: multiset<string>)
    requires Tabled(cfg, refs, held)
    ensures Tabled(cfg, Filled(refs, blobs), held)
  {
    hide Known;
    assert forall d :: Count(Filled(refs, blobs), d) == Count(refs, d);
  }

  lemma WholeIsLoadable(b: Disk)
    requires Parses(b) && !Torn(b) && b.plan.Never?
    ensures Loadable(b) && Sizable(RefsIn(b.refcounts), b.blobs)
  {
    WholeLoads(b);
    hide FilesLoadable, RefsLoadable, Sizable, RefsIn, AllListed;
  }

  lemma OpenedInStep(cfg: Cfg, b: Disk, files: map<string, FileRec>)
    requires Salvageable(cfg, b, files) && !Torn(b) && b.plan.Never?
    ensures InStep(cfg, Opened(b)) && Opened(b).files == files
  {
    WholeIsLoadable(b);
    FilledTabled(cfg, RefsIn(b.refcounts), b.blobs, AllRefs(files));
    hide RefsIn, FilesIn, Filled, FilledDocs, Tabled, BlobsGood, AllThere, AllRefs, TotalBytes, StoredBytes;
    hide Torn, Parses, Sizable;
    FilledAgain(b);
    LoadedIsWhole(Opened(b).disk);
    hide Loadable;
  }

  lemma LoadedIsWhole(b: Disk)
    requires Loadable(b) && Sizable(RefsIn(b.refcounts), b.blobs)
    ensures Parses(b) && !Torn(b)
  {
    LoadableParses(b);
    hide Loadable, Parses, AllListed, RefsIn, Sizable;
  }

  /** A backend that holds what belongs to some files opens exactly when it is
      not torn. The store it gives is in step and serves those files. */
  lemma SalvageableOpens(cfg: Cfg, b: Disk, files: map<string, FileRec>, stale: seq<string>, order: seq<string>)
    requires Salvageable(cfg, b, files) && b.plan.Never?
    requires IsStaleListing(stale, RefsIn(b.refcounts)) && IsListing(order, RefsIn(b.refcounts).Keys)
    ensures var o := Open(cfg, b, stale, order);
            && (o.Done? <==> !Torn(b))
            && (o.Done? ==> InStep(cfg, o.v) && Serves(cfg, o.v, files))
  {
    assert Parses(b);
    if Torn(b) {
      TornStopsOpen(cfg, b, stale, order);
    } else {
      WholeIsLoadable(b);
      OpenedInStep(cfg, b, files);
      InStepServes(cfg, Opened(b));
      hide *;
      OpenResult(cfg, b, stale, order);
      OpenedPlan(b);
    }
  }

  lemma OpenedPlan(b: Disk)
    ensures Opened(b).disk.plan == b.plan
  {
    hide FilledDocs, Filled, TotalBytes, StoredBytes;
  }

  /** An exact store counts what it holds. */
  lemma ConsistentIsGuarded(cfg: Cfg, s: State, pending: multiset<string>)
    requires Consistent(cfg, s, pending)
    ensures Guarded(cfg, s, AllRefs(s.files) + pending) && Parses(s.disk) && !Torn(s.disk)
    ensures FilesIn(s.disk.manifests) == s.files
  {
    ConsistentLoads(cfg, s, pending);
    LoadedIsWhole(s.disk.(plan := Never));
    SamePlanned(s.disk, s.disk.(plan := Never));
    HeldExactly(s.files, s.refs, pending);
    hide Loadable, Sizable, RefsIn, FilesIn, Tabled, AllThere, AllRefs, Persisted, Parses, Torn, Backed, Counted;
    TabledExactly(cfg, s.refs, s.disk.blobs, AllRefs(s.files) + pending);
  }

  /** A store between failure-free operations is in step, and so is one within an
      operation that holds references. */
  lemma ConsistentIsInStep(cfg: Cfg, s: State, pending: multiset<string>)
    requires Consistent(cfg, s, pending)
    ensures InStep(cfg, s)
  {
    ConsistentIsGuarded(cfg, s, pending);
    hide Guarded, Consistent, FilesIn, Torn, Parses, AllRefs;
    GuardedIsInStep(cfg, s, AllRefs(s.files) + pending);
  }

  lemma HeldExactly(files: map<string, FileRec>, refs: map<string, ChunkRef>, pending: multiset<string>)
    requires Counted(files, refs, pending)
    ensures forall d :: (AllRefs(files) + pending)[d] + multiset{}[d] == Count(refs, d)
  {
    hide AllRefs;
  }
}
