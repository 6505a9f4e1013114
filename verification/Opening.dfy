/** What `open` reconstructs from a backend: the listed records, with unknown
    sizes measured on the blobs, and totals summed over them. */
module Opening {
  import opened Types
  import opened Hashing
  import opened DiskSpec
  import opened StoreSpec
  import opened Counting
  import opened Records

  // ----- Manifests

  ghost function RecordOf(doc: Doc): FileRec
    requires doc.ManifestDoc?
  {
    FileRec(doc.digests, doc.fileBytes)
  }

  ghost function FilesAmong(m: map<string, Doc>, ids: seq<string>): map<string, FileRec> {
    map f | f in ids && f in m && m[f].ManifestDoc? :: ListedFile(m, ids, f)
  }

  ghost function ListedFile(m: map<string, Doc>, ids: seq<string>, f: string): FileRec
    requires f in ids && f in m && m[f].ManifestDoc?
  {
    RecordOf(m[f])
  }

  /** The manifests that the index lists. */
  ghost function FilesIn(m: map<string, Doc>): map<string, FileRec> {
    FilesAmong(m, IndexOf(m))
  }

  ghost predicate FilesLoadable(m: map<string, Doc>, ids: seq<string>) {
    forall i :: 0 <= i < |ids| ==>
      && ids[i] != "" && ids[i] in m
      && m[ids[i]].ManifestDoc? && AllDigests(m[ids[i]].digests)
  }

  lemma FilesAmongCons(m: map<string, Doc>, ids: seq<string>, files: map<string, FileRec>)
    requires ids != [] && ids[0] in m && m[ids[0]].ManifestDoc?
    ensures files[ids[0] := FileRec(m[ids[0]].digests, m[ids[0]].fileBytes)] + FilesAmong(m, ids[1..]) ==
            files + FilesAmong(m, ids)
  {
    assert ids == [ids[0]] + ids[1..];
  }

  lemma {:induction false} LoadFilesResult(b: Disk, ids: seq<string>, files: map<string, FileRec>)
    requires b.plan.Never? && FilesLoadable(b.manifests, ids)
    ensures LoadFiles(b, ids, files) == Done(b, files + FilesAmong(b.manifests, ids))
    decreases |ids|
  {
    if ids == [] {
      assert files + FilesAmong(b.manifests, ids) == files;
    } else {
      hide AllDigests, FilesAmong;
      FilesAmongCons(b.manifests, ids, files);
      var doc := b.manifests[ids[0]];
      LoadFilesResult(b, ids[1..], files[ids[0] := FileRec(doc.digests, doc.fileBytes)]);
    }
  }

  // ----- Reference counts

  ghost predicate Counts(doc: Doc) {
    ParseRefcount(doc).Some? && ParseRefcount(doc).value.0 > 0
  }

  ghost function RefOf(doc: Doc): ChunkRef
    requires Counts(doc)
  {
    ChunkRef(ParseRefcount(doc).value.0, ParseRefcount(doc).value.1)
  }

  ghost function RefsAmong(m: map<string, Doc>, ids: seq<string>): map<string, ChunkRef> {
    map d | d in ids && d in m && Counts(m[d]) :: ListedRef(m, ids, d)
  }

  ghost function ListedRef(m: map<string, Doc>, ids: seq<string>, d: string): ChunkRef
    requires d in ids && d in m && Counts(m[d])
  {
    RefOf(m[d])
  }

  /** The positive counts that the index lists. */
  ghost function RefsIn(m: map<string, Doc>): map<string, ChunkRef> {
    RefsAmong(m, IndexOf(m))
  }

  ghost predicate RefsLoadable(m: map<string, Doc>, ids: seq<string>) {
    forall i :: 0 <= i < |ids| ==> IsChunkDigest(ids[i]) && ids[i] in m && ParseRefcount(m[ids[i]]).Some?
  }

  function WithRef(doc: Doc, refs: map<string, ChunkRef>, d: string): map<string, ChunkRef>
    requires ParseRefcount(doc).Some?
  {
    var (count, size) := ParseRefcount(doc).value;
    if count > 0 then SetRef(refs, d, count, size) else refs
  }

  lemma RefsAmongCons(m: map<string, Doc>, ids: seq<string>, refs: map<string, ChunkRef>)
    requires ids != [] && ids[0] in m && ParseRefcount(m[ids[0]]).Some?
    ensures WithRef(m[ids[0]], refs, ids[0]) + RefsAmong(m, ids[1..]) == refs + RefsAmong(m, ids)
  {
    var d := ids[0];
    var next := WithRef(m[d], refs, d);
    assert next == if Counts(m[d]) then refs[d := RefOf(m[d])] else refs;
    hide Counts, RefOf, WithRef, ParseRefcount;
    assert ids == [d] + ids[1..];
    if Counts(m[d]) {
      assert RefsAmong(m, ids) == RefsAmong(m, ids[1..])[d := RefOf(m[d])];
    } else {
      assert RefsAmong(m, ids) == RefsAmong(m, ids[1..]);
    }
  }

  lemma {:induction false} LoadRefsResult(b: Disk, ids: seq<string>, refs: map<string, ChunkRef>)
    requires b.plan.Never? && RefsLoadable(b.refcounts, ids)
    ensures LoadRefs(b, ids, refs) == Done(b, refs + RefsAmong(b.refcounts, ids))
    decreases |ids|
  {
    if ids == [] {
      assert refs + RefsAmong(b.refcounts, ids) == refs;
    } else {
      hide IsChunkDigest, RefsAmong, SetRef;
      RefsAmongCons(b.refcounts, ids, refs);
      LoadRefsResult(b, ids[1..], WithRef(b.refcounts[ids[0]], refs, ids[0]));
    }
  }

  // ----- What putting a record does to the table that would be loaded

  lemma PutListed(m: map<string, Doc>, d: string, count: Pos, size: nat)
    requires d in IndexOf(m) && d != INDEX
    ensures RefsIn(m[d := CountSize(count, size)]) == RefsIn(m)[d := ChunkRef(count, size)]
  {
    var m' := m[d := CountSize(count, size)];
    assert IndexOf(m') == IndexOf(m);
  }

  lemma PutUnlisted(m: map<string, Doc>, d: string, doc: Doc)
    requires d !in IndexOf(m) && d != INDEX
    ensures RefsIn(m[d := doc]) == RefsIn(m)
  {
    hide Counts, RefOf;
    assert IndexOf(m[d := doc]) == IndexOf(m);
  }

  lemma DropRecord(m: map<string, Doc>, d: string)
    requires d != INDEX
    ensures RefsIn(m - {d}) == RefsIn(m) - {d}
  {
    hide Counts, RefOf;
    assert IndexOf(m - {d}) == IndexOf(m);
  }

  lemma RefsLoadableUpdate(m: map<string, Doc>, ids: seq<string>, d: string, doc: Doc)
    requires RefsLoadable(m, ids) && ParseRefcount(doc).Some?
    ensures RefsLoadable(m[d := doc], ids)
  {
    hide IsChunkDigest;
  }

  /** Both index lists can be read, and so can every record they name. */
  ghost predicate Loadable(b: Disk) {
    && b.plan.Never?
    && IndexReadable(b.manifests) && FilesLoadable(b.manifests, IndexOf(b.manifests))
    && IndexReadable(b.refcounts) && RefsLoadable(b.refcounts, IndexOf(b.refcounts))
  }

  lemma LoadResult(b: Disk)
    requires Loadable(b)
    ensures LoadManifests(b) == Done(b, FilesIn(b.manifests))
    ensures LoadRefcounts(b) == Done(b, RefsIn(b.refcounts))
  {
    hide FilesAmong, RefsAmong, FilesLoadable, RefsLoadable;
    LoadFilesResult(b, IndexOf(b.manifests), map[]);
    LoadRefsResult(b, IndexOf(b.refcounts), map[]);
    assert map[] + FilesIn(b.manifests) == FilesIn(b.manifests);
    assert map[] + RefsIn(b.refcounts) == RefsIn(b.refcounts);
  }

  // ----- Sizes

  /** Every counted chunk of unknown size is on the backend. */
  ghost predicate Sizable(refs: map<string, ChunkRef>, blobs: map<string, Bytes>) {
    forall d :: d in refs && refs[d].size == 0 ==> d in blobs
  }

  ghost predicate Fills(ids: seq<string>, refs: map<string, ChunkRef>, blobs: map<string, Bytes>, d: string) {
    d in ids && d in refs && d in blobs
  }

  /** The table once the entries in `ids` have been measured. */
  ghost function Measured(ids: seq<string>, refs: map<string, ChunkRef>, blobs: map<string, Bytes>)
    : map<string, ChunkRef>
  {
    map d | d in refs :: MeasuredRef(ids, refs, blobs, d)
  }

  ghost function MeasuredRef(ids: seq<string>, refs: map<string, ChunkRef>, blobs: map<string, Bytes>, d: string)
    : ChunkRef
    requires d in refs
  {
    if Fills(ids, refs, blobs, d) then ChunkRef(refs[d].count, |blobs[d]|) else refs[d]
  }

  /** The records once the entries in `ids` have been measured. */
  ghost function MeasuredDocs(ids: seq<string>, m: map<string, Doc>, refs: map<string, ChunkRef>,
                              blobs: map<string, Bytes>): map<string, Doc> {
    map x | x in m :: MeasuredDoc(ids, m, refs, blobs, x)
  }

  ghost function MeasuredDoc(ids: seq<string>, m: map<string, Doc>, refs: map<string, ChunkRef>,
                             blobs: map<string, Bytes>, x: string): Doc
    requires x in m
  {
    if Fills(ids, refs, blobs, x) then CountSize(refs[x].count, |blobs[x]|) else m[x]
  }

  /** The entries are in the table and their records are listed. */
  ghost predicate Measurable(ids: seq<string>, m: map<string, Doc>, refs: map<string, ChunkRef>) {
    && NoDup(ids) && IndexReadable(m)
    && forall d :: d in ids ==> IsChunkDigest(d) && d in refs && d in m && d in IndexOf(m)
  }

  lemma MeasureOne(ids: seq<string>, m: map<string, Doc>, refs: map<string, ChunkRef>, blobs: map<string, Bytes>)
    requires Measurable(ids, m, refs) && ids != [] && ids[0] in blobs
    ensures var d := ids[0];
            var doc := CountSize(refs[d].count, |blobs[d]|);
            var refs1 := refs[d := ChunkRef(refs[d].count, |blobs[d]|)];
            && WithEntry(m, d, doc) == m[d := doc]
            && Measurable(ids[1..], m[d := doc], refs1)
            && Measured(ids[1..], refs1, blobs) == Measured(ids, refs, blobs)
            && MeasuredDocs(ids[1..], m[d := doc], refs1, blobs) == MeasuredDocs(ids, m, refs, blobs)
  {
    var d := ids[0];
    assert IsChunkDigest(d);
    assert d != INDEX;
    hide IsChunkDigest;
    assert ids == [d] + ids[1..];
    assert d !in ids[1..];
  }

  lemma SkipOne(ids: seq<string>, m: map<string, Doc>, refs: map<string, ChunkRef>, blobs: map<string, Bytes>)
    requires Measurable(ids, m, refs) && ids != [] && ids[0] !in blobs
    ensures Measurable(ids[1..], m, refs)
    ensures Measured(ids[1..], refs, blobs) == Measured(ids, refs, blobs)
    ensures MeasuredDocs(ids[1..], m, refs, blobs) == MeasuredDocs(ids, m, refs, blobs)
  {
    hide IsChunkDigest;
    assert ids == [ids[0]] + ids[1..];
  }

  /** `backfill_refcount_sizes` measures every entry it visits whose blob is
      there and rewrites its record; it changes nothing else. */
  lemma {:induction false} BackfillResult(s: State, ids: seq<string>)
    requires s.disk.plan.Never? && Measurable(ids, s.disk.refcounts, s.refs)
    ensures Backfill(s, ids) ==
            Done(s.(refs := Measured(ids, s.refs, s.disk.blobs),
                    disk := s.disk.(refcounts := MeasuredDocs(ids, s.disk.refcounts, s.refs, s.disk.blobs))), ())
    decreases |ids|
  {
    hide WithEntry, NoDup, IndexOf;
    if ids == [] {
      assert Measured(ids, s.refs, s.disk.blobs) == s.refs;
      assert MeasuredDocs(ids, s.disk.refcounts, s.refs, s.disk.blobs) == s.disk.refcounts;
    } else if ids[0] !in s.disk.blobs {
      SkipOne(ids, s.disk.refcounts, s.refs, s.disk.blobs);
      hide IsChunkDigest, Measured, MeasuredDocs, SaveEntry;
      BackfillResult(s, ids[1..]);
    } else {
      MeasureOne(ids, s.disk.refcounts, s.refs, s.disk.blobs);
      var d := ids[0];
      var r := ChunkRef(s.refs[d].count, |s.disk.blobs[d]|);
      assert IsChunkDigest(d);
      assert d != INDEX;
      hide IsChunkDigest, Measured, MeasuredDocs;
      SaveEntryEffect(s.disk, Refcounts, d, CountSize(r.count, r.size));
      BackfillResult(s.(refs := s.refs[d := r],
                        disk := s.disk.(refcounts := s.disk.refcounts[d := CountSize(r.count, r.size)])), ids[1..]);
    }
  }

  // ----- Totals

  ghost function RefsOn(refs: map<string, ChunkRef>, order: seq<string>): map<string, ChunkRef> {
    refs - (refs.Keys - set d | d in order)
  }

  /** Every entry visited has a size, or its blob is empty. */
  ghost predicate Countable(refs: map<string, ChunkRef>, blobs: map<string, Bytes>, order: seq<string>) {
    && NoDup(order)
    && forall d :: d in order ==> d in refs && (refs[d].size == 0 ==> d in blobs && blobs[d] == [])
  }

  lemma RefsOnCons(refs: map<string, ChunkRef>, order: seq<string>)
    requires order != [] && NoDup(order) && order[0] in refs
    ensures RefsOn(refs, order) == RefsOn(refs, order[1..])[order[0] := refs[order[0]]]
    ensures order[0] !in RefsOn(refs, order[1..])
  {
    assert order == [order[0]] + order[1..];
    assert order[0] !in order[1..];
  }

  lemma RefsOnBytes(refs: map<string, ChunkRef>, order: seq<string>)
    requires order != [] && NoDup(order) && order[0] in refs
    ensures var r := refs[order[0]];
            && TotalBytes(RefsOn(refs, order)) == r.size * r.count + TotalBytes(RefsOn(refs, order[1..]))
            && StoredBytes(RefsOn(refs, order)) == r.size + StoredBytes(RefsOn(refs, order[1..]))
  {
    RefsOnCons(refs, order);
    hide RefsOn, TotalBytes, StoredBytes, NoDup;
    BytesInsert(RefsOn(refs, order[1..]), order[0], refs[order[0]]);
  }

  ghost function AddTable(sum: Totals, refs: map<string, ChunkRef>): Totals {
    Totals(sum.total + TotalBytes(refs), sum.stored + StoredBytes(refs), sum.gc)
  }

  lemma AddTableCons(sum: Totals, refs: map<string, ChunkRef>, order: seq<string>)
    requires order != [] && NoDup(order) && order[0] in refs
    ensures AddTable(AddChunk(sum, refs[order[0]].size, refs[order[0]].count), RefsOn(refs, order[1..])) ==
            AddTable(sum, RefsOn(refs, order))
  {
    hide RefsOn, TotalBytes, StoredBytes, NoDup;
    RefsOnBytes(refs, order);
  }

  lemma RecountTurn(cfg: Cfg, s: State, order: seq<string>, sum: Totals)
    requires cfg.codec.None? && s.disk.plan.Never? && Countable(s.refs, s.disk.blobs, order) && order != []
    ensures var r := s.refs[order[0]];
            Recount(cfg, s, order, sum) == Recount(cfg, s, order[1..], AddChunk(sum, r.size, r.count))
    ensures Countable(s.refs, s.disk.blobs, order[1..])
  {
    hide AddChunk;
  }

  /** `rebuild_stats` sums over the table, in whatever order it visits it. */
  lemma {:induction false} RecountResult(cfg: Cfg, s: State, order: seq<string>, sum: Totals)
    requires cfg.codec.None? && s.disk.plan.Never? && Countable(s.refs, s.disk.blobs, order)
    ensures Recount(cfg, s, order, sum) == Done(s, AddTable(sum, RefsOn(s.refs, order)))
    decreases |order|
  {
    if order == [] {
      assert RefBytes(RefsOn(s.refs, order)) == map[] && RefSizes(RefsOn(s.refs, order)) == map[];
    } else {
      RecountTurn(cfg, s, order, sum);
      AddTableCons(sum, s.refs, order);
      var r := s.refs[order[0]];
      hide *;
      RecountResult(cfg, s, order[1..], AddChunk(sum, r.size, r.count));
    }
  }

  // ----- Opening

  /** The table after sizes have been filled in. */
  ghost function Filled(refs: map<string, ChunkRef>, blobs: map<string, Bytes>): map<string, ChunkRef> {
    map d | d in refs :: FilledRef(refs, blobs, d)
  }

  ghost function FilledRef(refs: map<string, ChunkRef>, blobs: map<string, Bytes>, d: string): ChunkRef
    requires d in refs
  {
    if refs[d].size == 0 && d in blobs then ChunkRef(refs[d].count, |blobs[d]|) else refs[d]
  }

  /** The records after sizes have been filled in. */
  ghost function FilledDocs(m: map<string, Doc>, blobs: map<string, Bytes>): map<string, Doc> {
    map x | x in m :: FilledDoc(m, blobs, x)
  }

  ghost function FilledDoc(m: map<string, Doc>, blobs: map<string, Bytes>, x: string): Doc
    requires x in m
  {
    var refs := RefsIn(m);
    if x in refs && refs[x].size == 0 && x in blobs then CountSize(refs[x].count, |blobs[x]|) else m[x]
  }

  lemma FilledIsMeasured(m: map<string, Doc>, blobs: map<string, Bytes>, stale: seq<string>)
    requires RefsLoadable(m, IndexOf(m)) && IsStaleListing(stale, RefsIn(m)) && IndexReadable(m)
    ensures Measurable(stale, m, RefsIn(m))
    ensures Measured(stale, RefsIn(m), blobs) == Filled(RefsIn(m), blobs)
    ensures MeasuredDocs(stale, m, RefsIn(m), blobs) == FilledDocs(m, blobs)
  {
    hide IsChunkDigest, Counts;
    var refs := RefsIn(m);
    assert forall d :: d in stale <==> d in refs && Stale(refs[d]);
  }

  lemma FilledCountable(refs: map<string, ChunkRef>, blobs: map<string, Bytes>, order: seq<string>)
    requires Sizable(refs, blobs) && IsListing(order, refs.Keys)
    ensures Countable(Filled(refs, blobs), blobs, order)
    ensures RefsOn(Filled(refs, blobs), order) == Filled(refs, blobs)
  {
  }

  /** The store that opening a loadable backend gives. */
  ghost function Opened(b: Disk): State {
    var refs := Filled(RefsIn(b.refcounts), b.blobs);
    State(FilesIn(b.manifests), refs, Totals(TotalBytes(refs), StoredBytes(refs), 0),
          b.(refcounts := FilledDocs(b.refcounts, b.blobs)))
  }

  lemma BackfillOnOpen(b: Disk, stale: seq<string>)
    requires Loadable(b) && IsStaleListing(stale, RefsIn(b.refcounts))
    ensures Backfill(State(FilesIn(b.manifests), RefsIn(b.refcounts), Totals(0, 0, 0), b), stale) ==
            Done(Opened(b).(stats := Totals(0, 0, 0)), ())
  {
    hide Backfill, RefsIn, FilesIn, IsStaleListing, Measurable, Measured, MeasuredDocs, TotalBytes, StoredBytes;
    FilledIsMeasured(b.refcounts, b.blobs, stale);
    hide Filled, FilledDocs;
    BackfillResult(State(FilesIn(b.manifests), RefsIn(b.refcounts), Totals(0, 0, 0), b), stale);
  }

  lemma OpenResult(cfg: Cfg, b: Disk, stale: seq<string>, order: seq<string>)
    requires Loadable(b) && Sizable(RefsIn(b.refcounts), b.blobs)
    requires IsStaleListing(stale, RefsIn(b.refcounts)) && IsListing(order, RefsIn(b.refcounts).Keys)
    ensures Open(cfg, b, stale, order) == Done(Opened(b).disk, Opened(b))
  {
    hide LoadManifests, LoadRefcounts, Backfill, Recount, Sizable, RefsIn, FilesIn, IsStaleListing, IsListing;
    hide Countable, RefsOn, TotalBytes, StoredBytes;
    LoadResult(b);
    FilledCountable(RefsIn(b.refcounts), b.blobs, order);
    BackfillOnOpen(b, stale);
    hide Filled, FilledDocs;
    RecountResult(cfg.(codec := None), Opened(b).(stats := Totals(0, 0, 0)), order, Totals(0, 0, 0));
  }

  lemma {:induction false} RecountFails(cfg: Cfg, s: State, order: seq<string>, sum: Totals, d: string)
    requires cfg.codec.None? && s.disk.plan.Never?
    requires d in order && d in s.refs && s.refs[d].size == 0 && d !in s.disk.blobs
    ensures Recount(cfg, s, order, sum) == Fail(s, NotFound)
    decreases |order|
  {
    hide AddChunk;
    var x := order[0];
    if x !in s.refs {
      RecountFails(cfg, s, order[1..], sum, d);
    } else if s.refs[x].size > 0 || x in s.disk.blobs {
      var o := ChunkSize(cfg, s, x);
      RecountFails(cfg, s, order[1..], AddChunk(sum, o.v, s.refs[x].count), d);
    }
  }

  /** A loadable backend opens exactly when every counted chunk of unknown size
      has its blob: a legacy record, or the record of an empty chunk, whose blob
      is gone makes `open` fail. */
  lemma OpensIffSizable(cfg: Cfg, b: Disk, stale: seq<string>, order: seq<string>)
    requires Loadable(b)
    requires IsStaleListing(stale, RefsIn(b.refcounts)) && IsListing(order, RefsIn(b.refcounts).Keys)
    ensures Open(cfg, b, stale, order).Done? <==>
            forall d :: d in RefsIn(b.refcounts) && RefsIn(b.refcounts)[d].size == 0 ==> d in b.blobs
    ensures Open(cfg, b, stale, order).Fail? ==> Open(cfg, b, stale, order).e == NotFound
  {
    hide LoadManifests, LoadRefcounts, Backfill, Recount, FilesIn, IsStaleListing, TotalBytes, StoredBytes, Loadable;
    var refs := RefsIn(b.refcounts);
    hide RefsIn, FilledDocs;
    if Sizable(refs, b.blobs) {
      OpenResult(cfg, b, stale, order);
    } else {
      var d :| d in refs && refs[d].size == 0 && d !in b.blobs;
      LoadIsNever(b);
      LoadResult(b);
      BackfillOnOpen(b, stale);
      RecountFails(cfg.(codec := None), Opened(b).(stats := Totals(0, 0, 0)), order, Totals(0, 0, 0), d);
    }
  }

  lemma LoadIsNever(b: Disk)
    requires Loadable(b)
    ensures b.plan.Never?
  {
  }

  /** Legacy migration. Opening keeps every count, gives every chunk of unknown
      size the length of its blob, writes refcount records only, and a second
      open finds the same store and changes no stored value. */
  lemma LegacyMigration(cfg: Cfg, b: Disk, stale: seq<string>, order: seq<string>, stale2: seq<string>,
                        order2: seq<string>)
    requires Loadable(b) && Sizable(RefsIn(b.refcounts), b.blobs)
    requires IsStaleListing(stale, RefsIn(b.refcounts)) && IsListing(order, RefsIn(b.refcounts).Keys)
    requires IsStaleListing(stale2, Opened(b).refs) && IsListing(order2, Opened(b).refs.Keys)
    ensures var o := Open(cfg, b, stale, order);
            var refs := RefsIn(b.refcounts);
            && o.Done? && o.v.disk == o.s && o.s == b.(refcounts := o.s.refcounts)
            && o.v.refs.Keys == refs.Keys
            && (forall d :: d in refs ==>
                && o.v.refs[d].count == refs[d].count
                && o.v.refs[d].size == (if refs[d].size == 0 then |b.blobs[d]| else refs[d].size))
            && o.v.stats == Totals(TotalBytes(o.v.refs), StoredBytes(o.v.refs), 0)
            && Open(cfg, o.s, stale2, order2) == o
  {
    hide Open, IsListing, IsStaleListing, TotalBytes, StoredBytes, RefsIn, FilesIn, Loadable;
    assert Opened(b).refs.Keys == RefsIn(b.refcounts).Keys;
    OpenResult(cfg, b, stale, order);
    FilledAgain(b);
    OpenResult(cfg, Opened(b).disk, stale2, order2);
  }

  lemma FilledIndex(b: Disk)
    requires Loadable(b)
    ensures var m := FilledDocs(b.refcounts, b.blobs);
            && IndexReadable(m) && IndexOf(m) == IndexOf(b.refcounts) && m.Keys == b.refcounts.Keys
  {
    hide FilesLoadable, Counts;
    var refs := RefsIn(b.refcounts);
    assert |INDEX| == 9;
    assert INDEX !in refs;
  }

  lemma RefsInFilled(b: Disk)
    requires Loadable(b)
    ensures var m := FilledDocs(b.refcounts, b.blobs);
            RefsIn(m) == Filled(RefsIn(b.refcounts), b.blobs) && RefsLoadable(m, IndexOf(m))
  {
    hide FilesLoadable, IsChunkDigest;
    FilledIndex(b);
    var m := FilledDocs(b.refcounts, b.blobs);
    hide IndexOf, IndexReadable;
    assert RefsIn(m).Keys == RefsIn(b.refcounts).Keys;
  }

  lemma FilledDocsAgain(b: Disk)
    requires Loadable(b)
    ensures var m := FilledDocs(b.refcounts, b.blobs);
            && FilledDocs(m, b.blobs) == m
            && Filled(RefsIn(m), b.blobs) == RefsIn(m)
  {
    RefsInFilled(b);
    FilledIndex(b);
    var refs := RefsIn(b.refcounts);
    assert forall x :: x in refs ==> x in b.refcounts;
    hide RefsIn, Loadable, IndexOf, IndexReadable, RefsLoadable;
  }

  /** Filling in sizes twice is filling them in once. */
  lemma FilledAgain(b: Disk)
    requires Loadable(b) && Sizable(RefsIn(b.refcounts), b.blobs)
    ensures var b' := Opened(b).disk;
            && Loadable(b') && Sizable(RefsIn(b'.refcounts), b'.blobs)
            && RefsIn(b'.refcounts) == Opened(b).refs
            && Opened(b') == Opened(b)
  {
    FilledIndex(b);
    RefsInFilled(b);
    FilledDocsAgain(b);
    hide FilesLoadable, RefsLoadable, IsChunkDigest, TotalBytes, StoredBytes, RefsIn, FilesIn, FilledDocs;
    hide IndexOf, IndexReadable;
  }
}
