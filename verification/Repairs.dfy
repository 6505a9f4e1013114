/** A repair that stops at any backend call, on a store whose counts may exceed
    the references. */
module Repairs {
  import opened Types
  import opened Hashing
  import opened DiskSpec
  import opened StoreSpec
  import opened Counting
  import opened Opening
  import opened Salvage
  import opened FsckLaws
  import opened FaultRuns

  /** The backend counts the chunk with size zero. */
  ghost predicate CountedEmpty(b: Disk, d: string) {
    d in RefsIn(b.refcounts) && RefsIn(b.refcounts)[d].size == 0
  }

  /** One call for each counted digest, one for the listing, and one for each
      orphan: the process stops after orphan number `i` has been unlinked. */
  predicate Unlinks(plan: Plan, live: seq<string>, i: nat) {
    plan.After? ==> |live| + 1 + i < plan.calls
  }

  /** The repair gets as far as unlinking an orphan of size zero that the backend
      counts, and memory does not. */
  ghost predicate RepairWindow(s: State, repair: bool, live: seq<string>, names: Option<seq<string>>) {
    && repair && names.Some?
    && var orphans := OrphansAmong(names.value, live);
       exists i :: 0 <= i < |orphans| && Unlinks(s.disk.plan, live, i) &&
         orphans[i] in s.disk.blobs && CountedEmpty(s.disk, orphans[i])
  }

  lemma {:induction false} FindMissingPlan(b: Disk, live: seq<string>)
    ensures var o := FindMissing(b, live);
            && (o.Done? <==> (b.plan.After? ==> |live| <= b.plan.calls))
            && (o.Done? ==> o.s == b.(plan := if b.plan.After? then After(b.plan.calls - |live|) else b.plan))
    decreases |live|
  {
    if live != [] {
      FindMissingPlan(Spend(b), live[1..]);
    }
  }

  predicate InTime(plan: Plan, i: nat) {
    plan.After? ==> i < plan.calls
  }

  /** A stopped unlinking has removed the names up to where it stopped. */
  lemma {:induction false} DeleteBlobsCut(b: Disk, names: seq<string>)
    ensures var b' := DeleteBlobs(b, names).s;
            forall d :: d in b.blobs ==>
              (d !in b'.blobs <==> exists i :: 0 <= i < |names| && InTime(b.plan, i) && names[i] == d)
    decreases |names|
  {
    var b' := DeleteBlobs(b, names).s;
    if names != [] && !Down(b) {
      var b1 := DeleteBlob(b, names[0]).s;
      DeleteBlobsCut(b1, names[1..]);
      DeleteBlobsAny(b1, names[1..]);
      assert b' == DeleteBlobs(b1, names[1..]).s;
      forall d | d in b.blobs
        ensures d !in b'.blobs <==> exists i :: 0 <= i < |names| && InTime(b.plan, i) && names[i] == d
      {
        if d == names[0] {
          assert d !in b1.blobs && InTime(b.plan, 0);
        } else if d !in b'.blobs {
          var i :| 0 <= i < |names[1..]| && InTime(b1.plan, i) && names[1..][i] == d;
          assert names[i + 1] == d && InTime(b.plan, i + 1);
        } else {
          forall i | 0 <= i < |names| && InTime(b.plan, i) ensures names[i] != d {
            assert i > 0 ==> InTime(b1.plan, i - 1) && names[1..][i - 1] == names[i];
          }
        }
      }
    }
  }

  /** The blobs that a repair has removed where it stops. */
  lemma FsckRemoves(s: State, repair: bool, live: seq<string>, names: Option<seq<string>>)
    ensures var b' := Fsck(s, repair, live, names).s.disk;
            var orphans := if repair && names.Some? then OrphansAmong(names.value, live) else [];
            forall d :: d in s.disk.blobs ==>
              (d !in b'.blobs <==>
               exists i :: 0 <= i < |orphans| && Unlinks(s.disk.plan, live, i) && orphans[i] == d)
  {
    hide FindMissing, DeleteBlobs, OrphansAmong;
    FindMissingKeeps(s.disk, live);
    FindMissingPlan(s.disk, live);
    var orphans := if names.Some? then OrphansAmong(names.value, live) else [];
    var o := FindMissing(s.disk, live);
    var b' := Fsck(s, repair, live, names).s.disk;
    if !repair || o.Fail? || Down(o.s) {
      assert b'.blobs == s.disk.blobs;
      assert repair ==> forall i: nat :: !Unlinks(s.disk.plan, live, i);
    } else {
      var b := Spend(o.s);
      DeleteBlobsCut(b, orphans);
      assert b' == DeleteBlobs(b, orphans).s && b.blobs == s.disk.blobs;
      assert forall i: nat :: InTime(b.plan, i) <==> Unlinks(s.disk.plan, live, i);
    }
    hide Fsck, Unlinks, InTime;
  }

  lemma UnlinkedTears(b: Disk, b': Disk, names: seq<string>)
    requires Unlinked(b, b', names) && !Torn(b)
    ensures Torn(b') <==> exists d :: d in b.blobs && d !in b'.blobs && CountedEmpty(b, d)
  {
    hide RefsIn, AllListed;
  }

  lemma UnlinkedParses(b: Disk, b': Disk, names: seq<string>)
    requires Unlinked(b, b', names) && Parses(b)
    ensures Parses(b') && FilesIn(b'.manifests) == FilesIn(b.manifests)
  {
  }

  /** When a repair, stopped anywhere, tears the backend. */
  lemma RepairTears(s: State, repair: bool, live: seq<string>, names: Option<seq<string>>)
    requires !Torn(s.disk)
    ensures Torn(Fsck(s, repair, live, names).s.disk) <==> RepairWindow(s, repair, live, names)
  {
    var b' := Fsck(s, repair, live, names).s.disk;
    FsckUnlinks(s, repair, live, names);
    FsckRemoves(s, repair, live, names);
    UnlinkedTears(s.disk, b', if names.Some? then OrphansAmong(names.value, live) else []);
    hide Fsck, Torn, CountedEmpty, OrphansAmong, Unlinks, Unlinked;
    if RepairWindow(s, repair, live, names) {
      var orphans := OrphansAmong(names.value, live);
      var i :| 0 <= i < |orphans| && Unlinks(s.disk.plan, live, i) &&
               orphans[i] in s.disk.blobs && CountedEmpty(s.disk, orphans[i]);
      assert orphans[i] !in b'.blobs;
    }
  }

  /** Wherever a check stops, the backend belongs to the same files; it is torn
      exactly when the stop is in the window. */
  lemma FsckCut(cfg: Cfg, s: State, repair: bool, live: seq<string>, names: Option<seq<string>>)
    requires InStep(cfg, s) && IsListing(live, s.refs.Keys)
    ensures var b := Fsck(s, repair, live, names).s.disk;
            Salvageable(cfg, b, s.files) && (Torn(b) <==> RepairWindow(s, repair, live, names))
  {
    InStepIsGuarded(cfg, s);
    assert !Torn(s.disk);
    var s' := Fsck(s, repair, live, names).s;
    var orphans := if names.Some? then OrphansAmong(names.value, live) else [];
    FsckUnlinks(s, repair, live, names);
    if names.Some? {
      OrphansAmongFacts(names.value, live);
    }
    UnlinkedGuarded(cfg, s, s', orphans, AllRefs(s.files)) by { assert forall d :: d in orphans ==> d !in s.refs; }
    UnlinkedParses(s.disk, s'.disk, orphans);
    hide *;
    RepairTears(s, repair, live, names);
    GuardedIsSalvageable(cfg, s', AllRefs(s.files), s.files);
  }

  /** A repair by a store that counts every chunk that its backend counts tears
      nothing. */
  lemma RepairIsHarmless(cfg: Cfg, s: State, repair: bool, live: seq<string>, names: Option<seq<string>>)
    requires InStep(cfg, s) && IsListing(live, s.refs.Keys) && RefsIn(s.disk.refcounts).Keys <= s.refs.Keys
    ensures !Torn(Fsck(s, repair, live, names).s.disk)
  {
    FsckCut(cfg, s, repair, live, names);
    hide Fsck, InStep, Torn, RefsIn, OrphansAmong, IsChunkDigest, Unlinks;
    if names.Some? {
      OrphansAmongFacts(names.value, live);
    }
  }
}
