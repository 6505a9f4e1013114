/** The manifest index under threads that ingest new files: `save_manifest` reads
    and rewrites the list under no lock. */
module IndexRaces {
  import opened Types
  import opened Hashing
  import opened DiskSpec
  import opened StoreSpec
  import opened Counting
  import opened Records
  import opened Invariants
  import opened ExactSteps
  import opened ExactOps
  import opened ExactRelease
  import opened Refinement
  import opened SavePoint
  import opened Concurrency

  /** Thread `i` is about to write an index list that is no longer the one it
      has read. */
  ghost predicate StaleWrite(sys: Sys, i: nat) {
    && i < |sys.threads| && sys.threads[i].pc.Appending?
    && sys.threads[i].pc.index != IndexOf(sys.s.disk.manifests)
  }

  /** Some step of the run is such a write. */
  ghost predicate Overwrites(cfg: Cfg, sys: Sys, schedule: seq<nat>)
    decreases |schedule|
  {
    schedule != [] &&
    (StaleWrite(sys, schedule[0]) || Overwrites(cfg, Concurrency.Step(cfg, sys, schedule[0]), schedule[1..]))
  }

  ghost predicate FinishedId(ts: seq<Thread>, f: string) {
    exists i :: 0 <= i < |ts| && ts[i].pc.Finished? && ts[i].id == f
  }

  /** A list holds the files of the start and of finished threads only. */
  ghost predicate Drawn(base: seq<string>, xs: seq<string>, ts: seq<Thread>) {
    && NoDup(xs) && (forall f :: f in base ==> f in xs)
    && (forall f :: f in xs ==> f in base || FinishedId(ts, f))
  }

  /** A list that was read is the one there, or has been replaced by one whose
      last entry it lacks. */
  ghost predicate UpToDate(index: seq<string>, read: seq<string>, ts: seq<Thread>) {
    read == index || (index != [] && index[|index| - 1] !in read && FinishedId(ts, index[|index| - 1]))
  }

  ghost predicate AllUpToDate(base: seq<string>, index: seq<string>, ts: seq<Thread>) {
    forall i :: 0 <= i < |ts| && ts[i].pc.Appending? ==>
      Drawn(base, ts[i].pc.index, ts) && UpToDate(index, ts[i].pc.index, ts)
  }

  ghost predicate NewIds(base: seq<string>, ts: seq<Thread>) {
    && (forall i, j :: 0 <= i < j < |ts| ==> ts[i].id != ts[j].id)
    && forall i :: 0 <= i < |ts| ==> ts[i].id !in base && ts[i].id != INDEX
  }

  /** As long as nothing was overwritten every finished thread is listed, and
      from then on some finished thread is not. */
  ghost predicate Listed(base: seq<string>, index: seq<string>, ts: seq<Thread>, lost: bool) {
    && NewIds(base, ts) && Drawn(base, index, ts) && AllUpToDate(base, index, ts)
    && (!lost ==> forall f :: FinishedId(ts, f) ==> f in index)
    && (lost ==> exists f :: FinishedId(ts, f) && f !in index)
  }

  // ----- Steps

  lemma FinishedUpdate(ts: seq<Thread>, i: nat, t: Thread, f: string)
    requires i < |ts| && t.id == ts[i].id && (ts[i].pc.Finished? ==> t.pc.Finished?)
    ensures FinishedId(ts, f) ==> FinishedId(ts[i := t], f)
    ensures FinishedId(ts[i := t], f) ==> FinishedId(ts, f) || (f == t.id && t.pc.Finished?)
  {
    var us := ts[i := t];
    if FinishedId(ts, f) {
      var j :| 0 <= j < |ts| && ts[j].pc.Finished? && ts[j].id == f;
      assert us[j].pc.Finished? && us[j].id == f;
    }
    if FinishedId(us, f) {
      var j :| 0 <= j < |us| && us[j].pc.Finished? && us[j].id == f;
      assert j != i ==> ts[j].pc.Finished? && ts[j].id == f;
    }
  }

  /** The id of a thread that has not finished is in no list. */
  lemma UnfinishedIsNew(base: seq<string>, xs: seq<string>, ts: seq<Thread>, i: nat)
    requires NewIds(base, ts) && Drawn(base, xs, ts) && i < |ts| && !ts[i].pc.Finished?
    ensures ts[i].id !in xs
  {
    forall j | 0 <= j < |ts| && ts[j].pc.Finished? ensures ts[j].id != ts[i].id {
      assert i < j || j < i;
    }
  }

  lemma DrawnUpdate(base: seq<string>, xs: seq<string>, ts: seq<Thread>, i: nat, t: Thread)
    requires Drawn(base, xs, ts) && i < |ts| && t.id == ts[i].id && !ts[i].pc.Finished?
    ensures Drawn(base, xs, ts[i := t])
  {
    hide FinishedId, NoDup;
    forall f | f in xs ensures f in base || FinishedId(ts[i := t], f) {
      FinishedUpdate(ts, i, t, f);
    }
  }

  lemma NewIdsUpdate(base: seq<string>, ts: seq<Thread>, i: nat, t: Thread)
    requires NewIds(base, ts) && i < |ts| && t.id == ts[i].id
    ensures NewIds(base, ts[i := t])
  {
  }

  /** A step that neither writes the list nor finishes. */
  lemma QuietKeeps(base: seq<string>, index: seq<string>, ts: seq<Thread>, i: nat, t: Thread, lost: bool)
    requires Listed(base, index, ts, lost) && i < |ts| && t.id == ts[i].id
    requires !ts[i].pc.Finished? && !t.pc.Finished? && (t.pc.Appending? ==> t.pc.index == index)
    ensures Listed(base, index, ts[i := t], lost)
  {
    var us := ts[i := t];
    NewIdsUpdate(base, ts, i, t);
    DrawnUpdate(base, index, ts, i, t);
    hide FinishedId, NewIds, Drawn;
    forall f ensures FinishedId(us, f) <==> FinishedId(ts, f) {
      FinishedUpdate(ts, i, t, f);
    }
    forall j | 0 <= j < |us| && us[j].pc.Appending?
      ensures Drawn(base, us[j].pc.index, us) && UpToDate(index, us[j].pc.index, us)
    {
      if j != i {
        DrawnUpdate(base, ts[j].pc.index, ts, i, t);
      }
    }
  }

  /** The write of the list. */
  lemma AppendKeeps(base: seq<string>, index: seq<string>, ts: seq<Thread>, i: nat, t: Thread, lost: bool)
    requires Listed(base, index, ts, lost) && i < |ts| && ts[i].pc.Appending?
    requires t == ts[i].(pc := Finished)
    ensures Listed(base, ts[i].pc.index + [t.id], ts[i := t], lost || ts[i].pc.index != index)
  {
    var us, read := ts[i := t], ts[i].pc.index;
    var written := read + [t.id];
    assert FinishedId(us, t.id) by { assert us[i].pc.Finished? && us[i].id == t.id; }
    NewIdsUpdate(base, ts, i, t);
    DrawnUpdate(base, read, ts, i, t);
    UnfinishedIsNew(base, read, ts, i);
    UnfinishedIsNew(base, index, ts, i);
    hide FinishedId, NewIds;
    assert Drawn(base, written, us);
    forall j | 0 <= j < |us| && us[j].pc.Appending?
      ensures Drawn(base, us[j].pc.index, us) && UpToDate(written, us[j].pc.index, us)
    {
      DrawnUpdate(base, ts[j].pc.index, ts, i, t);
      UnfinishedIsNew(base, ts[j].pc.index, ts, i);
      assert written[|written| - 1] == t.id;
    }
    forall f
      ensures FinishedId(ts, f) ==> FinishedId(us, f)
      ensures FinishedId(us, f) ==> FinishedId(ts, f) || f == t.id
    {
      FinishedUpdate(ts, i, t, f);
    }
    if read == index {
      MissingStays(index, ts, us, t.id, lost, written);
    } else {
      var last := index[|index| - 1];
      assert FinishedId(us, last) && last !in read && last in index && last !in written;
    }
  }

  lemma MissingStays(index: seq<string>, ts: seq<Thread>, us: seq<Thread>, id: string, lost: bool, written: seq<string>)
    requires written == index + [id]
    requires forall f :: FinishedId(ts, f) ==> FinishedId(us, f)
    requires forall f :: FinishedId(us, f) ==> FinishedId(ts, f) || f == id
    requires !lost ==> forall f :: FinishedId(ts, f) ==> f in index
    requires lost ==> exists f :: FinishedId(ts, f) && f !in index && f != id
    ensures !lost ==> forall f :: FinishedId(us, f) ==> f in written
    ensures lost ==> exists f :: FinishedId(us, f) && f !in written
  {
    hide FinishedId;
    if lost {
      var f :| FinishedId(ts, f) && f !in index && f != id;
      assert FinishedId(us, f) && f !in written;
    }
  }

  // ----- Runs

  /** The list is as it was, and the thread has not finished; if it has read the
      list it has read this one. */
  ghost predicate Quiet(s: State, s': State, t: Thread, t': Thread) {
    var index := IndexOf(s.disk.manifests);
    && IndexOf(s'.disk.manifests) == index && t'.id == t.id && !t'.pc.Finished?
    && (t'.pc.Appending? ==> t'.pc.index == index)
  }

  lemma AcceptStepsQuiet(cfg: Cfg, s: State, t: Thread)
    requires t.todo != []
    ensures t.pc.Ready? ==> var o := PutStep(cfg, s, t); Quiet(s, o.0, t, o.1)
    ensures t.pc.Counting? ==> var o := IncrementStep(cfg, s, t); Quiet(s, o.0, t, o.1)
    ensures t.pc.Tallying? ==> var o := TallyStep(cfg, s, t); Quiet(s, o.0, t, o.1)
  {
    if Encode(cfg, t.todo[0]).Some? {
      BlobStepEffect(s, Current(cfg, t), Encode(cfg, t.todo[0]).value);
    }
    CountStepFiles(s, Current(cfg, t), |t.todo[0]|);
    hide BlobStep, CountStep, Current, IndexOf;
  }

  lemma CommitStepsQuiet(s: State, t: Thread)
    requires s.disk.plan.Never? && IndexReadable(s.disk.manifests) && t.id != INDEX
    ensures var o := InsertStep(s, t); Quiet(s, o.0, t, o.1)
    ensures var o := SaveStep(s, t); Quiet(s, o.0, t, o.1)
    ensures t.id !in IndexOf(s.disk.manifests) ==> var o := ListStep(s, t); Quiet(s, o.0, t, o.1)
    ensures t.pc.Appending? ==>
              var o := AppendStep(s, t);
              o.1 == t.(pc := Finished) && IndexOf(o.0.disk.manifests) == t.pc.index + [t.id]
  {
    PutKeepsIndex(s.disk.manifests, t);
  }

  /** What a step of one thread does to the list and to the thread. */
  lemma StepEffect(cfg: Cfg, start: State, sys: Sys, i: nat)
    requires Inv(cfg, start, sys) && i < |sys.threads| && !sys.threads[i].pc.Finished?
    requires sys.threads[i].id !in IndexOf(sys.s.disk.manifests)
    ensures var t := sys.threads[i];
            var u := Concurrency.Step(cfg, sys, i);
            && |u.threads| == |sys.threads| && u.threads == sys.threads[i := u.threads[i]]
            && (if t.pc.Appending?
                then && u.threads[i] == t.(pc := Finished)
                     && IndexOf(u.s.disk.manifests) == t.pc.index + [t.id]
                else Quiet(sys.s, u.s, t, u.threads[i]))
  {
    SaveFacts(cfg, start, sys, i);
    var s, t := sys.s, sys.threads[i];
    NotIndexId(t);
    assert sys.threads[i := t] == sys.threads;
    hide Inv, ValidId, PutStep, IncrementStep, TallyStep, InsertStep, SaveStep, ListStep, AppendStep, IndexOf;
    hide IndexReadable;
    CommitStepsQuiet(s, t);
    if t.todo != [] {
      AcceptStepsQuiet(cfg, s, t);
    }
  }

  lemma NotIndexId(t: Thread)
    requires ValidId(t.id)
    ensures t.id != INDEX
  {
  }

  lemma PutKeepsIndex(m: map<string, Doc>, t: Thread)
    requires t.id != INDEX
    ensures IndexOf(m[t.id := ManifestDoc(t.accepted, t.fileBytes)]) == IndexOf(m)
  {
  }

  lemma IdleStep(cfg: Cfg, sys: Sys, i: nat)
    requires i < |sys.threads| ==> sys.threads[i].pc.Finished?
    ensures Concurrency.Step(cfg, sys, i) == sys && !StaleWrite(sys, i)
  {
  }

  lemma ListedParts(base: seq<string>, index: seq<string>, ts: seq<Thread>, lost: bool)
    requires Listed(base, index, ts, lost)
    ensures NewIds(base, ts) && Drawn(base, index, ts)
  {
    hide NewIds, Drawn;
  }

  lemma StaleIff(sys: Sys, i: nat)
    requires i < |sys.threads|
    ensures StaleWrite(sys, i) <==>
            sys.threads[i].pc.Appending? && sys.threads[i].pc.index != IndexOf(sys.s.disk.manifests)
  {
  }

  lemma StepListed(cfg: Cfg, start: State, sys: Sys, i: nat, base: seq<string>, lost: bool)
    requires Inv(cfg, start, sys) && Listed(base, IndexOf(sys.s.disk.manifests), sys.threads, lost)
    ensures var u := Concurrency.Step(cfg, sys, i);
            Listed(base, IndexOf(u.s.disk.manifests), u.threads, lost || StaleWrite(sys, i))
  {
    hide *;
    var index, ts := IndexOf(sys.s.disk.manifests), sys.threads;
    if i < |ts| && !ts[i].pc.Finished? {
      ListedParts(base, index, ts, lost);
      UnfinishedIsNew(base, index, ts, i);
      StepEffect(cfg, start, sys, i);
      StaleIff(sys, i);
      var u := Concurrency.Step(cfg, sys, i);
      var t := u.threads[i];
      if ts[i].pc.Appending? {
        AppendKeeps(base, index, ts, i, t, lost);
      } else {
        QuietParts(sys.s, u.s, ts[i], t);
        QuietKeeps(base, index, ts, i, t, lost);
      }
    } else {
      IdleStep(cfg, sys, i);
    }
  }

  lemma QuietParts(s: State, s': State, t: Thread, t': Thread)
    requires Quiet(s, s', t, t')
    ensures IndexOf(s'.disk.manifests) == IndexOf(s.disk.manifests) && t'.id == t.id && !t'.pc.Finished?
    ensures t'.pc.Appending? ==> t'.pc.index == IndexOf(s.disk.manifests)
  {
  }

  lemma {:induction false} RunListed(cfg: Cfg, start: State, sys: Sys, schedule: seq<nat>, base: seq<string>,
                                     lost: bool)
    requires Inv(cfg, start, sys) && LawfulCodec(cfg)
    requires Listed(base, IndexOf(sys.s.disk.manifests), sys.threads, lost)
    ensures var u := Concurrency.Run(cfg, sys, schedule);
            Listed(base, IndexOf(u.s.disk.manifests), u.threads, lost || Overwrites(cfg, sys, schedule))
    decreases |schedule|
  {
    hide Inv, LawfulCodec, Listed, Concurrency.Step, IndexOf, StaleWrite;
    if schedule != [] {
      StepKeeps(cfg, start, sys, schedule[0]);
      StepListed(cfg, start, sys, schedule[0], base, lost);
      var now := lost || StaleWrite(sys, schedule[0]);
      RunListed(cfg, start, Concurrency.Step(cfg, sys, schedule[0]), schedule[1..], base, now);
    }
  }

  lemma StartListed(cfg: Cfg, s: State, ts: seq<Thread>)
    requires Clean(cfg, s) && AllFresh(cfg, s, ts)
    ensures var index := IndexOf(s.disk.manifests);
            && Listed(index, index, ts, false)
            && (forall f :: f in index <==> f in s.files)
  {
    PersistedLookup(s.disk.manifests, FileDocs(s.files));
    assert forall f :: f in FileDocs(s.files) <==> f in s.files;
    hide IndexOf, Consistent, AllInPlay, Encodable;
    forall i | 0 <= i < |ts|
      ensures !ts[i].pc.Finished? && !ts[i].pc.Appending? && ts[i].id !in s.files && ts[i].id != INDEX
    {
      assert Fresh(cfg, s, ts[i]);
    }
  }

  /** In every interleaving of any number of threads ingesting new files, at every
      point: the index list keeps the files of the start, lists no file twice,
      and lists every file of a finished thread if and only if no thread has
      written the list over one that it had not read. */
  lemma IndexComplete(cfg: Cfg, start: State, ts: seq<Thread>, schedule: seq<nat>)
    requires Clean(cfg, start) && Balanced(start) && NoOrphans(start) && AllFresh(cfg, start, ts) && LawfulCodec(cfg)
    ensures var sys := Concurrency.Run(cfg, Sys(start, ts, []), schedule);
            var index := IndexOf(sys.s.disk.manifests);
            && NoDup(index) && (forall f :: f in start.files ==> f in index)
            && (forall f :: f in index ==> f in start.files || FinishedId(sys.threads, f))
            && ((forall f :: FinishedId(sys.threads, f) ==> f in index) <==>
                !Overwrites(cfg, Sys(start, ts, []), schedule))
  {
    var sys, base := Sys(start, ts, []), IndexOf(start.disk.manifests);
    StartInv(cfg, start, ts);
    StartListed(cfg, start, ts);
    RunListed(cfg, start, sys, schedule, base, false);
    hide Inv, Clean, Balanced, NoOrphans, AllFresh, LawfulCodec, IndexOf, Overwrites, Concurrency.Run, FinishedId;
  }

  // ----- The records, and the store at the end

  ghost predicate RecordedId(ts: seq<Thread>, f: string) {
    exists i :: 0 <= i < |ts| && Recorded(ts[i]) && ts[i].id == f
  }

  /** The records are those of the start and those that the threads have put. */
  ghost predicate RecordsKept(m0: map<string, Doc>, m: map<string, Doc>, ts: seq<Thread>) {
    forall f :: f != INDEX ==>
      && (f in m <==> f in m0 || RecordedId(ts, f))
      && (f in m0 && !RecordedId(ts, f) ==> m[f] == m0[f])
  }

  /** A step changes no record but the thread's own, and that only to put it. */
  ghost predicate OwnRecord(m: map<string, Doc>, m': map<string, Doc>, t: Thread, t': Thread) {
    && t'.id == t.id && (Recorded(t) ==> Recorded(t'))
    && m' - {t.id, INDEX} == m - {t.id, INDEX}
    && (if Recorded(t') then t.id in m' else m' == m)
  }

  lemma PutOwnRecord(cfg: Cfg, s: State, t: Thread)
    requires t.todo != [] && t.pc.Ready?
    ensures var o := PutStep(cfg, s, t); OwnRecord(s.disk.manifests, o.0.disk.manifests, t, o.1)
  {
    hide BlobStep, Current, Encode;
    if Encode(cfg, t.todo[0]).Some? {
      BlobStepEffect(s, Current(cfg, t), Encode(cfg, t.todo[0]).value);
    }
  }

  lemma IncrementOwnRecord(cfg: Cfg, s: State, t: Thread)
    requires t.todo != [] && t.pc.Counting?
    ensures var o := IncrementStep(cfg, s, t); OwnRecord(s.disk.manifests, o.0.disk.manifests, t, o.1)
  {
    hide CountStep, Current;
    CountStepFiles(s, Current(cfg, t), |t.todo[0]|);
  }

  lemma AcceptOwnRecord(cfg: Cfg, s: State, t: Thread)
    requires t.todo != []
    ensures t.pc.Ready? ==> var o := PutStep(cfg, s, t); OwnRecord(s.disk.manifests, o.0.disk.manifests, t, o.1)
    ensures t.pc.Counting? ==>
              var o := IncrementStep(cfg, s, t); OwnRecord(s.disk.manifests, o.0.disk.manifests, t, o.1)
    ensures t.pc.Tallying? ==>
              var o := TallyStep(cfg, s, t); OwnRecord(s.disk.manifests, o.0.disk.manifests, t, o.1)
  {
    hide PutStep, IncrementStep, Current;
    if t.pc.Ready? {
      PutOwnRecord(cfg, s, t);
    } else if t.pc.Counting? {
      IncrementOwnRecord(cfg, s, t);
    }
  }

  lemma CommitOwnRecord(s: State, t: Thread)
    requires s.disk.plan.Never? && IndexReadable(s.disk.manifests) && t.id != INDEX
    requires Recorded(t) ==> t.id in s.disk.manifests
    ensures t.pc.Ready? ==> var o := InsertStep(s, t); OwnRecord(s.disk.manifests, o.0.disk.manifests, t, o.1)
    ensures t.pc.Saving? ==> var o := SaveStep(s, t); OwnRecord(s.disk.manifests, o.0.disk.manifests, t, o.1)
    ensures t.pc.Listing? ==> var o := ListStep(s, t); OwnRecord(s.disk.manifests, o.0.disk.manifests, t, o.1)
    ensures t.pc.Appending? ==> var o := AppendStep(s, t); OwnRecord(s.disk.manifests, o.0.disk.manifests, t, o.1)
  {
    var m, doc := s.disk.manifests, ManifestDoc(t.accepted, t.fileBytes);
    assert m[t.id := doc] - {t.id, INDEX} == m - {t.id, INDEX};
    if t.pc.Appending? {
      assert m[INDEX := List(t.pc.index + [t.id])] - {t.id, INDEX} == m - {t.id, INDEX};
    }
  }

  lemma StepOwnRecord(cfg: Cfg, start: State, sys: Sys, i: nat)
    requires Inv(cfg, start, sys) && i < |sys.threads| && !sys.threads[i].pc.Finished?
    ensures var t := sys.threads[i];
            var u := Concurrency.Step(cfg, sys, i);
            && |u.threads| == |sys.threads| && u.threads == sys.threads[i := u.threads[i]]
            && OwnRecord(sys.s.disk.manifests, u.s.disk.manifests, t, u.threads[i])
  {
    hide Inv, ValidId, PutStep, IncrementStep, TallyStep, InsertStep, SaveStep, ListStep, AppendStep, IndexReadable;
    hide OwnRecord, Recorded;
    var s, t := sys.s, sys.threads[i];
    SaveFacts(cfg, start, sys, i);
    NotIndexId(t);
    assert sys.threads[i := t] == sys.threads;
    StillOwnRecord(s.disk.manifests, t);
    CommitOwnRecord(s, t);
    if t.todo != [] {
      AcceptOwnRecord(cfg, s, t);
    }
  }

  lemma StillOwnRecord(m: map<string, Doc>, t: Thread)
    requires Recorded(t) ==> t.id in m
    ensures OwnRecord(m, m, t, t)
  {
  }

  lemma RecordedUpdate(ts: seq<Thread>, i: nat, t: Thread, f: string)
    requires i < |ts| && t.id == ts[i].id && (Recorded(ts[i]) ==> Recorded(t))
    ensures RecordedId(ts[i := t], f) <==> RecordedId(ts, f) || (f == t.id && Recorded(t))
  {
    var us := ts[i := t];
    if RecordedId(ts, f) {
      var j :| 0 <= j < |ts| && Recorded(ts[j]) && ts[j].id == f;
      assert Recorded(us[j]) && us[j].id == f;
    }
    if RecordedId(us, f) {
      var j :| 0 <= j < |us| && Recorded(us[j]) && us[j].id == f;
      assert j != i ==> Recorded(ts[j]) && ts[j].id == f;
    }
    if f == t.id && Recorded(t) {
      assert Recorded(us[i]) && us[i].id == f;
    }
  }

  lemma OwnRecordKeeps(m0: map<string, Doc>, m: map<string, Doc>, m': map<string, Doc>, ts: seq<Thread>, i: nat,
                       t: Thread)
    requires RecordsKept(m0, m, ts) && i < |ts| && OwnRecord(m, m', ts[i], t)
    ensures RecordsKept(m0, m', ts[i := t])
  {
    hide RecordedId;
    forall f | f != INDEX
      ensures f in m' <==> f in m0 || RecordedId(ts[i := t], f)
      ensures f in m0 && !RecordedId(ts[i := t], f) ==> m'[f] == m0[f]
    {
      RecordedUpdate(ts, i, t, f);
      if f != t.id {
        assert f in m' <==> f in m' - {t.id, INDEX};
        assert f in m <==> f in m - {t.id, INDEX};
        assert f in m ==> m[f] == (m - {t.id, INDEX})[f];
        assert f in m' ==> m'[f] == (m' - {t.id, INDEX})[f];
      }
    }
  }

  lemma {:induction false} RunRecordsKept(cfg: Cfg, start: State, sys: Sys, schedule: seq<nat>, m0: map<string, Doc>)
    requires Inv(cfg, start, sys) && LawfulCodec(cfg) && RecordsKept(m0, sys.s.disk.manifests, sys.threads)
    ensures var u := Concurrency.Run(cfg, sys, schedule);
            RecordsKept(m0, u.s.disk.manifests, u.threads)
    decreases |schedule|
  {
    hide Inv, LawfulCodec, RecordsKept, Concurrency.Step, OwnRecord;
    if schedule != [] {
      var i := schedule[0];
      StepKeeps(cfg, start, sys, i);
      var u := Concurrency.Step(cfg, sys, i);
      if i < |sys.threads| && !sys.threads[i].pc.Finished? {
        StepOwnRecord(cfg, start, sys, i);
        OwnRecordKeeps(m0, sys.s.disk.manifests, u.s.disk.manifests, sys.threads, i, u.threads[i]);
      } else {
        IdleStep(cfg, sys, i);
      }
      RunRecordsKept(cfg, start, u, schedule[1..], m0);
    }
  }

  lemma DoneIds(ts: seq<Thread>, f: string)
    requires AllDone(ts)
    ensures RecordedId(ts, f) <==> FinishedId(ts, f)
    ensures FinishedId(ts, f) <==> exists i :: 0 <= i < |ts| && ts[i].id == f
  {
  }

  /** With the list complete, the manifest family holds exactly the files. */
  lemma PersistedIff(m: map<string, Doc>, docs: map<string, Doc>)
    requires INDEX !in docs && IndexReadable(m) && NoDup(IndexOf(m))
    requires forall f :: f != INDEX ==> (f in m <==> f in docs)
    requires forall f :: f in docs ==> f in m && m[f] == docs[f]
    ensures (forall f :: f in IndexOf(m) <==> f in docs) <==> Persisted(m, docs)
  {
    hide IndexOf, IndexReadable, NoDup;
    assert m - {INDEX} == docs;
  }

  lemma CompletePersists(cfg: Cfg, start: State, s: State, ts: seq<Thread>)
    requires Persisted(start.disk.manifests, FileDocs(start.files)) &&
             RecordsKept(start.disk.manifests, s.disk.manifests, ts)
    requires AllDone(ts) && IndexReadable(s.disk.manifests) && NoDup(IndexOf(s.disk.manifests))
    requires forall f :: f in s.files <==> f in start.files || FinishedId(ts, f)
    requires forall f :: f in start.files ==> s.files[f] == start.files[f] && !FinishedId(ts, f)
    requires forall f :: FinishedId(ts, f) ==>
               f != INDEX && f in s.disk.manifests &&
               s.disk.manifests[f] == ManifestDoc(s.files[f].digests, s.files[f].fileBytes)
    ensures (forall f :: f in IndexOf(s.disk.manifests) <==> f in s.files) <==>
            Persisted(s.disk.manifests, FileDocs(s.files))
  {
    var m0, m, docs := start.disk.manifests, s.disk.manifests, FileDocs(s.files);
    PersistedLookup(m0, FileDocs(start.files));
    assert INDEX !in FileDocs(start.files) && m0 - {INDEX} == FileDocs(start.files);
    forall f ensures RecordedId(ts, f) <==> FinishedId(ts, f) {
      DoneIds(ts, f);
    }
    hide FinishedId, RecordedId, AllDone, IndexOf, IndexReadable, NoDup;
    forall f | f != INDEX ensures f in m <==> f in docs {
      assert f in m0 <==> f in m0 - {INDEX};
      assert f in FileDocs(start.files) <==> f in start.files;
      assert f in docs <==> f in s.files;
    }
    forall f | f in docs ensures f in m && m[f] == docs[f] && f != INDEX {
      if f in start.files {
        assert f in FileDocs(start.files);
      }
    }
    PersistedIff(m, docs);
  }

  /** What the invariant says of the files when every thread is done. */
  lemma DoneFiles(cfg: Cfg, start: State, sys: Sys, base: seq<string>, lost: bool)
    requires Inv(cfg, start, sys) && AllDone(sys.threads)
    requires Listed(base, IndexOf(sys.s.disk.manifests), sys.threads, lost)
    requires forall f :: f in base <==> f in start.files
    ensures var s, ts := sys.s, sys.threads;
            && (forall f :: f in s.files <==> f in start.files || FinishedId(ts, f))
            && (forall f :: f in start.files ==> s.files[f] == start.files[f] && !FinishedId(ts, f))
            && (forall f :: FinishedId(ts, f) ==>
                 && ValidId(f) && f in s.disk.manifests
                 && s.disk.manifests[f] == ManifestDoc(s.files[f].digests, s.files[f].fileBytes)
                 && s.files[f].fileBytes == |Meaning(cfg, s.files[f].digests)|)
  {
    var s, ts := sys.s, sys.threads;
    assert FilesKept(start, s, ts) && AllSound(cfg, s, ts) && NewIds(base, ts);
    hide Inv, Listed, Meaning, DigestsOf, Concat, IndexOf;
    forall i | 0 <= i < |ts|
      ensures ts[i].id in s.files && ts[i].id !in start.files && ValidId(ts[i].id) && ts[i].id in s.disk.manifests
      ensures var rec := s.files[ts[i].id];
              && s.disk.manifests[ts[i].id] == ManifestDoc(rec.digests, rec.fileBytes)
              && rec.fileBytes == |Meaning(cfg, rec.digests)|
    {
      assert Sound(cfg, s, ts[i]) && ts[i].pc.Finished?;
      MeaningOfChunks(cfg, ts[i].chunks);
    }
    hide AllSound, ValidId;
    forall f | f in s.files && f !in start.files ensures FinishedId(ts, f) {
      var i :| 0 <= i < |ts| && ts[i].id == f && Inserted(ts[i]);
      assert ts[i].pc.Finished?;
    }
  }

  lemma DoneSized(cfg: Cfg, start: State, s: State, ts: seq<Thread>)
    requires FilesSized(cfg, start.files) && "" !in start.files
    requires forall f :: f in s.files <==> f in start.files || FinishedId(ts, f)
    requires forall f :: f in start.files ==> s.files[f] == start.files[f]
    requires forall f :: FinishedId(ts, f) ==> ValidId(f) && s.files[f].fileBytes == |Meaning(cfg, s.files[f].digests)|
    ensures FilesSized(cfg, s.files) && "" !in s.files
  {
    hide FinishedId, Meaning;
  }

  lemma LedgerConsistent(cfg: Cfg, s: State, pending: multiset<string>)
    requires Ledger(cfg, s, pending) && Counted(s.files, s.refs, multiset{})
    requires FilesSized(cfg, s.files) && "" !in s.files
    ensures Clean(cfg, s) <==> Persisted(s.disk.manifests, FileDocs(s.files))
  {
    hide Counted, Persisted, FilesSized, Backed, BlobsGood;
  }

  lemma CleanParts(cfg: Cfg, s: State)
    requires Clean(cfg, s)
    ensures Persisted(s.disk.manifests, FileDocs(s.files)) && FilesSized(cfg, s.files) && "" !in s.files
  {
  }

  lemma InvLedger(cfg: Cfg, start: State, sys: Sys)
    requires Inv(cfg, start, sys)
    ensures Ledger(cfg, sys.s, AllMine(cfg, sys.threads)) && IndexReadable(sys.s.disk.manifests)
  {
    hide Persisted, Counted, Backed, BlobsGood, NoLostBlobs, AllSound, FilesKept, PutOnce, Settled, AllMine;
  }

  lemma StartRecords(cfg: Cfg, s: State, ts: seq<Thread>)
    requires AllFresh(cfg, s, ts)
    ensures RecordsKept(s.disk.manifests, s.disk.manifests, ts)
  {
    forall i | 0 <= i < |ts| ensures !Recorded(ts[i]) {
      assert Fresh(cfg, s, ts[i]);
    }
  }

  lemma CompleteIff(base: seq<string>, index: seq<string>, files: set<string>, ts: seq<Thread>, lost: bool)
    requires Listed(base, index, ts, lost)
    requires forall f :: f in files <==> f in base || FinishedId(ts, f)
    ensures NoDup(index)
    ensures (forall f :: f in index <==> f in files) <==> !lost
    ensures lost ==> exists f :: FinishedId(ts, f) && f !in index
  {
    hide FinishedId;
  }

  /** When every thread is done, the store and its backend are in the state that
      failure-free operation leaves, which opens to the same store, if and only
      if no list was overwritten. Otherwise the next open does not load some
      thread's file. */
  lemma QuiescentIsClean(cfg: Cfg, start: State, ts: seq<Thread>, schedule: seq<nat>)
    requires Clean(cfg, start) && Balanced(start) && NoOrphans(start) && AllFresh(cfg, start, ts) && LawfulCodec(cfg)
    requires AllDone(Concurrency.Run(cfg, Sys(start, ts, []), schedule).threads)
    ensures var sys := Concurrency.Run(cfg, Sys(start, ts, []), schedule);
            var lost := Overwrites(cfg, Sys(start, ts, []), schedule);
            && (Clean(cfg, sys.s) <==> !lost)
            && (lost ==> exists f :: FinishedId(sys.threads, f) && f !in IndexOf(sys.s.disk.manifests))
  {
    hide *;
    var sys0, base := Sys(start, ts, []), IndexOf(start.disk.manifests);
    var sys, lost := Concurrency.Run(cfg, sys0, schedule), Overwrites(cfg, sys0, schedule);
    StartInv(cfg, start, ts);
    StartListed(cfg, start, ts);
    StartRecords(cfg, start, ts);
    RunKeeps(cfg, start, sys0, schedule);
    RunListed(cfg, start, sys0, schedule, base, false);
    RunRecordsKept(cfg, start, sys0, schedule, start.disk.manifests);
    CleanParts(cfg, start);
    DoneFiles(cfg, start, sys, base, lost);
    CompleteIff(base, IndexOf(sys.s.disk.manifests), sys.s.files.Keys, sys.threads, lost);
    InvLedger(cfg, start, sys);
    QuiescentInv(cfg, start, sys);
    NotIndexIds(sys.threads);
    CompletePersists(cfg, start, sys.s, sys.threads);
    DoneSized(cfg, start, sys.s, sys.threads);
    LedgerConsistent(cfg, sys.s, AllMine(cfg, sys.threads));
  }

  lemma NotIndexIds(ts: seq<Thread>)
    ensures forall f :: FinishedId(ts, f) && ValidId(f) ==> f != INDEX
  {
  }
}
