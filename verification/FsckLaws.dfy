/** What `fsck` reports and repairs. */
module FsckLaws {
  import opened Types
  import opened Hashing
  import opened DiskSpec
  import opened KeyNames
  import opened StoreSpec
  import opened Counting
  import opened Invariants

  /** A digest-shaped blob key without a count. */
  ghost predicate IsOrphan(s: State, d: string) {
    d in s.disk.blobs && IsChunkDigest(d) && d !in s.refs
  }

  lemma {:induction false} FindMissingResult(b: Disk, live: seq<string>)
    requires b.plan.Never?
    ensures var o := FindMissing(b, live);
            && o.Done? && o.s == b && (forall d :: d in o.v <==> d in live && d !in b.blobs)
            && (NoDup(live) ==> NoDup(o.v))
    decreases |live|
  {
    if live != [] {
      FindMissingResult(b, live[1..]);
      assert live == [live[0]] + live[1..];
      assert NoDup(live) ==> NoDup(live[1..]) && live[0] !in live[1..];
    }
  }

  lemma {:induction false} OrphansAmongFacts(names: seq<string>, live: seq<string>)
    ensures forall d :: d in OrphansAmong(names, live) <==> d in names && IsChunkDigest(d) && d !in live
    ensures DigestsOnce(names) ==> NoDup(OrphansAmong(names, live))
    decreases |names|
  {
    hide IsChunkDigest;
    if names != [] {
      OrphansAmongFacts(names[1..], live);
      assert names == [names[0]] + names[1..];
      var rest := OrphansAmong(names[1..], live);
      if DigestsOnce(names) {
        assert IsChunkDigest(names[0]) ==> names[0] !in names[1..];
        assert IsChunkDigest(names[0]) ==> names[0] !in rest;
      }
    }
  }

  lemma {:induction false} DeleteBlobsResult(b: Disk, names: seq<string>)
    requires b.plan.Never?
    ensures DeleteBlobs(b, names) == Done(b.(blobs := b.blobs - (set d | d in names)), ())
    decreases |names|
  {
    if names == [] {
      assert b.blobs - (set d | d in names) == b.blobs;
    } else {
      DeleteBlobsResult(b.(blobs := b.blobs - {names[0]}), names[1..]);
      assert names == [names[0]] + names[1..];
      assert (set d | d in names) == {names[0]} + (set d | d in names[1..]);
      assert b.blobs - {names[0]} - (set d | d in names[1..]) == b.blobs - (set d | d in names);
    }
  }

  /** A listed name of digest shape is a blob key. */
  lemma DigestNamesAreBlobs(b: Disk, name: string)
    requires IsChunkDigest(name)
    ensures IsStored(b, name) <==> name in b.blobs
  {
    if IsStored(b, name) && name !in b.blobs {
      forall sp: Space, id: string ensures name != Name(DocKey(sp, id)) {
        PrefixedIsNotADigest(sp, id);
      }
      assert false;
    }
  }

  /** A listing has the blob keys and the two families of metadata keys, and
      nothing else. */
  lemma ListingTexts(names: seq<string>, b: Disk)
    requires IsNameListing(names, b)
    ensures forall d :: d in b.blobs ==> d in names
    ensures forall id :: id in b.manifests ==> "_manifest/" + id in names
    ensures forall id :: id in b.refcounts ==> "_refcount/" + id in names
    ensures forall n :: n in names && n !in b.blobs ==>
              || (|n| >= 10 && n[..10] == "_manifest/" && n[10..] in b.manifests)
              || (|n| >= 10 && n[..10] == "_refcount/" && n[10..] in b.refcounts)
  {
    hide DigestsOnce;
    forall id | id in b.manifests ensures "_manifest/" + id in names {
      assert IsStored(b, Name(DocKey(Manifests, id)));
    }
    forall id | id in b.refcounts ensures "_refcount/" + id in names {
      assert IsStored(b, Name(DocKey(Refcounts, id)));
    }
    forall d | d in b.blobs ensures d in names {
      assert IsStored(b, d);
    }
    forall n | n in names && n !in b.blobs
      ensures || (|n| >= 10 && n[..10] == "_manifest/" && n[10..] in b.manifests)
              || (|n| >= 10 && n[..10] == "_refcount/" && n[10..] in b.refcounts)
    {
      assert IsStored(b, n);
    }
  }

  /** The report: missing are exactly the counted digests without a blob,
      orphans exactly the digest-shaped blob keys without a count. A repair
      removes the orphans, and nothing else on the backend or in memory. */
  lemma FsckRepairs(s: State, repair: bool, live: seq<string>, names: seq<string>)
    requires s.disk.plan.Never? && IsListing(live, s.refs.Keys) && IsNameListing(names, s.disk)
    ensures var o := Fsck(s, repair, live, Some(names));
            && o.Done?
            && NoDup(o.v.missing) && (forall d :: d in o.v.missing <==> d in s.refs && d !in s.disk.blobs)
            && NoDup(o.v.orphans) && (forall d :: d in o.v.orphans <==> IsOrphan(s, d))
            && o.s == (if repair then s.(disk := s.disk.(blobs := s.disk.blobs - (set d | d in o.v.orphans))) else s)
            && o.v.repaired == if repair then |o.v.orphans| else 0
  {
    hide IsChunkDigest, IsStored, FindMissing, DeleteBlobs, OrphansAmong;
    FindMissingResult(s.disk, live);
    OrphansAmongFacts(names, live);
    var orphans := OrphansAmong(names, live);
    DeleteBlobsResult(s.disk, orphans);
    forall d ensures d in orphans <==> IsOrphan(s, d) {
      if IsChunkDigest(d) {
        DigestNamesAreBlobs(s.disk, d);
      }
    }
  }

  /** On a backend that cannot list its keys the missing chunks are found all the
      same, no orphan is reported, and a repair does nothing. */
  lemma FsckWithoutListing(s: State, repair: bool, live: seq<string>)
    requires s.disk.plan.Never? && IsListing(live, s.refs.Keys)
    ensures var o := Fsck(s, repair, live, None);
            && o.Done? && o.s == s && o.v.orphans == [] && o.v.repaired == 0
            && NoDup(o.v.missing) && (forall d :: d in o.v.missing <==> d in s.refs && d !in s.disk.blobs)
  {
    hide FindMissing, NoDup;
    FindMissingResult(s.disk, live);
  }

  /** What is left of a list when some of it is taken out. */
  predicate Sublist(part: seq<string>, whole: seq<string>) {
    part == [] ||
    (whole != [] && (if part[0] == whole[0] then Sublist(part[1..], whole[1..]) else Sublist(part, whole[1..])))
  }

  lemma {:induction false} MissingInOrder(b: Disk, live: seq<string>)
    requires b.plan.Never?
    ensures FindMissing(b, live).Done? && Sublist(FindMissing(b, live).v, live)
    decreases |live|
  {
    if live != [] {
      MissingInOrder(b, live[1..]);
      FindMissingResult(b, live[1..]);
      var rest := FindMissing(b, live[1..]).v;
      if live[0] in b.blobs && rest != [] {
        assert rest[0] in rest && rest[0] !in b.blobs;
      }
    }
  }

  lemma {:induction false} OrphansInOrder(names: seq<string>, live: seq<string>)
    ensures Sublist(OrphansAmong(names, live), names)
    decreases |names|
  {
    hide IsChunkDigest;
    if names != [] {
      OrphansInOrder(names[1..], live);
      OrphansAmongFacts(names[1..], live);
      var rest := OrphansAmong(names[1..], live);
      if !(IsChunkDigest(names[0]) && names[0] !in live) && rest != [] {
        assert rest[0] in rest && rest[0] != names[0];
      }
    }
  }

  /** Both lists of the report keep the order of the scan. */
  lemma ReportInOrder(s: State, repair: bool, live: seq<string>, names: seq<string>)
    requires s.disk.plan.Never?
    ensures var o := Fsck(s, repair, live, Some(names));
            o.Done? && Sublist(o.v.missing, live) && Sublist(o.v.orphans, names)
  {
    hide FindMissing, DeleteBlobs, OrphansAmong, Sublist;
    FindMissingResult(s.disk, live);
    MissingInOrder(s.disk, live);
    OrphansInOrder(names, live);
    DeleteBlobsResult(s.disk, OrphansAmong(names, live));
  }

  /** A second run finds no orphans and repairs nothing. */
  lemma FsckIdempotent(s: State, live: seq<string>, names: seq<string>, live2: seq<string>, names2: seq<string>)
    requires s.disk.plan.Never? && IsListing(live, s.refs.Keys) && IsNameListing(names, s.disk)
    requires var s1 := Fsck(s, true, live, Some(names)).s;
             IsListing(live2, s1.refs.Keys) && IsNameListing(names2, s1.disk)
    ensures var o1 := Fsck(s, true, live, Some(names));
            var o2 := Fsck(o1.s, true, live2, Some(names2));
            && o1.Done? && o2.Done? && o2.s == o1.s && o2.v.orphans == [] && o2.v.repaired == 0
            && (forall d :: d in o2.v.missing <==> d in o1.v.missing)
  {
    hide Fsck, IsChunkDigest, IsListing, IsNameListing;
    FsckRepairs(s, true, live, names);
    var s1 := Fsck(s, true, live, Some(names)).s;
    FsckRepairs(s1, true, live2, names2);
    var o2 := Fsck(s1, true, live2, Some(names2));
    forall d ensures d !in o2.v.orphans {
      assert IsOrphan(s1, d) ==> IsOrphan(s, d);
    }
    EmptyOrMember(o2.v.orphans);
    assert s1.disk.blobs - (set d | d in o2.v.orphans) == s1.disk.blobs;
  }

  lemma EmptyOrMember(xs: seq<string>)
    ensures xs == [] || exists d :: d in xs
  {
    if xs != [] {
      assert xs[0] in xs;
    }
  }

  lemma {:induction false} ReadToSame(cfg: Cfg, b: Disk, b': Disk, digests: seq<string>, written: Bytes)
    requires b.plan == b'.plan == Never
    requires forall i :: 0 <= i < |digests| ==>
      (digests[i] in b.blobs <==> digests[i] in b'.blobs) &&
      (digests[i] in b.blobs ==> b.blobs[digests[i]] == b'.blobs[digests[i]])
    ensures var o, o' := ReadTo(cfg, b, digests, written), ReadTo(cfg, b', digests, written);
            && o.Done? == o'.Done? && o.s.1 == o'.s.1 && (o.Fail? ==> o.e == o'.e)
            && o.s.0 == b && o'.s.0 == b'
    decreases |digests|
  {
    if digests != [] {
      var o := ReadChunk(cfg, b, digests[0]);
      assert digests[0] in b.blobs ==> b.blobs[digests[0]] == b'.blobs[digests[0]];
      if o.Done? {
        ReadToSame(cfg, b, b', digests[1..], written + o.v);
      }
    }
  }

  /** When the counts cover the manifests, a repair changes no read, whether it
      succeeds or fails. */
  lemma FsckKeepsReads(cfg: Cfg, s: State, live: seq<string>, names: seq<string>, id: string)
    requires s.disk.plan.Never? && IsListing(live, s.refs.Keys) && IsNameListing(names, s.disk)
    requires Covers(s.files, s.refs, multiset{})
    ensures var s' := Fsck(s, true, live, Some(names)).s;
            var o, o' := Read(cfg, s, id), Read(cfg, s', id);
            && o.Done? == o'.Done? && (o.Done? ==> o.v == o'.v) && (o.Fail? ==> o.e == o'.e)
  {
    hide Fsck, IsChunkDigest, IsListing, IsNameListing, ReadTo;
    FsckRepairs(s, true, live, names);
    var s' := Fsck(s, true, live, Some(names)).s;
    if id in s.files {
      var digests := s.files[id].digests;
      forall i | 0 <= i < |digests| ensures !IsOrphan(s, digests[i]) {
        AllRefsMember(s.files, id, digests[i]);
        assert Count(s.refs, digests[i]) > 0;
      }
      ReadToSame(cfg, s.disk, s'.disk, digests, []);
    }
  }
}
