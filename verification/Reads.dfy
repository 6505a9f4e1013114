/** Reads from a backend that may hold anything, and the ids an ingest accepts. */
module Reads {
  import opened Types
  import opened Hashing
  import opened DiskSpec
  import opened StoreSpec
  import opened Counting
  import opened Records
  import opened Invariants
  import opened ExactOps
  import opened ExactRelease
  import opened Refinement

  // ----- How a read ends

  /** What a blob is decoded to: itself when there is no codec. */
  function Plaintext(cfg: Cfg, blob: Bytes): Option<Bytes> {
    match cfg.codec
    case None => Some(blob)
    case Some(c) => c.decode(blob)
  }

  /** What is wrong with the chunk stored under a digest, if anything is. */
  ghost function Damage(cfg: Cfg, blobs: map<string, Bytes>, d: string): Option<Error> {
    if d !in blobs then Some(NotFound)
    else if Plaintext(cfg, blobs[d]).None? then Some(CodecFailed)
    else if !Denotes(d, cfg.sha(Plaintext(cfg, blobs[d]).value)) then Some(DigestMismatch)
    else None
  }

  /** The payloads of the first `k` chunks. */
  ghost function Payloads(cfg: Cfg, blobs: map<string, Bytes>, digests: seq<string>, k: nat): Bytes
    requires k <= |digests| && forall i :: 0 <= i < k ==> Damage(cfg, blobs, digests[i]).None?
  {
    if k == 0 then [] else
    assert Damage(cfg, blobs, digests[0]).None?;
    Plaintext(cfg, blobs[digests[0]]).value + Payloads(cfg, blobs, digests[1..], k - 1)
  }

  /** A read of these chunks stops at number `k`: the first that is damaged, if
      the backend does not fail before, and the number of chunks if none is. */
  ghost predicate StopsAt(cfg: Cfg, b: Disk, digests: seq<string>, k: nat) {
    && k <= |digests| && (forall i :: 0 <= i < k ==> Damage(cfg, b.blobs, digests[i]).None?)
    && (b.plan.After? ==> k <= b.plan.calls)
    && (k < |digests| ==> b.plan == After(k) || Damage(cfg, b.blobs, digests[k]).Some?)
  }

  lemma ReadChunkIs(cfg: Cfg, b: Disk, d: string)
    ensures var o, damage := ReadChunk(cfg, b, d), Damage(cfg, b.blobs, d);
            && (Down(b) ==> o == Fail(b, Fault))
            && (!Down(b) && damage.Some? ==> o == Fail(Spend(b), damage.value))
            && (!Down(b) && damage.None? ==> o == Done(Spend(b), Plaintext(cfg, b.blobs[d]).value))
  {
    if d in b.blobs && Plaintext(cfg, b.blobs[d]).Some? {
      DigestDenotes(cfg, Plaintext(cfg, b.blobs[d]).value, d);
    }
    hide Denotes, Hex;
  }

  lemma StopsOneMore(cfg: Cfg, b: Disk, digests: seq<string>, j: nat)
    requires digests != [] && !Down(b) && Damage(cfg, b.blobs, digests[0]).None?
    requires StopsAt(cfg, Spend(b), digests[1..], j)
    ensures StopsAt(cfg, b, digests, j + 1)
    ensures j < |digests[1..]| ==> digests[j + 1] == digests[1..][j]
    ensures b.plan == After(j + 1) <==> Spend(b).plan == After(j)
  {
    hide Damage;
    forall i | 0 <= i < j + 1 ensures Damage(cfg, b.blobs, digests[i]).None? {
      assert i > 0 ==> digests[i] == digests[1..][i - 1];
    }
  }

  /** What a read that stops at number `k` comes to. */
  ghost predicate EndsAt(cfg: Cfg, b: Disk, digests: seq<string>, written: Bytes, o: Out<(Disk, Bytes), ()>, k: nat)
    requires StopsAt(cfg, b, digests, k)
  {
    && o.s.1 == written + Payloads(cfg, b.blobs, digests, k)
    && (k == |digests| ==> o.Done?)
    && (k < |digests| ==>
          o.Fail? && o.e == if b.plan == After(k) then Fault else Damage(cfg, b.blobs, digests[k]).value)
  }

  lemma EndsOneMore(cfg: Cfg, b: Disk, digests: seq<string>, written: Bytes, o: Out<(Disk, Bytes), ()>, j: nat)
    requires digests != [] && !Down(b) && Damage(cfg, b.blobs, digests[0]).None?
    requires StopsAt(cfg, Spend(b), digests[1..], j)
    requires EndsAt(cfg, Spend(b), digests[1..], written + Plaintext(cfg, b.blobs[digests[0]]).value, o, j)
    ensures StopsAt(cfg, b, digests, j + 1) && EndsAt(cfg, b, digests, written, o, j + 1)
  {
    StopsOneMore(cfg, b, digests, j);
    assert Spend(b).blobs == b.blobs;
    hide Damage, Plaintext, StopsAt, Spend;
    var payload, rest := Plaintext(cfg, b.blobs[digests[0]]).value, Payloads(cfg, b.blobs, digests[1..], j);
    assert (written + payload) + rest == written + (payload + rest);
  }

  lemma EndsHere(cfg: Cfg, b: Disk, digests: seq<string>, written: Bytes)
    requires digests == [] || Down(b) || Damage(cfg, b.blobs, digests[0]).Some?
    ensures StopsAt(cfg, b, digests, 0) && EndsAt(cfg, b, digests, written, ReadTo(cfg, b, digests, written), 0)
  {
    assert written + [] == written;
    if digests != [] {
      ReadChunkIs(cfg, b, digests[0]);
    }
    hide Damage, ReadChunk;
  }

  lemma ReadsOn(cfg: Cfg, b: Disk, digests: seq<string>, written: Bytes)
    requires digests != [] && !Down(b) && Damage(cfg, b.blobs, digests[0]).None?
    ensures digests[0] in b.blobs && Plaintext(cfg, b.blobs[digests[0]]).Some?
    ensures ReadTo(cfg, b, digests, written) ==
            ReadTo(cfg, Spend(b), digests[1..], written + Plaintext(cfg, b.blobs[digests[0]]).value)
  {
    ReadChunkIs(cfg, b, digests[0]);
    hide ReadChunk;
  }

  /** Where a read stops, what has been written then, and how it ends: with Fault
      when the backend fails; with NotFound when the chunk's blob is not there, with
      CodecFailed when it cannot be decoded, and with DigestMismatch when it
      decodes to a payload with another digest. Nothing is assumed of the blobs. */
  lemma {:induction false} ReadToEnds(cfg: Cfg, b: Disk, digests: seq<string>, written: Bytes) returns (k: nat)
    ensures StopsAt(cfg, b, digests, k)
    ensures EndsAt(cfg, b, digests, written, ReadTo(cfg, b, digests, written), k)
    decreases |digests|
  {
    hide Damage, Plaintext, ReadTo, StopsAt, EndsAt, Spend, Down;
    if digests == [] || Down(b) || Damage(cfg, b.blobs, digests[0]).Some? {
      EndsHere(cfg, b, digests, written);
      k := 0;
    } else {
      ReadsOn(cfg, b, digests, written);
      var next := written + Plaintext(cfg, b.blobs[digests[0]]).value;
      var j := ReadToEnds(cfg, Spend(b), digests[1..], next);
      EndsOneMore(cfg, b, digests, written, ReadTo(cfg, b, digests, written), j);
      k := j + 1;
    }
  }

  /** There is one such place. */
  lemma StopsOnce(cfg: Cfg, b: Disk, digests: seq<string>, k: nat, j: nat)
    requires StopsAt(cfg, b, digests, k) && StopsAt(cfg, b, digests, j)
    ensures k == j
  {
    hide Damage;
  }

  /** How a read on a backend that does not fail ends. An absent file is not
      found; otherwise the first damaged chunk decides, and if there is none the
      read returns the payloads in order. */
  lemma ReadEnds(cfg: Cfg, s: State, id: string, k: nat)
    requires s.disk.plan.Never? && (id in s.files ==> StopsAt(cfg, s.disk, s.files[id].digests, k))
    ensures var o := Read(cfg, s, id);
            && (id !in s.files ==> o == Fail(s, NotFound))
            && (id in s.files ==>
                  var digests := s.files[id].digests;
                  && (k == |digests| ==> o.Done? && o.v == Payloads(cfg, s.disk.blobs, digests, k))
                  && (k < |digests| ==> o.Fail? && o.e == Damage(cfg, s.disk.blobs, digests[k]).value))
  {
    hide ReadTo, Damage;
    if id in s.files {
      var digests := s.files[id].digests;
      var j := ReadToEnds(cfg, s.disk, digests, []);
      StopsOnce(cfg, s.disk, digests, k, j);
      assert [] + Payloads(cfg, s.disk.blobs, digests, k) == Payloads(cfg, s.disk.blobs, digests, k);
    }
  }

  // ----- What a read returns

  /** No blob on the backend decodes to a second payload with one of these
      digests. Nothing else is assumed of the blobs. */
  ghost predicate Unforged(cfg: Cfg, blobs: map<string, Bytes>, digests: seq<string>) {
    forall n :: n in blobs && Decode(cfg, blobs[n]).Some? &&
                DigestHex(cfg, Decode(cfg, blobs[n]).value) in digests
                ==> InPlay(cfg, Decode(cfg, blobs[n]).value)
  }

  lemma ReadChunkVerified(cfg: Cfg, b: Disk, digests: seq<string>)
    requires Unforged(cfg, b.blobs, digests) && digests != []
    ensures var o := ReadChunk(cfg, b, digests[0]);
            o.Done? ==> o.v == cfg.plain(digests[0]) && Unforged(cfg, o.s.blobs, digests[1..])
  {
    hide IsChunkDigest, Hex;
    assert digests[0] in digests;
    assert digests == [digests[0]] + digests[1..];
  }

  /** Whatever the blobs are and whatever call fails, what has been written is
      a prefix of the file's bytes that ends on a chunk boundary; a read that
      completes has written all of them. `k` is the number of chunks written. */
  lemma {:induction false} ReadToVerified(cfg: Cfg, b: Disk, digests: seq<string>, written: Bytes) returns (k: nat)
    requires Unforged(cfg, b.blobs, digests)
    ensures var o := ReadTo(cfg, b, digests, written);
            && k <= |digests|
            && o.s.1 == written + Meaning(cfg, digests[..k])
            && (o.Done? <==> k == |digests|)
    decreases |digests|
  {
    hide IsChunkDigest, Hex;
    if digests == [] {
      k := 0;
      assert written + Meaning(cfg, []) == written;
    } else {
      var o := ReadChunk(cfg, b, digests[0]);
      if o.Fail? {
        k := 0;
        assert digests[..0] == [];
        assert written + Meaning(cfg, []) == written;
      } else {
        ReadChunkVerified(cfg, b, digests);
        hide ReadChunk, Decode, InPlay;
        var j := ReadToVerified(cfg, o.s, digests[1..], written + o.v);
        k := j + 1;
        assert digests[..k][0] == digests[0] && digests[..k][1..] == digests[1..][..j];
        assert (written + o.v) + Meaning(cfg, digests[1..][..j]) == written + Meaning(cfg, digests[..k]);
      }
    }
  }

  /** A read fails or returns the bytes that were ingested. */
  lemma ReadVerified(cfg: Cfg, s: State, id: string)
    requires id in s.files ==> Unforged(cfg, s.disk.blobs, s.files[id].digests)
    ensures var o := Read(cfg, s, id);
            o.Done? ==> id in s.files && o.v == Meaning(cfg, s.files[id].digests)
  {
    hide ReadTo, Unforged;
    if id in s.files {
      var digests := s.files[id].digests;
      var k := ReadToVerified(cfg, s.disk, digests, []);
      assert digests[..|digests|] == digests;
      assert [] + Meaning(cfg, digests[..k]) == Meaning(cfg, digests[..k]);
    }
  }

  // ----- Which ids can be ingested

  lemma AcceptedPending(cfg: Cfg, s: State, chunks: seq<Bytes>)
    requires Clean(cfg, s) && LawfulCodec(cfg) && Ingestible(cfg, chunks)
    ensures var o := AcceptAll(cfg, s, chunks);
            && o.Done? && o.v == DigestsOf(cfg, chunks) && SameFiles(s, o.s) && o.s.disk.plan.Never?
            && Consistent(cfg, o.s, multiset(DigestsOf(cfg, chunks)))
            && AllDigests(o.v) && IndexReadable(o.s.disk.manifests)
  {
    hide Consistent, AcceptAll, AllInPlay, Encodable, LawfulCodec, AllDigests;
    AcceptAllExact(cfg, s, chunks, multiset{});
    var o := AcceptAll(cfg, s, chunks);
    assert multiset{} + multiset(o.v) == multiset(o.v);
    PendingDigests(cfg, o.s, o.v, multiset{});
  }

  /** The empty id is refused only at commit: the references of the session stay
      counted, exactly, and nothing else has changed. */
  lemma EmptyIdLeaks(cfg: Cfg, s: State, chunks: seq<Bytes>)
    requires Clean(cfg, s) && LawfulCodec(cfg) && Ingestible(cfg, chunks)
    ensures var o := Ingest(cfg, s, "", chunks);
            && o == Fail(AcceptAll(cfg, s, chunks).s, InvalidArgument)
            && SameFiles(s, o.s)
            && Consistent(cfg, o.s, multiset(DigestsOf(cfg, chunks)))
  {
    hide Consistent, AcceptAll, Ingestible, LawfulCodec, AllDigests;
    AcceptedPending(cfg, s, chunks);
  }

  lemma PublishReserved(s: State, digests: seq<string>, fileBytes: nat)
    requires s.disk.plan.Never? && AllDigests(digests)
    ensures var o := Publish(s, INDEX, digests, fileBytes);
            && o.Fail? && o.e == Corrupt
            && INDEX in o.s.disk.manifests && o.s.disk.manifests[INDEX].ManifestDoc?
  {
    assert INDEX != "";
  }

  lemma CorruptIndexStopsOpen(cfg: Cfg, b: Disk, stale: seq<string>, order: seq<string>)
    requires INDEX in b.manifests && b.manifests[INDEX].ManifestDoc?
    ensures Open(cfg, b, stale, order).Fail?
  {
    hide LoadFiles, LoadRefcounts, Backfill, RebuildStats;
  }

  /** The id that is the name of the index overwrites the index list with a
      manifest; the ingest fails, and the store can no longer be opened. */
  lemma ReservedIdBreaksIndex(cfg: Cfg, s: State, chunks: seq<Bytes>, stale: seq<string>, order: seq<string>)
    requires Clean(cfg, s) && LawfulCodec(cfg) && Ingestible(cfg, chunks)
    ensures var o := Ingest(cfg, s, INDEX, chunks);
            && o.Fail? && o.e == Corrupt
            && Open(cfg, o.s.disk, stale, order).Fail?
  {
    hide Consistent, AcceptAll, Ingestible, LawfulCodec, AllDigests, Publish, ReleaseAll, Open;
    AcceptedPending(cfg, s, chunks);
    var o1 := AcceptAll(cfg, s, chunks);
    PublishReserved(o1.s, o1.v, |Concat(chunks)|);
    CorruptIndexStopsOpen(cfg, Ingest(cfg, s, INDEX, chunks).s.disk, stale, order);
  }

  /** From a store between operations, an ingest succeeds if and only if its id
      is neither empty nor the name of the index. */
  lemma IngestsIffValidId(cfg: Cfg, s: State, id: string, chunks: seq<Bytes>)
    requires Clean(cfg, s) && LawfulCodec(cfg) && Ingestible(cfg, chunks)
    ensures Ingest(cfg, s, id, chunks).Done? <==> id != "" && id != INDEX
  {
    hide Consistent, Ingest, Ingestible, LawfulCodec;
    if ValidId(id) {
      IngestRefines(cfg, s, id, chunks);
    } else if id == "" {
      EmptyIdLeaks(cfg, s, chunks);
    } else {
      ReservedIdBreaksIndex(cfg, s, chunks, [], []);
    }
  }
}
