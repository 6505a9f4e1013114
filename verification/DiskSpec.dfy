/** The key-value backend as a value, and what core/src/store/persistence.rs does to it. */
module DiskSpec {
  import opened Types
  import opened Hashing

  /** Backend calls that still succeed. `After(n)` lets n calls through and
      then fails every call, each failure being without effect. An operation
      stops at its first failed call, so the values of n range over every
      point at which a call can fail, or the process can stop. */
  datatype Plan = Never | After(calls: nat)

  /** The two families of metadata keys, `_manifest/` and `_refcount/`. */
  datatype Space = Manifests | Refcounts

  datatype Key = BlobKey(name: string) | DocKey(space: Space, id: string)

  /** The stored keys, one map for each family. */
  datatype Disk = Disk(blobs: map<string, Bytes>, manifests: map<string, Doc>,
                       refcounts: map<string, Doc>, plan: Plan)

  /** The identifier under which each family keeps its index list. */
  const INDEX := "__index__"

  function Docs(b: Disk, sp: Space): map<string, Doc> {
    if sp.Manifests? then b.manifests else b.refcounts
  }

  function WithDocs(b: Disk, sp: Space, m: map<string, Doc>): Disk {
    if sp.Manifests? then b.(manifests := m) else b.(refcounts := m)
  }

  predicate Down(b: Disk) {
    b.plan == After(0)
  }

  function Spend(b: Disk): Disk {
    if b.plan.After? && b.plan.calls > 0 then b.(plan := After(b.plan.calls - 1)) else b
  }

  // ----- Backend calls

  function Exists(b: Disk, name: string): Out<Disk, bool> {
    if Down(b) then Fail(b, Fault) else Done(Spend(b), name in b.blobs)
  }

  function GetBlob(b: Disk, name: string): Out<Disk, Option<Bytes>> {
    if Down(b) then Fail(b, Fault)
    else Done(Spend(b), if name in b.blobs then Some(b.blobs[name]) else None)
  }

  function PutBlob(b: Disk, name: string, data: Bytes): Out<Disk, ()> {
    if Down(b) then Fail(b, Fault) else Done(Spend(b).(blobs := b.blobs[name := data]), ())
  }

  function DeleteBlob(b: Disk, name: string): Out<Disk, ()> {
    if Down(b) then Fail(b, Fault) else Done(Spend(b).(blobs := b.blobs - {name}), ())
  }

  function GetDoc(b: Disk, sp: Space, id: string): Out<Disk, Option<Doc>> {
    if Down(b) then Fail(b, Fault)
    else Done(Spend(b), if id in Docs(b, sp) then Some(Docs(b, sp)[id]) else None)
  }

  function PutDoc(b: Disk, sp: Space, id: string, doc: Doc): Out<Disk, ()> {
    if Down(b) then Fail(b, Fault)
    else Done(WithDocs(Spend(b), sp, Docs(b, sp)[id := doc]), ())
  }

  function DeleteDoc(b: Disk, sp: Space, id: string): Out<Disk, ()> {
    if Down(b) then Fail(b, Fault)
    else Done(WithDocs(Spend(b), sp, Docs(b, sp) - {id}), ())
  }

  // ----- Records with an index list

  /** `read_string_list`: an absent index is an empty list. */
  function ReadList(b: Disk, sp: Space): Out<Disk, seq<string>> {
    var (b1, found) :- GetDoc(b, sp, INDEX);
    match found
    case None => Done(b1, [])
    case Some(List(items)) => Done(b1, items)
    case _ => Fail(b1, Corrupt)
  }

  /** Puts the record, then appends its name to the index if it is not listed. */
  function SaveEntry(b: Disk, sp: Space, id: string, doc: Doc): Out<Disk, ()> {
    var (b1, _) :- PutDoc(b, sp, id, doc);
    var (b2, index) :- ReadList(b1, sp);
    if id in index then Done(b2, ()) else PutDoc(b2, sp, INDEX, List(index + [id]))
  }

  /** `index.retain(|x| x != id)` */
  function Retain(index: seq<string>, id: string): seq<string> {
    if index == [] then []
    else if index[0] == id then Retain(index[1..], id)
    else [index[0]] + Retain(index[1..], id)
  }

  /** Deletes the record, then rewrites the index without its name. */
  function RemoveEntry(b: Disk, sp: Space, id: string): Out<Disk, ()> {
    var (b1, _) :- DeleteDoc(b, sp, id);
    var (b2, index) :- ReadList(b1, sp);
    PutDoc(b2, sp, INDEX, List(Retain(index, id)))
  }

  predicate AllDigests(names: seq<string>) {
    forall i :: 0 <= i < |names| ==> IsChunkDigest(names[i])
  }

  function SaveManifest(b: Disk, id: string, digests: seq<string>, fileBytes: nat): Out<Disk, ()> {
    if !AllDigests(digests) then Fail(b, InvalidArgument)
    else SaveEntry(b, Manifests, id, ManifestDoc(digests, fileBytes))
  }

  function RemoveManifest(b: Disk, id: string): Out<Disk, ()> {
    RemoveEntry(b, Manifests, id)
  }

  function SaveRefcount(b: Disk, digest: string, count: nat, size: nat): Out<Disk, ()> {
    if !IsChunkDigest(digest) then Fail(b, InvalidArgument)
    else SaveEntry(b, Refcounts, digest, CountSize(count, size))
  }

  function RemoveRefcount(b: Disk, digest: string): Out<Disk, ()> {
    RemoveEntry(b, Refcounts, digest)
  }

  // ----- Loading

  /** `load_manifests` for the identifiers still to visit. */
  function LoadFiles(b: Disk, ids: seq<string>, files: map<string, FileRec>): Out<Disk, map<string, FileRec>>
    decreases |ids|
  {
    if ids == [] then Done(b, files) else
    var (b1, found) :- GetDoc(b, Manifests, ids[0]);
    match found
    case Some(ManifestDoc(digests, fileBytes)) =>
      if !AllDigests(digests) || ids[0] == "" then Fail(b1, InvalidArgument)
      else LoadFiles(b1, ids[1..], files[ids[0] := FileRec(digests, fileBytes)])
    case _ => Fail(b1, Corrupt)
  }

  function LoadManifests(b: Disk): Out<Disk, map<string, FileRec>> {
    var (b1, index) :- ReadList(b, Manifests);
    LoadFiles(b1, index, map[])
  }

  /** `parse_refcount_record`: a legacy record has no size. */
  function ParseRefcount(doc: Doc): Option<(nat, nat)> {
    match doc
    case LegacyCount(count) => Some((count, 0))
    case CountSize(count, size) => Some((count, size))
    case _ => None
  }

  function SetRef(refs: map<string, ChunkRef>, digest: string, count: nat, size: nat): map<string, ChunkRef> {
    if count == 0 then refs - {digest} else refs[digest := ChunkRef(count, size)]
  }

  /** `load_refcounts` for the digests still to visit. */
  function LoadRefs(b: Disk, ids: seq<string>, refs: map<string, ChunkRef>): Out<Disk, map<string, ChunkRef>>
    decreases |ids|
  {
    if ids == [] then Done(b, refs)
    else if !IsChunkDigest(ids[0]) then Fail(b, InvalidArgument)
    else
      var (b1, found) :- GetDoc(b, Refcounts, ids[0]);
      var parsed := if found.Some? then ParseRefcount(found.value) else None;
      match parsed
      case None => Fail(b1, Corrupt)
      case Some((count, size)) =>
        LoadRefs(b1, ids[1..], if count > 0 then SetRef(refs, ids[0], count, size) else refs)
  }

  function LoadRefcounts(b: Disk): Out<Disk, map<string, ChunkRef>> {
    var (b1, index) :- ReadList(b, Refcounts);
    LoadRefs(b1, index, map[])
  }
}
