/** The backend that keeps its keys in memory (core/src/store/mod.rs). */
module Backends {
  import opened Types
  import opened Hashing
  import opened DiskSpec
  import opened KeyNames
  import opened StoreSpec

  /** Lists a finite set of strings in some order: iteration over a hash table. */
  method InSomeOrder(keys: set<string>) returns (order: seq<string>)
    ensures IsListing(order, keys)
  {
    order := [];
    var left := keys;
    while left != {}
      invariant left <= keys
      invariant NoDup(order)
      invariant forall x :: x in order <==> x in keys && x !in left
      decreases left
    {
      var x :| x in left;
      order := order + [x];
      left := left - {x};
    }
  }

  class MemoryBackend {
    var blobs: map<string, Bytes>
    var manifests: map<string, Doc>
    var refcounts: map<string, Doc>
    /** Which calls fail. */
    var plan: Plan

    constructor (disk: Disk)
      ensures View() == disk
    {
      blobs, manifests, refcounts, plan := disk.blobs, disk.manifests, disk.refcounts, disk.plan;
    }

    function View(): Disk
      reads this
    {
      Disk(blobs, manifests, refcounts, plan)
    }

    /** One backend call: it is let through, or it fails without effect. */
    method Call() returns (r: Result<()>)
      modifies `plan
      ensures r == if Down(old(View())) then Err(Fault) else Ok(())
      ensures View() == if Down(old(View())) then old(View()) else Spend(old(View()))
    {
      if plan == After(0) {
        return Err(Fault);
      }
      if plan.After? {
        plan := After(plan.calls - 1);
      }
      return Ok(());
    }

    method Exists(name: string) returns (r: Result<bool>)
      modifies this
      ensures Outcome(View(), r) == DiskSpec.Exists(old(View()), name)
    {
      var _ :- Call();
      return Ok(name in blobs);
    }

    method GetBlob(name: string) returns (r: Result<Option<Bytes>>)
      modifies this
      ensures Outcome(View(), r) == DiskSpec.GetBlob(old(View()), name)
    {
      var _ :- Call();
      return Ok(if name in blobs then Some(blobs[name]) else None);
    }

    method PutBlob(name: string, data: Bytes) returns (r: Result<()>)
      modifies this
      ensures Outcome(View(), r) == DiskSpec.PutBlob(old(View()), name, data)
    {
      var _ :- Call();
      blobs := blobs[name := data];
      return Ok(());
    }

    method DeleteBlob(name: string) returns (r: Result<()>)
      modifies this
      ensures Outcome(View(), r) == DiskSpec.DeleteBlob(old(View()), name)
    {
      var _ :- Call();
      blobs := blobs - {name};
      return Ok(());
    }

    method GetDoc(sp: Space, id: string) returns (r: Result<Option<Doc>>)
      modifies this
      ensures Outcome(View(), r) == DiskSpec.GetDoc(old(View()), sp, id)
    {
      var _ :- Call();
      var docs := Docs(View(), sp);
      return Ok(if id in docs then Some(docs[id]) else None);
    }

    method PutDoc(sp: Space, id: string, doc: Doc) returns (r: Result<()>)
      modifies this
      ensures Outcome(View(), r) == DiskSpec.PutDoc(old(View()), sp, id, doc)
    {
      var _ :- Call();
      match sp {
        case Manifests => manifests := manifests[id := doc];
        case Refcounts => refcounts := refcounts[id := doc];
      }
      return Ok(());
    }

    method DeleteDoc(sp: Space, id: string) returns (r: Result<()>)
      modifies this
      ensures Outcome(View(), r) == DiskSpec.DeleteDoc(old(View()), sp, id)
    {
      var _ :- Call();
      match sp {
        case Manifests => manifests := manifests - {id};
        case Refcounts => refcounts := refcounts - {id};
      }
      return Ok(());
    }

    /** `list_keys` with the empty prefix. */
    method ListKeys() returns (r: Result<Option<seq<string>>>)
      modifies this
      ensures var names := if r.Ok? then r.value else None;
              Outcome(View(), r) == StoreSpec.ListKeys(old(View()), names)
      ensures r.Ok? ==> r.value.Some? && IsNameListing(r.value.value, View())
    {
      var _ :- Call();
      var names := InSomeOrder(blobs.Keys);
      var ids := InSomeOrder(manifests.Keys);
      names := AddPrefixed(names, Manifests, ids);
      ids := InSomeOrder(refcounts.Keys);
      names := AddPrefixed(names, Refcounts, ids);
      return Ok(Some(names));
    }
  }

  method AddPrefixed(names: seq<string>, sp: Space, ids: seq<string>) returns (all: seq<string>)
    requires DigestsOnce(names)
    ensures DigestsOnce(all)
    ensures forall n :: n in all <==> n in names || exists id :: id in ids && n == Name(DocKey(sp, id))
  {
    all := names;
    for i := 0 to |ids|
      invariant DigestsOnce(all)
      invariant forall n :: n in all <==> n in names || exists id :: id in ids[..i] && n == Name(DocKey(sp, id))
    {
      PrefixedIsNotADigest(sp, ids[i]);
      hide IsChunkDigest;
      assert ids[..i + 1] == ids[..i] + [ids[i]];
      ghost var was := all;
      all := all + [Name(DocKey(sp, ids[i]))];
      assert forall n :: n in all <==> n in was || n == Name(DocKey(sp, ids[i]));
    }
    assert ids[..|ids|] == ids;
  }
}
