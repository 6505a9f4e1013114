/** What saving and removing a record does to a family of documents, whatever
    backend call fails. */
module Records {
  import opened Types
  import opened DiskSpec

  ghost predicate IndexReadable(m: map<string, Doc>) {
    INDEX in m ==> m[INDEX].List?
  }

  /** The index list as `read_string_list` reads it. */
  ghost function IndexOf(m: map<string, Doc>): seq<string> {
    if INDEX in m && m[INDEX].List? then m[INDEX].items else []
  }

  /** The family holds exactly these records, and its index lists each of them
      once and nothing else. */
  ghost predicate Persisted(m: map<string, Doc>, docs: map<string, Doc>) {
    && INDEX !in docs
    && m - {INDEX} == docs
    && IndexReadable(m)
    && IsListing(IndexOf(m), docs.Keys)
  }

  /** Only the given family may differ. */
  ghost predicate OnlyIn(b: Disk, b': Disk, sp: Space) {
    && b'.blobs == b.blobs
    && (sp.Manifests? ==> b'.refcounts == b.refcounts)
    && (sp.Refcounts? ==> b'.manifests == b.manifests)
    && (b.plan.Never? ==> b'.plan.Never?)
  }

  ghost function WithEntry(m: map<string, Doc>, id: string, doc: Doc): map<string, Doc> {
    if id in IndexOf(m) then m[id := doc] else m[id := doc][INDEX := List(IndexOf(m) + [id])]
  }

  ghost function WithoutEntry(m: map<string, Doc>, id: string): map<string, Doc> {
    (m - {id})[INDEX := List(Retain(IndexOf(m), id))]
  }

  /** Reading the index of a readable family fails only with the backend. */
  lemma ReadListEffect(b: Disk, sp: Space)
    requires IndexReadable(Docs(b, sp))
    ensures ReadList(b, sp) == if Down(b) then Fail(b, Fault) else Done(Spend(b), IndexOf(Docs(b, sp)))
  {
  }

  /** Saving either finishes, or stops before the record or before the index. */
  lemma SaveEntryEffect(b: Disk, sp: Space, id: string, doc: Doc)
    requires id != INDEX && IndexReadable(Docs(b, sp))
    ensures var o := SaveEntry(b, sp, id, doc);
            && OnlyIn(b, o.s, sp)
            && (b.plan.Never? ==> o.Done?)
            && (o.Done? ==> Docs(o.s, sp) == WithEntry(Docs(b, sp), id, doc))
            && (o.Fail? ==> o.e.Fault?)
            && (o.Fail? ==> Docs(o.s, sp) == Docs(b, sp) || Docs(o.s, sp) == Docs(b, sp)[id := doc])
  {
    hide ReadList;
    var o := PutDoc(b, sp, id, doc);
    if o.Done? {
      ReadListEffect(o.s, sp);
    }
  }

  /** Removing either finishes, or stops before the record or before the index. */
  lemma RemoveEntryEffect(b: Disk, sp: Space, id: string)
    requires id != INDEX && IndexReadable(Docs(b, sp))
    ensures var o := RemoveEntry(b, sp, id);
            && OnlyIn(b, o.s, sp)
            && (b.plan.Never? ==> o.Done?)
            && (o.Done? ==> Docs(o.s, sp) == WithoutEntry(Docs(b, sp), id))
            && (o.Fail? ==> o.e.Fault?)
            && (o.Fail? ==> Docs(o.s, sp) == Docs(b, sp) || Docs(o.s, sp) == Docs(b, sp) - {id})
  {
    hide ReadList, Retain;
    var o := DeleteDoc(b, sp, id);
    if o.Done? {
      ReadListEffect(o.s, sp);
    }
  }

  lemma {:induction false} RetainFacts(xs: seq<string>, x: string)
    requires NoDup(xs)
    ensures NoDup(Retain(xs, x))
    ensures forall y :: y in Retain(xs, x) <==> y in xs && y != x
    ensures x !in xs ==> Retain(xs, x) == xs
  {
    if xs != [] {
      RetainFacts(xs[1..], x);
      assert xs == [xs[0]] + xs[1..];
      assert forall y :: y in xs <==> y == xs[0] || y in xs[1..];
      assert xs[0] !in xs[1..];
      assert xs[0] !in Retain(xs[1..], x);
    }
  }

  /** A completed save adds or replaces one record. */
  lemma SavePersists(m: map<string, Doc>, docs: map<string, Doc>, id: string, doc: Doc)
    requires Persisted(m, docs) && id != INDEX
    ensures Persisted(WithEntry(m, id, doc), docs[id := doc])
    ensures IndexOf(WithEntry(m, id, doc)) == if id in docs then IndexOf(m) else IndexOf(m) + [id]
  {
    var m' := WithEntry(m, id, doc);
    assert m' - {INDEX} == (m - {INDEX})[id := doc];
  }

  /** A completed removal drops one record. */
  lemma RemovePersists(m: map<string, Doc>, docs: map<string, Doc>, id: string)
    requires Persisted(m, docs) && id != INDEX
    ensures Persisted(WithoutEntry(m, id), docs - {id})
    ensures IndexOf(WithoutEntry(m, id)) == Retain(IndexOf(m), id)
  {
    RetainFacts(IndexOf(m), id);
    assert WithoutEntry(m, id) - {INDEX} == (m - {INDEX}) - {id};
  }

  lemma PersistedLookup(m: map<string, Doc>, docs: map<string, Doc>)
    requires Persisted(m, docs)
    ensures forall x :: x in docs ==> x in m && m[x] == docs[x]
    ensures forall x :: x in IndexOf(m) <==> x in docs
  {
    forall x | x in docs ensures x in m && m[x] == docs[x] {
      assert x in m - {INDEX} && (m - {INDEX})[x] == docs[x];
    }
  }
}
