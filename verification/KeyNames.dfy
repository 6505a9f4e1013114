/** The textual keys of persistence.rs. Blob keys are digests, metadata keys
    carry a prefix; the model's keys are their names with the prefix taken off. */
module KeyNames {
  import opened Hashing
  import opened DiskSpec

  function Prefix(sp: Space): string {
    if sp.Manifests? then "_manifest/" else "_refcount/"
  }

  function Name(k: Key): string {
    match k
    case BlobKey(name) => name
    case DocKey(sp, id) => Prefix(sp) + id
  }

  /** The texts that the program writes, the index keys among them. */
  lemma KeyTexts(name: string, id: string)
    ensures Name(BlobKey(name)) == name
    ensures Name(DocKey(Manifests, id)) == "_manifest/" + id && Name(DocKey(Refcounts, id)) == "_refcount/" + id
    ensures Name(DocKey(Manifests, INDEX)) == "_manifest/__index__"
    ensures Name(DocKey(Refcounts, INDEX)) == "_refcount/__index__"
  {
    assert "_manifest/" + INDEX == "_manifest/__index__";
    assert "_refcount/" + INDEX == "_refcount/__index__";
  }

  lemma PrefixedIsNotADigest(sp: Space, id: string)
    ensures !IsChunkDigest(Prefix(sp) + id)
  {
    assert (Prefix(sp) + id)[0] == '_';
  }

  /** Keys used by the store have different texts when they are different, so
      splitting the backend into families loses nothing. */
  lemma NamesAreDistinct(a: Key, b: Key)
    requires a.BlobKey? ==> IsChunkDigest(a.name)
    requires b.BlobKey? ==> IsChunkDigest(b.name)
    ensures Name(a) == Name(b) <==> a == b
  {
    if Name(a) == Name(b) {
      match (a, b)
      case (BlobKey(x), BlobKey(y)) =>
      case (BlobKey(x), DocKey(sp, id)) => PrefixedIsNotADigest(sp, id);
      case (DocKey(sp, id), BlobKey(y)) => PrefixedIsNotADigest(sp, id);
      case (DocKey(s1, i1), DocKey(s2, i2)) =>
        assert Name(a)[1] == Prefix(s1)[1] && Name(b)[1] == Prefix(s2)[1];
        assert Name(a)[10..] == i1 && Name(b)[10..] == i2;
    }
  }
}
