/** Occurrences of digests in manifests, and sums over the store's tables. */
module Counting {
  import opened Types
  import opened Hashing

  // ----- References held by a table of manifests

  /** Every digest of every manifest, with multiplicity. */
  ghost function AllRefs(files: map<string, FileRec>): multiset<string> {
    if files == map[] then multiset{} else
    var f :| f in files;
    multiset(files[f].digests) + AllRefs(files - {f})
  }

  lemma {:induction false} AllRefsRemove(files: map<string, FileRec>, f: string)
    requires f in files
    ensures AllRefs(files) == multiset(files[f].digests) + AllRefs(files - {f})
    decreases files.Keys
  {
    var g :| g in files && AllRefs(files) == multiset(files[g].digests) + AllRefs(files - {g});
    if g != f {
      AllRefsRemove(files - {g}, f);
      AllRefsRemove(files - {f}, g);
      assert files - {g} - {f} == files - {f} - {g};
    }
  }

  lemma AllRefsInsert(files: map<string, FileRec>, f: string, rec: FileRec)
    ensures AllRefs(files[f := rec]) == multiset(rec.digests) + AllRefs(files - {f})
  {
    AllRefsRemove(files[f := rec], f);
    assert files[f := rec] - {f} == files - {f};
  }

  lemma AllRefsMember(files: map<string, FileRec>, f: string, d: string)
    requires f in files && d in files[f].digests
    ensures AllRefs(files)[d] > 0
  {
    AllRefsRemove(files, f);
    assert d in multiset(files[f].digests);
  }

  ghost function Count(refs: map<string, ChunkRef>, d: string): nat {
    if d in refs then refs[d].count else 0
  }

  // ----- Sums

  ghost function Sum(m: map<string, nat>): nat {
    if m == map[] then 0 else
    var k :| k in m;
    m[k] + Sum(m - {k})
  }

  lemma {:induction false} SumRemove(m: map<string, nat>, k: string)
    requires k in m
    ensures Sum(m) == m[k] + Sum(m - {k})
    decreases m.Keys
  {
    var j :| j in m && Sum(m) == m[j] + Sum(m - {j});
    if j != k {
      SumRemove(m - {j}, k);
      SumRemove(m - {k}, j);
      assert m - {j} - {k} == m - {k} - {j};
    }
  }

  lemma SumInsert(m: map<string, nat>, k: string, v: nat)
    ensures Sum(m[k := v]) == v + Sum(m - {k})
    ensures Sum(m[k := v]) == Sum(m) + v - (if k in m then m[k] else 0)
  {
    SumRemove(m[k := v], k);
    assert m[k := v] - {k} == m - {k};
    if k in m {
      SumRemove(m, k);
    } else {
      assert m - {k} == m;
    }
  }

  ghost function RefBytes(refs: map<string, ChunkRef>): map<string, nat> {
    map d | d in refs :: refs[d].size * refs[d].count
  }

  ghost function RefSizes(refs: map<string, ChunkRef>): map<string, nat> {
    map d | d in refs :: refs[d].size
  }

  ghost function FileSizes(files: map<string, FileRec>): map<string, nat> {
    map f | f in files :: files[f].fileBytes
  }

  /** Bytes referenced: each chunk's size times its count. */
  ghost function TotalBytes(refs: map<string, ChunkRef>): nat {
    Sum(RefBytes(refs))
  }

  /** Bytes stored: each live chunk's size once. */
  ghost function StoredBytes(refs: map<string, ChunkRef>): nat {
    Sum(RefSizes(refs))
  }

  ghost function FileBytes(files: map<string, FileRec>): nat {
    Sum(FileSizes(files))
  }

  lemma BytesInsert(refs: map<string, ChunkRef>, d: string, r: ChunkRef)
    ensures TotalBytes(refs[d := r]) ==
            TotalBytes(refs) + r.size * r.count - (if d in refs then refs[d].size * refs[d].count else 0)
    ensures StoredBytes(refs[d := r]) ==
            StoredBytes(refs) + r.size - (if d in refs then refs[d].size else 0)
  {
    SumInsert(RefBytes(refs), d, r.size * r.count);
    assert RefBytes(refs[d := r]) == RefBytes(refs)[d := r.size * r.count];
    SumInsert(RefSizes(refs), d, r.size);
    assert RefSizes(refs[d := r]) == RefSizes(refs)[d := r.size];
  }

  lemma BytesRemove(refs: map<string, ChunkRef>, d: string)
    requires d in refs
    ensures TotalBytes(refs) == TotalBytes(refs - {d}) + refs[d].size * refs[d].count
    ensures StoredBytes(refs) == StoredBytes(refs - {d}) + refs[d].size
  {
    SumRemove(RefBytes(refs), d);
    assert RefBytes(refs - {d}) == RefBytes(refs) - {d};
    SumRemove(RefSizes(refs), d);
    assert RefSizes(refs - {d}) == RefSizes(refs) - {d};
  }

  // ----- Exchanging the two sums: over digests and over files

  /** Payload bytes of a collection of references. */
  ghost function Weight(cfg: Cfg, m: multiset<string>): nat {
    if m == multiset{} then 0 else
    var d :| d in m;
    |cfg.plain(d)| + Weight(cfg, m - multiset{d})
  }

  lemma WeightPick(cfg: Cfg, m: multiset<string>) returns (e: string)
    requires m != multiset{}
    ensures e in m && Weight(cfg, m) == |cfg.plain(e)| + Weight(cfg, m - multiset{e})
  {
    e :| e in m && Weight(cfg, m) == |cfg.plain(e)| + Weight(cfg, m - multiset{e});
  }

  lemma {:induction false} WeightAdd(cfg: Cfg, m: multiset<string>, d: string)
    ensures Weight(cfg, m + multiset{d}) == Weight(cfg, m) + |cfg.plain(d)|
    decreases m
  {
    hide Weight;
    var n := m + multiset{d};
    var e := WeightPick(cfg, n);
    if e == d {
      assert n - multiset{e} == m;
    } else {
      var rest := m - multiset{e};
      assert n - multiset{e} == rest + multiset{d};
      assert m == rest + multiset{e};
      WeightAdd(cfg, rest, d);
      WeightAdd(cfg, rest, e);
    }
  }

  lemma {:induction false} WeightUnion(cfg: Cfg, a: multiset<string>, b: multiset<string>)
    ensures Weight(cfg, a + b) == Weight(cfg, a) + Weight(cfg, b)
    decreases b
  {
    if b == multiset{} {
      assert a + b == a;
    } else {
      var d :| d in b;
      var rest := b - multiset{d};
      assert b == rest + multiset{d} && a + b == (a + rest) + multiset{d};
      WeightUnion(cfg, a, rest);
      WeightAdd(cfg, rest, d);
      WeightAdd(cfg, a + rest, d);
    }
  }

  ghost function Repeat(d: string, n: nat): (r: multiset<string>)
    ensures forall x :: r[x] == if x == d then n else 0
  {
    if n == 0 then multiset{} else Repeat(d, n - 1) + multiset{d}
  }

  lemma {:induction false} WeightRepeat(cfg: Cfg, d: string, n: nat)
    ensures Weight(cfg, Repeat(d, n)) == n * |cfg.plain(d)|
  {
    if n > 0 {
      WeightRepeat(cfg, d, n - 1);
      WeightAdd(cfg, Repeat(d, n - 1), d);
      var w := |cfg.plain(d)|;
      calc {
        Weight(cfg, Repeat(d, n));
        (n - 1) * w + w;
        n * w;
      }
    } else {
      assert Repeat(d, n) == multiset{};
    }
  }

  /** The payload bytes of a list of chunks, in list order. */
  ghost function Meaning(cfg: Cfg, digests: seq<string>): Bytes {
    if digests == [] then [] else cfg.plain(digests[0]) + Meaning(cfg, digests[1..])
  }

  lemma {:induction false} MeaningAppend(cfg: Cfg, a: seq<string>, b: seq<string>)
    ensures Meaning(cfg, a + b) == Meaning(cfg, a) + Meaning(cfg, b)
  {
    if a == [] {
      assert a + b == b;
    } else {
      assert (a + b)[0] == a[0] && (a + b)[1..] == a[1..] + b;
      MeaningAppend(cfg, a[1..], b);
    }
  }

  lemma {:induction false} MeaningWeight(cfg: Cfg, digests: seq<string>)
    ensures |Meaning(cfg, digests)| == Weight(cfg, multiset(digests))
  {
    if digests == [] {
      assert multiset(digests) == multiset{};
    } else {
      assert digests == [digests[0]] + digests[1..];
      assert multiset(digests) == multiset(digests[1..]) + multiset{digests[0]};
      MeaningWeight(cfg, digests[1..]);
      WeightAdd(cfg, multiset(digests[1..]), digests[0]);
    }
  }

  ghost predicate FilesSized(cfg: Cfg, files: map<string, FileRec>) {
    forall f :: f in files ==> files[f].fileBytes == |Meaning(cfg, files[f].digests)|
  }

  lemma {:induction false} WeightOfFiles(cfg: Cfg, files: map<string, FileRec>)
    requires FilesSized(cfg, files)
    ensures Weight(cfg, AllRefs(files)) == FileBytes(files)
    decreases files.Keys
  {
    if files == map[] {
      assert FileSizes(files) == map[];
    } else {
      var f :| f in files;
      AllRefsRemove(files, f);
      SumRemove(FileSizes(files), f);
      var smaller := files - {f};
      assert FileSizes(smaller) == FileSizes(files) - {f};
      WeightOfFiles(cfg, smaller);
      WeightUnion(cfg, multiset(files[f].digests), AllRefs(smaller));
      MeaningWeight(cfg, files[f].digests);
    }
  }

  ghost predicate RefsSized(cfg: Cfg, refs: map<string, ChunkRef>) {
    forall d :: d in refs ==> refs[d].size == |cfg.plain(d)|
  }

  lemma {:induction false} WeightOfRefs(cfg: Cfg, refs: map<string, ChunkRef>, m: multiset<string>)
    requires RefsSized(cfg, refs)
    requires forall d :: m[d] == Count(refs, d)
    ensures Weight(cfg, m) == TotalBytes(refs)
    decreases refs.Keys
  {
    if refs == map[] {
      assert m == multiset{};
    } else {
      var d :| d in refs;
      var smaller, rest := refs - {d}, m[d := 0];
      assert m == rest + Repeat(d, m[d]);
      WeightOfRefs(cfg, smaller, rest);
      BytesRemove(refs, d);
      WeightRepeat(cfg, d, m[d]);
      WeightUnion(cfg, rest, Repeat(d, m[d]));
    }
  }

  /** Byte conservation: when the counts are exact, size times count summed
      over digests equals file length summed over files. */
  lemma ByteConservation(cfg: Cfg, files: map<string, FileRec>, refs: map<string, ChunkRef>)
    requires FilesSized(cfg, files) && RefsSized(cfg, refs)
    requires forall d :: AllRefs(files)[d] == Count(refs, d)
    ensures TotalBytes(refs) == FileBytes(files)
  {
    WeightOfFiles(cfg, files);
    WeightOfRefs(cfg, refs, AllRefs(files));
  }
}
