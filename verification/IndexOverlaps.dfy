/** Two changes to one family of records that overlap. `save_manifest`,
    `remove_manifest`, `save_refcount` and `remove_refcount` put or delete the
    record, read the index list and rewrite it, and no lock spans the three. */
module IndexOverlaps {
  import opened Types
  import opened Hashing
  import opened DiskSpec
  import opened StoreSpec
  import opened Counting
  import opened Records
  import opened Invariants
  import opened Opening
  import opened Salvage

  // ----- The steps

  datatype Change = Put(id: string, doc: Doc) | Drop(id: string)

  /** A family as its records and its index list. */
  datatype Family = Family(records: map<string, Doc>, index: seq<string>)

  ghost function FamilyOf(m: map<string, Doc>): Family {
    Family(m - {INDEX}, IndexOf(m))
  }

  function Recorded(records: map<string, Doc>, c: Change): map<string, Doc> {
    match c
    case Put(id, doc) => records[id := doc]
    case Drop(id) => records - {id}
  }

  /** The list is written, unless a put finds its name there. */
  predicate Writes(index: seq<string>, c: Change) {
    c.Put? ==> c.id !in index
  }

  function Relisted(index: seq<string>, c: Change): seq<string> {
    match c
    case Put(id, _) => if id in index then index else index + [id]
    case Drop(id) => Retain(index, id)
  }

  /** One change alone. */
  function Changed(f: Family, c: Change): Family {
    Family(Recorded(f.records, c), Relisted(f.index, c))
  }

  function RecordCall(b: Disk, sp: Space, c: Change): Out<Disk, ()> {
    match c
    case Put(id, doc) => PutDoc(b, sp, id, doc)
    case Drop(id) => DeleteDoc(b, sp, id)
  }

  function WholeCall(b: Disk, sp: Space, c: Change): Out<Disk, ()> {
    match c
    case Put(id, doc) => SaveEntry(b, sp, id, doc)
    case Drop(id) => RemoveEntry(b, sp, id)
  }

  /** The calls that a change makes, one by one and all together. */
  lemma ChangeCalls(b: Disk, sp: Space, c: Change)
    requires b.plan.Never? && IndexReadable(Docs(b, sp)) && c.id != INDEX
    ensures var f := FamilyOf(Docs(b, sp));
            && ReadList(b, sp) == Done(b, f.index)
            && FamilyOf(Docs(RecordCall(b, sp, c).s, sp)) == Family(Recorded(f.records, c), f.index)
            && (forall xs :: FamilyOf(Docs(PutDoc(b, sp, INDEX, List(xs)).s, sp)) == Family(f.records, xs))
            && WholeCall(b, sp, c).Done? && FamilyOf(Docs(WholeCall(b, sp, c).s, sp)) == Changed(f, c)
  {
    var m := Docs(b, sp);
    ReadListEffect(b, sp);
    match c {
      case Put(id, doc) =>
        SaveEntryEffect(b, sp, id, doc);
        PutParts(m, id, doc);
      case Drop(id) =>
        RemoveEntryEffect(b, sp, id);
        DropParts(m, id);
    }
    hide Retain, SaveEntry, RemoveEntry, WithEntry, WithoutEntry, ReadList, IndexReadable, Changed, Recorded;
    forall xs ensures FamilyOf(Docs(PutDoc(b, sp, INDEX, List(xs)).s, sp)) == Family(m - {INDEX}, xs) {
      ListParts(m, xs);
    }
  }

  lemma ListParts(m: map<string, Doc>, xs: seq<string>)
    ensures FamilyOf(m[INDEX := List(xs)]) == Family(m - {INDEX}, xs)
  {
    assert m[INDEX := List(xs)] - {INDEX} == m - {INDEX};
  }

  lemma PutParts(m: map<string, Doc>, id: string, doc: Doc)
    requires id != INDEX
    ensures FamilyOf(m[id := doc]) == Family((m - {INDEX})[id := doc], IndexOf(m))
    ensures FamilyOf(WithEntry(m, id, doc)) == Changed(FamilyOf(m), Put(id, doc))
  {
    assert m[id := doc] - {INDEX} == (m - {INDEX})[id := doc];
    assert WithEntry(m, id, doc) - {INDEX} == (m - {INDEX})[id := doc];
  }

  lemma DropParts(m: map<string, Doc>, id: string)
    requires id != INDEX
    ensures FamilyOf(m - {id}) == Family((m - {INDEX}) - {id}, IndexOf(m))
    ensures FamilyOf(WithoutEntry(m, id)) == Changed(FamilyOf(m), Drop(id))
  {
    hide Retain;
    assert (m - {id}) - {INDEX} == (m - {INDEX}) - {id};
    assert WithoutEntry(m, id) - {INDEX} == (m - {INDEX}) - {id};
  }

  // ----- Interleavings

  /** The family, and the lists that the two changes have read. */
  datatype Duo = Duo(f: Family, a: seq<string>, b: seq<string>)

  function Written(f: Family, index: seq<string>, c: Change): Family {
    if Writes(index, c) then f.(index := Relisted(index, c)) else f
  }

  /** Step `k` of the first change, and of the second one: the record, the read of
      the list, the write of the list. */
  function StepA(o: Duo, c: Change, k: nat): Duo {
    if k == 0 then o.(f := o.f.(records := Recorded(o.f.records, c)))
    else if k == 1 then o.(a := o.f.index)
    else o.(f := Written(o.f, o.a, c))
  }

  function StepB(o: Duo, c: Change, k: nat): Duo {
    if k == 0 then o.(f := o.f.(records := Recorded(o.f.records, c)))
    else if k == 1 then o.(b := o.f.index)
    else o.(f := Written(o.f, o.b, c))
  }

  /** The steps of the first change from number `i` up to number `j`. */
  function StepsA(o: Duo, c: Change, i: nat, j: nat): Duo {
    var o1 := if i <= 0 < j then StepA(o, c, 0) else o;
    var o2 := if i <= 1 < j then StepA(o1, c, 1) else o1;
    if i <= 2 < j then StepA(o2, c, 2) else o2
  }

  /** An interleaving: how many steps of the first change have run before each
      step of the second one. There are twenty. */
  datatype Order = Order(record: nat, read: nat, write: nat)

  predicate IsOrder(at: Order) {
    at.record <= at.read <= at.write <= 3
  }

  function Interleaved(f: Family, a: Change, b: Change, at: Order): Family
    requires IsOrder(at)
  {
    var o1 := StepB(StepsA(Duo(f, [], []), a, 0, at.record), b, 0);
    var o2 := StepB(StepsA(o1, a, at.record, at.read), b, 1);
    var o3 := StepB(StepsA(o2, a, at.read, at.write), b, 2);
    StepsA(o3, a, at.write, 3).f
  }

  // ----- What is left

  function RecordsAfter(records: map<string, Doc>, a: Change, b: Change, at: Order): map<string, Doc> {
    if at.record == 0 then Recorded(Recorded(records, b), a) else Recorded(Recorded(records, a), b)
  }

  /** Each list was read before the other one was written. */
  predicate Overlap(at: Order) {
    at.read <= 2 <= at.write
  }

  function IndexAfter(index: seq<string>, a: Change, b: Change, at: Order): seq<string> {
    if at.write < 2 then Relisted(Relisted(index, b), a)
    else if at.read > 2 then Relisted(Relisted(index, a), b)
    else if at.write == 2 then (if Writes(index, a) then Relisted(index, a) else Relisted(index, b))
    else if Writes(index, b) then Relisted(index, b) else Relisted(index, a)
  }

  lemma InterleavedResult(f: Family, a: Change, b: Change, at: Order)
    requires IsOrder(at)
    ensures Interleaved(f, a, b, at) ==
            Family(RecordsAfter(f.records, a, b, at), IndexAfter(f.index, a, b, at))
  {
    UnwrittenIsSame(a);
    UnwrittenIsSame(b);
    hide Recorded, Relisted, Writes, StepsA;
    StepsAResult(Duo(f, [], []), a, 0, at.record);
    var o1 := StepB(StepsA(Duo(f, [], []), a, 0, at.record), b, 0);
    StepsAResult(o1, a, at.record, at.read);
    var o2 := StepB(StepsA(o1, a, at.record, at.read), b, 1);
    StepsAResult(o2, a, at.read, at.write);
    var o3 := StepB(StepsA(o2, a, at.read, at.write), b, 2);
    StepsAResult(o3, a, at.write, 3);
  }

  lemma StepsAResult(o: Duo, c: Change, i: nat, j: nat)
    requires i <= j <= 3
    ensures var records := if i == 0 < j then Recorded(o.f.records, c) else o.f.records;
            var read := if i <= 1 < j then o.f.index else o.a;
            var index := if i <= 2 < j && Writes(read, c) then Relisted(read, c) else o.f.index;
            StepsA(o, c, i, j) == Duo(Family(records, index), read, o.b)
  {
    hide Recorded, Relisted, Writes;
  }

  lemma UnwrittenIsSame(c: Change)
    ensures forall index :: !Writes(index, c) ==> Relisted(index, c) == index
  {
    hide Retain;
  }

  // ----- When records and list disagree

  /** The list names each record once, and nothing else. */
  ghost predicate Agrees(f: Family) {
    NoDup(f.index) && forall x :: x in f.index <==> x in f.records
  }

  /** The change adds a name to the list, or takes one from it. */
  predicate Alters(index: seq<string>, c: Change) {
    c.Put? <==> c.id !in index
  }

  /** A put and a drop of one record: the put comes last among the record calls. */
  predicate PutStays(a: Change, at: Order) {
    if a.Put? then at.record == 0 else at.record > 0
  }

  /** A put and a drop of one record: the name is listed in the end. The put has
      read the list after the drop wrote it, or it writes last and has not seen
      the name. */
  predicate NameStays(index: seq<string>, a: Change, at: Order) {
    if a.Put? then at.write < 2 || (Overlap(at) && at.write == 2 && a.id !in index)
    else at.read > 2 || (Overlap(at) && at.write == 3 && a.id !in index)
  }

  /** Changes of different records clash when each has read the list before the
      other wrote it, the last one to write does write, and the other one's change
      of the list is overwritten. A put and a drop of one record clash when one
      of them comes last among the records and the other one in the list. */
  predicate Clash(index: seq<string>, a: Change, b: Change, at: Order) {
    if a.id != b.id then
      && Overlap(at)
      && (if at.write == 2 then Writes(index, a) && Alters(index, b) else Writes(index, b) && Alters(index, a))
    else
      a.Put? != b.Put? && PutStays(a, at) != NameStays(index, a, at)
  }

  lemma RelistedFacts(index: seq<string>, c: Change)
    requires NoDup(index)
    ensures NoDup(Relisted(index, c))
    ensures forall x :: x in Relisted(index, c) <==> if x == c.id then c.Put? else x in index
  {
    RetainFacts(index, c.id);
    hide Retain;
  }

  predicate Has(present: bool, c: Change, x: string) {
    if x == c.id then c.Put? else present
  }

  predicate Named(index: seq<string>, a: Change, b: Change, at: Order, x: string) {
    if at.write < 2 then Has(Has(x in index, b, x), a, x)
    else if at.read > 2 then Has(Has(x in index, a, x), b, x)
    else if at.write == 2 then (if Writes(index, a) then Has(x in index, a, x) else Has(x in index, b, x))
    else if Writes(index, b) then Has(x in index, b, x) else Has(x in index, a, x)
  }

  lemma NamedIff(index: seq<string>, a: Change, b: Change, at: Order)
    requires NoDup(index) && IsOrder(at)
    ensures NoDup(IndexAfter(index, a, b, at))
    ensures forall x :: x in IndexAfter(index, a, b, at) <==> Named(index, a, b, at, x)
  {
    hide Relisted, NoDup, Writes;
    RelistedFacts(index, a);
    RelistedFacts(index, b);
    RelistedFacts(Relisted(index, b), a);
    RelistedFacts(Relisted(index, a), b);
  }

  predicate Kept(present: bool, a: Change, b: Change, at: Order, x: string) {
    if at.record == 0 then Has(Has(present, b, x), a, x) else Has(Has(present, a, x), b, x)
  }

  lemma RecordedIff(records: map<string, Doc>, a: Change, b: Change, at: Order)
    ensures var after := RecordsAfter(records, a, b, at);
            && (forall x :: x in after <==> Kept(x in records, a, b, at, x))
            && (forall x :: x in records && x != a.id && x != b.id ==> after[x] == records[x])
  {
  }

  /** What the clash comes to, name by name. */
  lemma ClashIff(index: seq<string>, a: Change, b: Change, at: Order)
    requires IsOrder(at)
    ensures forall x :: x != a.id && x != b.id ==>
              (Named(index, a, b, at, x) <==> x in index) && (Kept(x in index, a, b, at, x) <==> x in index)
    ensures Clash(index, a, b, at) <==>
            || Named(index, a, b, at, a.id) != Kept(a.id in index, a, b, at, a.id)
            || Named(index, a, b, at, b.id) != Kept(b.id in index, a, b, at, b.id)
  {
  }

  /** In every interleaving of two changes to a family whose list agrees with its
      records: the list names nothing twice, every record that neither change
      is of stays as it is and listed as it was; and list and records agree in
      the end if and only if the changes do not clash. */
  lemma OverlapClash(f: Family, a: Change, b: Change, at: Order)
    requires Agrees(f) && IsOrder(at)
    ensures var g := Interleaved(f, a, b, at);
            && NoDup(g.index)
            && (forall x :: x != a.id && x != b.id ==>
                  && (x in g.records <==> x in f.records) && (x in f.records ==> g.records[x] == f.records[x])
                  && (x in g.index <==> x in f.index))
            && (Agrees(g) <==> !Clash(f.index, a, b, at))
  {
    InterleavedResult(f, a, b, at);
    NamedIff(f.index, a, b, at);
    RecordedIff(f.records, a, b, at);
    ClashIff(f.index, a, b, at);
    hide Interleaved, IndexAfter, RecordsAfter, NoDup, Named, Kept, Clash, IsOrder, Recorded, Relisted, Writes;
    AgreesIff(f, Interleaved(f, a, b, at), a, b, at);
  }

  lemma AgreesIff(f: Family, g: Family, a: Change, b: Change, at: Order)
    requires NoDup(g.index) && Agrees(f)
    requires forall x :: x in g.index <==> Named(f.index, a, b, at, x)
    requires forall x :: x in g.records <==> Kept(x in f.records, a, b, at, x)
    requires forall x :: x != a.id && x != b.id ==>
               (Named(f.index, a, b, at, x) <==> x in f.index) && (Kept(x in f.index, a, b, at, x) <==> x in f.index)
    ensures Agrees(g) <==>
            && Named(f.index, a, b, at, a.id) == Kept(a.id in f.index, a, b, at, a.id)
            && Named(f.index, a, b, at, b.id) == Kept(b.id in f.index, a, b, at, b.id)
  {
    hide NoDup, Named, Kept;
  }

  // ----- One change within another, on the backend

  function WriteCall(b: Disk, sp: Space, c: Change, index: seq<string>): Out<Disk, ()> {
    if Writes(index, c) then PutDoc(b, sp, INDEX, List(Relisted(index, c))) else Done(b, ())
  }

  /** A whole change between two calls of another one: before it reads the list,
      or before it writes the list. */
  function Around(b: Disk, sp: Space, a: Change, c: Change, afterRead: bool): Out<Disk, ()> {
    var (b1, _) :- RecordCall(b, sp, a);
    if afterRead then
      var (b2, index) :- ReadList(b1, sp);
      var (b3, _) :- WholeCall(b2, sp, c);
      WriteCall(b3, sp, a, index)
    else
      var (b2, _) :- WholeCall(b1, sp, c);
      var (b3, index) :- ReadList(b2, sp);
      WriteCall(b3, sp, a, index)
  }

  /** A put and a drop of one record clash, unless a put that has found its name
      writes no list. Changes of different records clash when the first one has
      read the list, then writes it, and the second one changes it. */
  predicate NestedClash(index: seq<string>, a: Change, c: Change, afterRead: bool) {
    if a.id == c.id then a.Put? != c.Put? && (a.Put? && afterRead ==> a.id !in index)
    else afterRead && Writes(index, a) && Alters(index, c)
  }

  lemma CallsReadable(b: Disk, sp: Space, c: Change)
    requires b.plan.Never? && IndexReadable(Docs(b, sp)) && c.id != INDEX
    ensures RecordCall(b, sp, c).Done?
    ensures RecordCall(b, sp, c).s.plan.Never? && IndexReadable(Docs(RecordCall(b, sp, c).s, sp))
    ensures WholeCall(b, sp, c).s.plan.Never? && IndexReadable(Docs(WholeCall(b, sp, c).s, sp))
  {
    match c {
      case Put(id, doc) => SaveEntryEffect(b, sp, id, doc);
      case Drop(id) => RemoveEntryEffect(b, sp, id);
    }
    hide SaveEntry, RemoveEntry, Retain;
  }

  lemma AroundIsInterleaved(b: Disk, sp: Space, a: Change, c: Change, afterRead: bool)
    requires b.plan.Never? && IndexReadable(Docs(b, sp)) && a.id != INDEX && c.id != INDEX
    ensures var o := Around(b, sp, a, c, afterRead);
            && o.Done?
            && FamilyOf(Docs(o.s, sp)) ==
               Interleaved(FamilyOf(Docs(b, sp)), a, c, if afterRead then Order(2, 2, 2) else Order(1, 1, 1))
  {
    hide ReadList, RecordCall, WholeCall, FamilyOf, IndexReadable, Recorded, Relisted, Writes, Docs;
    hide PutDoc;
    ChangeCalls(b, sp, a);
    CallsReadable(b, sp, a);
    var b1 := RecordCall(b, sp, a).s;
    ChangeCalls(b1, sp, a);
    ChangeCalls(b1, sp, c);
    CallsReadable(b1, sp, c);
    var b2 := WholeCall(b1, sp, c).s;
    ChangeCalls(b2, sp, a);
    WriteCallDone(b2, sp, a, FamilyOf(Docs(b1, sp)).index);
    WriteCallDone(b2, sp, a, FamilyOf(Docs(b2, sp)).index);
    NestedPieces(FamilyOf(Docs(b, sp)), a, c);
  }

  lemma WriteCallDone(b: Disk, sp: Space, c: Change, index: seq<string>)
    requires b.plan.Never?
    requires forall xs ::
               FamilyOf(Docs(PutDoc(b, sp, INDEX, List(xs)).s, sp)) == Family(FamilyOf(Docs(b, sp)).records, xs)
    ensures var o := WriteCall(b, sp, c, index);
            o.Done? && FamilyOf(Docs(o.s, sp)) == Written(FamilyOf(Docs(b, sp)), index, c)
  {
    hide FamilyOf, Docs, Relisted, Writes;
  }

  lemma NestedPieces(f: Family, a: Change, c: Change)
    ensures var g := Changed(Family(Recorded(f.records, a), f.index), c);
            && Interleaved(f, a, c, Order(2, 2, 2)) == Written(g, f.index, a)
            && Interleaved(f, a, c, Order(1, 1, 1)) == Written(g, g.index, a)
  {
    UnwrittenIsSame(c);
    hide Recorded, Relisted, Writes;
  }

  /** Records and list agree after such a pair of changes if and only if they do
      not clash. */
  lemma AroundClash(b: Disk, sp: Space, a: Change, c: Change, afterRead: bool)
    requires b.plan.Never? && IndexReadable(Docs(b, sp)) && a.id != INDEX && c.id != INDEX
    requires Agrees(FamilyOf(Docs(b, sp)))
    ensures var o := Around(b, sp, a, c, afterRead);
            && o.Done?
            && (Agrees(FamilyOf(Docs(o.s, sp))) <==> !NestedClash(IndexOf(Docs(b, sp)), a, c, afterRead))
  {
    hide Around, Interleaved, Agrees, Alters, Writes, IndexReadable, IndexOf, Docs;
    AroundIsInterleaved(b, sp, a, c, afterRead);
    OverlapClash(FamilyOf(Docs(b, sp)), a, c, if afterRead then Order(2, 2, 2) else Order(1, 1, 1));
  }

  // ----- What a disagreement does

  /** A name without a record tears the backend; a record without its name is not
      loaded. */
  lemma DisagreementHurts(b: Disk, sp: Space, x: string)
    requires x != INDEX
    ensures x in IndexOf(Docs(b, sp)) && x !in Docs(b, sp) ==> Torn(b)
    ensures x in Docs(b, sp) && x !in IndexOf(Docs(b, sp)) ==>
              if sp.Manifests? then x !in FilesIn(b.manifests) else x !in RefsIn(b.refcounts)
  {
    hide Sizable, IndexOf, Counts;
  }

  /** A count that is saved while another one is being removed. The record is
      there, and `open` does not see it if and only if it was not listed before. */
  lemma CountDuringRemoval(b: Disk, d: string, x: string, count: Pos, size: nat)
    requires b.plan.Never? && IndexReadable(b.refcounts) && d != INDEX && x != INDEX && d != x
    requires Agrees(FamilyOf(b.refcounts))
    ensures var o := Around(b, Refcounts, Drop(d), Put(x, CountSize(count, size)), true);
            && o.Done? && x in o.s.refcounts
            && (x !in RefsIn(o.s.refcounts) <==> x !in IndexOf(b.refcounts))
  {
    var c := Put(x, CountSize(count, size));
    AroundIsInterleaved(b, Refcounts, Drop(d), c, true);
    var f := FamilyOf(b.refcounts);
    InterleavedResult(f, Drop(d), c, Order(2, 2, 2));
    RetainFacts(f.index, d);
    var o := Around(b, Refcounts, Drop(d), c, true);
    FamilyLookup(o.s.refcounts, x);
    ListedCount(o.s.refcounts, x);
    hide Around, Interleaved, IndexReadable, Retain, RefsIn, IndexOf, NoDup, FamilyOf;
    OfFamily(b.refcounts);
    OfFamily(o.s.refcounts);
  }

  lemma OfFamily(m: map<string, Doc>)
    ensures FamilyOf(m).index == IndexOf(m) && FamilyOf(m).records == m - {INDEX}
  {
  }

  lemma FamilyLookup(m: map<string, Doc>, x: string)
    requires x != INDEX
    ensures x in FamilyOf(m).records <==> x in m
    ensures x in m ==> FamilyOf(m).records[x] == m[x]
  {
    assert x in m - {INDEX} <==> x in m;
  }

  lemma ListedCount(m: map<string, Doc>, x: string)
    requires x in m && m[x].CountSize? && m[x].count > 0
    ensures x in RefsIn(m) <==> x in IndexOf(m)
  {
    hide IndexOf;
  }

  /** Two counts that are removed, one while the other is: the inner one is listed
      without a record, which tears the backend, if and only if it was listed. */
  lemma RemovalDuringRemoval(b: Disk, d: string, x: string)
    requires b.plan.Never? && IndexReadable(b.refcounts) && d != INDEX && x != INDEX && d != x
    requires Agrees(FamilyOf(b.refcounts))
    ensures var o := Around(b, Refcounts, Drop(d), Drop(x), true);
            && o.Done? && x !in o.s.refcounts
            && (x in IndexOf(o.s.refcounts) <==> x in IndexOf(b.refcounts))
            && (x in IndexOf(b.refcounts) ==> Torn(o.s))
  {
    AroundIsInterleaved(b, Refcounts, Drop(d), Drop(x), true);
    var f := FamilyOf(b.refcounts);
    InterleavedResult(f, Drop(d), Drop(x), Order(2, 2, 2));
    RetainFacts(f.index, d);
    var o := Around(b, Refcounts, Drop(d), Drop(x), true);
    FamilyLookup(o.s.refcounts, x);
    hide Around, Interleaved, IndexReadable, Retain, Torn, IndexOf, NoDup, FamilyOf;
    OfFamily(b.refcounts);
    OfFamily(o.s.refcounts);
    DisagreementHurts(o.s, Refcounts, x);
  }

  /** Both families of an exact store agree with their lists. */
  lemma ConsistentAgrees(cfg: Cfg, s: State, pending: multiset<string>)
    requires Consistent(cfg, s, pending)
    ensures Agrees(FamilyOf(s.disk.manifests)) && IndexReadable(s.disk.manifests)
    ensures Agrees(FamilyOf(s.disk.refcounts)) && IndexReadable(s.disk.refcounts)
  {
    hide BlobsGood, Backed, Counted, FilesSized;
  }
}
