/** A zone's records as values (plugin/file/zone.go): where a record goes, what
    inserting does, and what a listing of the whole zone is. */
module ZoneData {
  import opened Wrappers
  import opened Names
  import opened Records
  import opened NameTree
  import TreeOps

  /** The apex records, kept outside the tree. */
  datatype Apex = Apex(soa: Option<RR>, ns: seq<RR>, sigSOA: seq<RR>, sigNS: seq<RR>)

  const NO_APEX := Apex(None, [], [], [])

  datatype Slot = Rejected | ApexSOA | ApexNS | ApexSigSOA | ApexSigNS | InTree

  /** The switch of Zone.Insert on the lower-cased record. */
  function SlotOf(origin: Name, rr: RR): (s: Slot) {
    match rr.data
    case NSData(_) => if rr.owner == origin then ApexNS else InTree
    case SOAData(_, _, _) => ApexSOA
    case NSEC3Data(_) => Rejected
    case NSEC3PARAMData(_) => Rejected
    case RRSIGData(covered, _) =>
      if covered.SOA? then ApexSigSOA
      else if covered.NS? && rr.owner == origin then ApexSigNS
      else InTree
    case _ => InTree
  }

  datatype Contents = Contents(apex: Apex, elems: Elems)

  const EMPTY := Contents(NO_APEX, [])

  /** Zone.Insert; a rejected record changes nothing. */
  function Insert(origin: Name, z: Contents, rr: RR): (r: Contents) {
    var rr := Lower(rr);
    match SlotOf(origin, rr)
    case Rejected => z
    case ApexSOA => z.(apex := z.apex.(soa := Some(rr)))
    case ApexNS => z.(apex := z.apex.(ns := z.apex.ns + [rr]))
    case ApexSigSOA => z.(apex := z.apex.(sigSOA := z.apex.sigSOA + [rr]))
    case ApexSigNS => z.(apex := z.apex.(sigNS := z.apex.sigNS + [rr]))
    case InTree => z.(elems := Put(z.elems, rr))
  }

  predicate RecordsValid(rrs: seq<RR>) {
    forall i :: 0 <= i < |rrs| ==> ValidRR(rrs[i])
  }

  function InsertAll(origin: Name, z: Contents, rrs: seq<RR>): (r: Contents) {
    if rrs == [] then z else Insert(origin, InsertAll(origin, z, rrs[..|rrs| - 1]), rrs[|rrs| - 1])
  }

  // ----- what inserting keeps -----

  /** A stored record: lower-cased, and in the slot it belongs to. */
  predicate Stored(origin: Name, slot: Slot, rr: RR) {
    ValidRR(rr) && Lower(rr) == rr && SlotOf(origin, rr) == slot
  }

  predicate AllStored(origin: Name, slot: Slot, rrs: seq<RR>) {
    forall i :: 0 <= i < |rrs| ==> Stored(origin, slot, rrs[i])
  }

  predicate ElemStored(origin: Name, e: ElemVal) {
    forall t :: t in e.m ==> AllStored(origin, InTree, e.m[t])
  }

  predicate ElemsStored(origin: Name, s: Elems) {
    forall i :: 0 <= i < |s| ==> ElemStored(origin, s[i])
  }

  predicate ZoneOk(origin: Name, z: Contents) {
    && (z.apex.soa.Some? ==> Stored(origin, ApexSOA, z.apex.soa.value))
    && AllStored(origin, ApexNS, z.apex.ns)
    && AllStored(origin, ApexSigSOA, z.apex.sigSOA)
    && AllStored(origin, ApexSigNS, z.apex.sigNS)
    && Sorted(z.elems) && ElemsValid(z.elems) && ElemsStored(origin, z.elems)
  }

  lemma {:induction false} PutStored(origin: Name, s: Elems, rr: RR)
    requires ElemsStored(origin, s) && Stored(origin, InTree, rr)
    ensures ElemsStored(origin, Put(s, rr))
  {
    hide Compare, Stored;
    if s != [] {
      PutStored(origin, s[1..], rr);
      assert ElemStored(origin, AddRecord(s[0], rr));
      assert forall i :: 0 <= i < |s| - 1 ==> s[1..][i] == s[i + 1];
    }
  }

  lemma InsertOk(origin: Name, z: Contents, rr: RR)
    requires ZoneOk(origin, z) && ValidRR(rr)
    ensures ZoneOk(origin, Insert(origin, z, rr))
  {
    var r := Lower(rr);
    LowerIdempotent(rr);
    LowerValid(rr);
    assert ValidName(r.owner);
    hide ValidRR, ValidName, SlotOf;
    if SlotOf(origin, r) == InTree {
      hide Lower, Put, Sorted, ElemsValid, ElemsStored;
      PutSorted(z.elems, r);
      TreeOps.PutElems(z.elems, r);
      PutStored(origin, z.elems, r);
    } else {
      hide Sorted, ElemsValid, ElemsStored, Lower;
    }
  }

  /** Every zone built by insertions satisfies the invariant. */
  lemma {:induction false} InsertAllOk(origin: Name, z: Contents, rrs: seq<RR>)
    requires ZoneOk(origin, z) && RecordsValid(rrs)
    ensures ZoneOk(origin, InsertAll(origin, z, rrs))
  {
    hide ZoneOk, Insert;
    if rrs != [] {
      InsertAllOk(origin, z, rrs[..|rrs| - 1]);
      InsertOk(origin, InsertAll(origin, z, rrs[..|rrs| - 1]), rrs[|rrs| - 1]);
    }
  }

  lemma {:induction false} InsertAllConcat(origin: Name, z: Contents, a: seq<RR>, b: seq<RR>)
    ensures InsertAll(origin, z, a + b) == InsertAll(origin, InsertAll(origin, z, a), b)
  {
    hide Insert;
    if b == [] {
      assert a + b == a;
    } else {
      var i := |b| - 1;
      assert (a + b)[..|a + b| - 1] == a + b[..i];
      InsertAllConcat(origin, z, a, b[..i]);
    }
  }

  // ----- views -----

  /** The records of one name and type. */
  function View(s: Elems, n: Name, t: RRType): (l: seq<RR>) {
    var f := Find(s, n);
    if f.None? then [] else f.value.List(t)
  }

  /** The records of one name and type in a stream, in stream order. */
  function Project(rrs: seq<RR>, n: Name, t: RRType): (l: seq<RR>) {
    if rrs == [] then []
    else
      var last := rrs[|rrs| - 1];
      Project(rrs[..|rrs| - 1], n, t) + if last.owner == n && last.Type() == t then [last] else []
  }

  /** Adding records one by one to an empty list. */
  function Collect(rrs: seq<RR>): (l: seq<RR>) {
    if rrs == [] then [] else AddToList(Collect(rrs[..|rrs| - 1]), rrs[|rrs| - 1])
  }

  lemma {:induction false} CollectDeduped(l: seq<RR>)
    requires Deduped(l)
    ensures Collect(l) == l
  {
    hide EqualRdata;
    if l != [] {
      var i := |l| - 1;
      CollectDeduped(l[..i]);
      assert !Holds(l[..i], l[i]);
      assert l == l[..i] + [l[i]];
    }
  }

  lemma PutView(s: Elems, rr: RR, n: Name, t: RRType)
    requires Sorted(s) && ValidName(rr.owner)
    ensures View(Put(s, rr), n, t) ==
            if n == rr.owner && t == rr.Type() then AddToList(View(s, n, t), rr) else View(s, n, t)
  {
    hide Compare, Sorted, Put, Find;
    PutFind(s, rr, n);
    assert [] + [rr] == [rr];
  }

  predicate CoversType(rr: RR, t: RRType) {
    rr.data.RRSIGData? && rr.data.covered == t
  }

  /** The records Zone.Insert refuses. */
  predicate Refused(rr: RR) {
    rr.Type() == NSEC3 || rr.Type() == NSEC3PARAM
  }

  /** The records of the apex: the SOA, the signatures over one, and the NS records of the
      origin with their signatures. */
  predicate OfApex(origin: Name, rr: RR) {
    || rr.Type() == SOA || CoversType(rr, SOA)
    || (rr.owner == origin && (rr.Type() == NS || CoversType(rr, NS)))
  }

  /** What Zone.Insert does to a zone, by type, owner and covered type of the record: it changes
      the one apex field the record belongs to, or the records of its own name and type, and
      nothing else; NSEC3 records change nothing. */
  lemma {:induction false} InsertExactly(origin: Name, z: Contents, rr: RR, r: RR, z': Contents)
    requires Sorted(z.elems) && ValidRR(rr) && r == Lower(rr) && z' == Insert(origin, z, rr)
    ensures Refused(rr) ==> z' == z
    ensures rr.Type() == SOA ==> z' == z.(apex := z.apex.(soa := Some(r)))
    ensures CoversType(r, SOA) ==> z' == z.(apex := z.apex.(sigSOA := z.apex.sigSOA + [r]))
    ensures rr.Type() == NS && r.owner == origin ==> z' == z.(apex := z.apex.(ns := z.apex.ns + [r]))
    ensures CoversType(r, NS) && r.owner == origin ==> z' == z.(apex := z.apex.(sigNS := z.apex.sigNS + [r]))
    ensures !Refused(rr) && !OfApex(origin, r) ==>
      && z'.apex == z.apex && Sorted(z'.elems)
      && forall n, t :: View(z'.elems, n, t) ==
           if n == r.owner && t == rr.Type() then AddToList(View(z.elems, n, t), r) else View(z.elems, n, t)
  {
    hide Lower, Sorted, View, Put, AddToList, ValidName, ValidRR, Refused, OfApex, CoversType, RR.Type;
    InsertCases(origin, z, rr, r);
    hide Insert;
    if !Refused(rr) && !OfApex(origin, r) {
      PutSorted(z.elems, r);
      forall n, t
        ensures View(z'.elems, n, t) ==
                if n == r.owner && t == rr.Type() then AddToList(View(z.elems, n, t), r) else View(z.elems, n, t)
      {
        PutView(z.elems, r, n, t);
      }
    }
  }

  /** Where a record goes, by type, owner and covered type. */
  lemma SlotExactly(origin: Name, r: RR)
    ensures SlotOf(origin, r) == Rejected <==> Refused(r)
    ensures SlotOf(origin, r) == ApexSOA <==> r.Type() == SOA
    ensures SlotOf(origin, r) == ApexSigSOA <==> CoversType(r, SOA)
    ensures SlotOf(origin, r) == ApexNS <==> r.Type() == NS && r.owner == origin
    ensures SlotOf(origin, r) == ApexSigNS <==> CoversType(r, NS) && r.owner == origin
    ensures SlotOf(origin, r) == InTree <==> !Refused(r) && !OfApex(origin, r)
  {}

  lemma {:induction false} InsertCases(origin: Name, z: Contents, rr: RR, r: RR)
    requires ValidRR(rr) && r == Lower(rr)
    ensures Refused(rr) ==> Insert(origin, z, rr) == z
    ensures rr.Type() == SOA ==> Insert(origin, z, rr) == z.(apex := z.apex.(soa := Some(r)))
    ensures CoversType(r, SOA) ==> Insert(origin, z, rr) == z.(apex := z.apex.(sigSOA := z.apex.sigSOA + [r]))
    ensures rr.Type() == NS && r.owner == origin ==> Insert(origin, z, rr) == z.(apex := z.apex.(ns := z.apex.ns + [r]))
    ensures CoversType(r, NS) && r.owner == origin ==>
              Insert(origin, z, rr) == z.(apex := z.apex.(sigNS := z.apex.sigNS + [r]))
    ensures !Refused(rr) && !OfApex(origin, r) ==>
              Insert(origin, z, rr) == z.(elems := Put(z.elems, r)) && ValidName(r.owner)
  {
    assert r.Type() == rr.Type();
    LowerValid(rr);
    assert ValidName(r.owner);
    SlotExactly(origin, r);
    hide Lower, Put, ValidName, ValidRR, SlotOf, RR.Type, CoversType;
  }

  lemma InsertInTree(origin: Name, z: Contents, rr: RR)
    requires Stored(origin, InTree, rr)
    ensures ValidName(rr.owner) && Insert(origin, z, rr) == z.(elems := Put(z.elems, rr))
  {}

  lemma CollectMore(rrs: seq<RR>, rr: RR)
    ensures Collect(rrs + [rr]) == AddToList(Collect(rrs), rr)
  {}

  lemma ProjectMore(rrs: seq<RR>, n: Name, t: RRType)
    requires rrs != []
    ensures var p, last := Project(rrs[..|rrs| - 1], n, t), rrs[|rrs| - 1];
            Project(rrs, n, t) == if last.owner == n && last.Type() == t then p + [last] else p
  {}

  /** Inserting records that all go into the tree, seen at one name and type. */
  lemma {:induction false} InsertAllView(origin: Name, z: Contents, rrs: seq<RR>, n: Name, t: RRType)
    requires z.elems == [] && AllStored(origin, InTree, rrs)
    ensures InsertAll(origin, z, rrs).apex == z.apex
    ensures Sorted(InsertAll(origin, z, rrs).elems)
    ensures View(InsertAll(origin, z, rrs).elems, n, t) == Collect(Project(rrs, n, t))
  {
    if rrs != [] {
      var i := |rrs| - 1;
      InsertAllView(origin, z, rrs[..i], n, t);
      assert Stored(origin, InTree, rrs[i]);
      hide Insert, Stored, Put, Sorted, View, Project, Collect, AddToList, RR.Type;
      var z' := InsertAll(origin, z, rrs[..i]);
      assert InsertAll(origin, z, rrs) == Insert(origin, z', rrs[i]);
      hide InsertAll;
      InsertInTree(origin, z', rrs[i]);
      PutView(z'.elems, rrs[i], n, t);
      PutSorted(z'.elems, rrs[i]);
      ProjectMore(rrs, n, t);
      CollectMore(Project(rrs[..i], n, t), rrs[i]);
    }
  }
}
