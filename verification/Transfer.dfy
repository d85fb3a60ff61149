/** Zone transfer (plugin/file/xfr.go and plugin/file/secondary.go, section 2.2 of
    RFC 5936): what is sent, how it is cut into envelopes, and what a secondary
    makes of it. */
module Transfer {
  import opened Wrappers
  import opened Names
  import opened Records
  import opened NameTree
  import opened ZoneData
  import TreeOps

  // ----- listings -----

  /** rrs lists the tree: at every name and type, the stored records in order.  In
      which order the types of a name come is left open. */
  ghost predicate ListsTree(s: Elems, rrs: seq<RR>) {
    forall n, t :: Project(rrs, n, t) == View(s, n, t)
  }

  lemma {:induction false} ProjectConcat(a: seq<RR>, b: seq<RR>, n: Name, t: RRType)
    ensures Project(a + b, n, t) == Project(a, n, t) + Project(b, n, t)
  {
    if b == [] {
      assert a + b == a;
      assert Project(a, n, t) + [] == Project(a, n, t);
    } else {
      var i := |b| - 1;
      assert (a + b)[..|a + b| - 1] == a + b[..i];
      ProjectConcat(a, b[..i], n, t);
    }
  }

  lemma {:induction false} ProjectSame(l: seq<RR>, name: Name, u: RRType, n: Name, t: RRType)
    requires forall i :: 0 <= i < |l| ==> l[i].owner == name && l[i].Type() == u
    ensures Project(l, n, t) == if n == name && t == u then l else []
  {
    hide RR.Type;
    if l != [] {
      hide *;
      var rest, last := l[..|l| - 1], l[|l| - 1];
      assert last.owner == name && last.Type() == u;
      ProjectSame(rest, name, u, n, t);
      ProjectMore(l, n, t);
      assert l == rest + [last];
    }
  }

  lemma {:induction false} ProjectHas(rrs: seq<RR>, i: nat)
    requires i < |rrs|
    ensures rrs[i] in Project(rrs, rrs[i].owner, rrs[i].Type())
  {
    if i < |rrs| - 1 {
      ProjectHas(rrs[..|rrs| - 1], i);
    }
  }

  lemma ListedStored(origin: Name, s: Elems, rrs: seq<RR>)
    requires ElemsStored(origin, s) && ListsTree(s, rrs)
    ensures AllStored(origin, InTree, rrs)
  {
    hide Stored, Project;
    forall i | 0 <= i < |rrs|
      ensures Stored(origin, InTree, rrs[i])
    {
      var n, t := rrs[i].owner, rrs[i].Type();
      ProjectHas(rrs, i);
      var l := View(s, n, t);
      assert rrs[i] in l;
      var e := Find(s, n).value;
      assert t in e.m;
      var k :| 0 <= k < |s| && s[k] == e;
      assert ElemStored(origin, s[k]);
    }
  }

  /** Zone.All: the apex, then the tree. */
  function ZoneRecords(apex: Apex, rrs: seq<RR>): (r: seq<RR>)
    requires apex.soa.Some?
    ensures r != [] && r[0] == apex.soa.value
  {
    [apex.soa.value] + apex.sigSOA + apex.ns + apex.sigNS + rrs
  }

  /** Records that list a whole zone: the apex, and after it the tree. */
  ghost predicate ListsZone(z: Contents, records: seq<RR>)
    requires z.apex.soa.Some?
  {
    var head := ZoneRecords(z.apex, []);
    head <= records && ListsTree(z.elems, records[|head|..])
  }

  /** The records that follow the SOA in such a list. */
  ghost predicate ListsRest(z: Contents, rest: seq<RR>) {
    var head := z.apex.sigSOA + z.apex.ns + z.apex.sigNS;
    head <= rest && ListsTree(z.elems, rest[|head|..])
  }

  lemma RestListed(z: Contents, rrs: seq<RR>)
    requires ListsTree(z.elems, rrs)
    ensures ListsRest(z, z.apex.sigSOA + z.apex.ns + z.apex.sigNS + rrs)
  {
    var head := z.apex.sigSOA + z.apex.ns + z.apex.sigNS;
    assert (head + rrs)[|head|..] == rrs;
  }

  lemma ZoneListed(z: Contents, rest: seq<RR>)
    requires z.apex.soa.Some? && ListsRest(z, rest)
    ensures ListsZone(z, [z.apex.soa.value] + rest)
  {
    hide ListsTree;
    var head := z.apex.sigSOA + z.apex.ns + z.apex.sigNS;
    var soa := z.apex.soa.value;
    assert ZoneRecords(z.apex, []) == [soa] + head;
    assert ([soa] + rest)[|head| + 1..] == rest[|head|..];
  }

  // ----- the secondary's copy -----

  lemma {:induction false} InsertApexNS(origin: Name, z: Contents, l: seq<RR>)
    requires AllStored(origin, ApexNS, l)
    ensures InsertAll(origin, z, l) == z.(apex := z.apex.(ns := z.apex.ns + l))
  {
    if l == [] {
      assert z.apex.ns + l == z.apex.ns;
    } else {
      InsertApexNS(origin, z, l[..|l| - 1]);
      assert Stored(origin, ApexNS, l[|l| - 1]);
      assert l == l[..|l| - 1] + [l[|l| - 1]];
    }
  }

  lemma {:induction false} InsertApexSigSOA(origin: Name, z: Contents, l: seq<RR>)
    requires AllStored(origin, ApexSigSOA, l)
    ensures InsertAll(origin, z, l) == z.(apex := z.apex.(sigSOA := z.apex.sigSOA + l))
  {
    if l == [] {
      assert z.apex.sigSOA + l == z.apex.sigSOA;
    } else {
      InsertApexSigSOA(origin, z, l[..|l| - 1]);
      assert Stored(origin, ApexSigSOA, l[|l| - 1]);
      assert l == l[..|l| - 1] + [l[|l| - 1]];
    }
  }

  lemma {:induction false} InsertApexSigNS(origin: Name, z: Contents, l: seq<RR>)
    requires AllStored(origin, ApexSigNS, l)
    ensures InsertAll(origin, z, l) == z.(apex := z.apex.(sigNS := z.apex.sigNS + l))
  {
    if l == [] {
      assert z.apex.sigNS + l == z.apex.sigNS;
    } else {
      InsertApexSigNS(origin, z, l[..|l| - 1]);
      assert Stored(origin, ApexSigNS, l[|l| - 1]);
      assert l == l[..|l| - 1] + [l[|l| - 1]];
    }
  }

  lemma InsertSOA(origin: Name, z: Contents, rr: RR)
    requires Stored(origin, ApexSOA, rr)
    ensures InsertAll(origin, z, [rr]) == z.(apex := z.apex.(soa := Some(rr)))
  {}

  /** Equal views of valid elements are equal elements. */
  lemma {:induction false} SameElem(a: ElemVal, b: ElemVal)
    requires a.Valid() && b.Valid() && a.name == b.name
    requires forall t :: a.List(t) == b.List(t)
    ensures a == b
  {
    forall t
      ensures t in a.m <==> t in b.m
      ensures t in a.m ==> a.m[t] == b.m[t]
    {
      assert a.List(t) == b.List(t);
    }
    assert a.m == b.m;
  }

  lemma ViewAbsent(s: Elems, n: Name)
    requires Sorted(s) && ElemsValid(s)
    ensures Find(s, n).None? <==> forall t :: View(s, n, t) == []
  {
    hide Compare, Sorted, Find;
    if Find(s, n).Some? {
      var e := Find(s, n).value;
      assert e.Valid();
      var t :| t in e.m;
      assert View(s, n, t) != [];
    }
  }

  lemma FindHead(s: Elems)
    requires s != []
    ensures Find(s, s[0].name) == Some(s[0])
  {}

  /** Two sorted listings with the same views are the same. */
  lemma {:induction false} SameListing(a: Elems, b: Elems)
    requires Sorted(a) && Sorted(b)
    requires forall q :: Find(a, q) == Find(b, q)
    ensures a == b
  {
    hide Compare, Sorted;
    if a == [] || b == [] {
      if a != b {
        FindHead(if a == [] then b else a);
        assert false;
      }
    } else {
      assert a == [a[0]] + a[1..] && b == [b[0]] + b[1..];
      SortedCons(a[0], a[1..]);
      SortedCons(b[0], b[1..]);
      SameFirst(a, b);
      forall q
        ensures Find(a[1..], q) == Find(b[1..], q)
      {
        FindCons(a[0], a[1..], q);
        FindCons(b[0], b[1..], q);
        if q == a[0].name {
          FindAbove(a[1..], q);
          FindAbove(b[1..], q);
        }
      }
      SameListing(a[1..], b[1..]);
    }
  }

  lemma {:induction false} SameFirst(a: Elems, b: Elems)
    requires a != [] && b != [] && Sorted(a) && Sorted(b)
    requires forall q :: Find(a, q) == Find(b, q)
    ensures a[0] == b[0]
  {
    hide Compare;
    var x, y := a[0].name, b[0].name;
    assert Find(a, x) == Some(a[0]) && Find(b, y) == Some(b[0]);
    assert Find(b, x) == Some(a[0]) && Find(a, y) == Some(b[0]);
    var i :| 0 <= i < |b| && b[i] == a[0];
    var j :| 0 <= j < |a| && a[j] == b[0];
    if i > 0 && j > 0 {
      CompareTotalOrder(x, y, x);
      assert false;
    }
  }

  /** Inserting a listing of a zone's tree into an empty tree gives the tree back. */
  lemma RebuildTree(origin: Name, z: Contents, z0: Contents, rrs: seq<RR>)
    requires ZoneOk(origin, z) && ListsTree(z.elems, rrs) && z0.elems == []
    ensures InsertAll(origin, z0, rrs) == z0.(elems := z.elems)
  {
    ListedStored(origin, z.elems, rrs);
    var z1 := InsertAll(origin, z0, rrs);
    InsertAllView(origin, z0, rrs, [], A);
    assert ElemsValid(z1.elems) by { InsertedElemsValid(origin, z0, rrs); }
    hide Sorted, InsertAll, Project, Collect, Stored, AllStored, ElemsStored, Find;
    forall n, t
      ensures View(z1.elems, n, t) == View(z.elems, n, t)
    {
      InsertAllView(origin, z0, rrs, n, t);
      ViewDeduped(z.elems, n, t);
      assert Project(rrs, n, t) == View(z.elems, n, t);
      CollectDeduped(View(z.elems, n, t));
    }
    forall q
      ensures Find(z1.elems, q) == Find(z.elems, q)
    {
      SameFind(z1.elems, z.elems, q);
    }
    SameListing(z1.elems, z.elems);
  }

  lemma {:induction false} SameFind(a: Elems, b: Elems, q: Name)
    requires Sorted(a) && ElemsValid(a) && Sorted(b) && ElemsValid(b)
    requires forall t :: View(a, q, t) == View(b, q, t)
    ensures Find(a, q) == Find(b, q)
  {
    ViewAbsent(a, q);
    ViewAbsent(b, q);
    hide Sorted, Find;
    if Find(a, q).Some? {
      var x, y := Find(a, q).value, Find(b, q).value;
      assert forall t :: x.List(t) == View(a, q, t) && y.List(t) == View(b, q, t);
      SameElem(x, y);
    }
  }

  lemma ViewDeduped(s: Elems, n: Name, t: RRType)
    requires ElemsValid(s)
    ensures Deduped(View(s, n, t))
  {}

  lemma {:induction false} InsertedElemsValid(origin: Name, z: Contents, rrs: seq<RR>)
    requires ElemsValid(z.elems) && AllStored(origin, InTree, rrs)
    ensures ElemsValid(InsertAll(origin, z, rrs).elems)
  {
    if rrs != [] {
      var i := |rrs| - 1;
      hide Put, ElemsValid, Stored, Insert, Lower;
      InsertedElemsValid(origin, z, rrs[..i]);
      assert Stored(origin, InTree, rrs[i]);
      var z' := InsertAll(origin, z, rrs[..i]);
      assert InsertAll(origin, z, rrs) == Insert(origin, z', rrs[i]);
      hide InsertAll;
      InsertInTree(origin, z', rrs[i]);
      TreeOps.PutElems(z'.elems, rrs[i]);
    }
  }

  /** The stream of a transfer: the whole zone, closed by its SOA. */
  function Stream(apex: Apex, rrs: seq<RR>): (r: seq<RR>)
    requires apex.soa.Some?
  {
    ZoneRecords(apex, rrs) + [apex.soa.value]
  }

  /** A secondary that starts empty and inserts the stream of any listing of a zone
      ends up with the zone: the same apex and the same elements. */
  lemma RoundTrip(origin: Name, z: Contents, rrs: seq<RR>)
    requires ZoneOk(origin, z) && z.apex.soa.Some? && ListsTree(z.elems, rrs)
    ensures InsertAll(origin, EMPTY, Stream(z.apex, rrs)) == z
  {
    hide InsertAll, Stored, AllStored, ElemsStored, Sorted, ElemsValid, ListsTree;
    var soa, a := z.apex.soa.value, z.apex;
    var s1 := [soa] + a.sigSOA;
    var s2 := s1 + a.ns;
    var s3 := s2 + a.sigNS;
    var s4 := s3 + rrs;
    assert Stream(a, rrs) == s4 + [soa];
    InsertAllConcat(origin, EMPTY, [soa], a.sigSOA);
    InsertAllConcat(origin, EMPTY, s1, a.ns);
    InsertAllConcat(origin, EMPTY, s2, a.sigNS);
    InsertAllConcat(origin, EMPTY, s3, rrs);
    InsertAllConcat(origin, EMPTY, s4, [soa]);
    InsertSOA(origin, EMPTY, soa);
    var z0 := EMPTY.(apex := NO_APEX.(soa := Some(soa)));
    InsertApexSigSOA(origin, z0, a.sigSOA);
    var z1 := z0.(apex := z0.apex.(sigSOA := a.sigSOA));
    assert [] + a.sigSOA == a.sigSOA;
    InsertApexNS(origin, z1, a.ns);
    assert [] + a.ns == a.ns;
    var z2 := z1.(apex := z1.apex.(ns := a.ns));
    InsertApexSigNS(origin, z2, a.sigNS);
    assert [] + a.sigNS == a.sigNS;
    var z3 := z2.(apex := z2.apex.(sigNS := a.sigNS));
    assert z3.apex == a;
    RebuildTree(origin, z, z3, rrs);
    InsertSOA(origin, z, soa);
  }

  /** The records of a transfer: a listing of the zone, closed by its SOA. */
  ghost predicate IsTransfer(z: Contents, records: seq<RR>)
    requires z.apex.soa.Some?
  {
    && records != [] && records[|records| - 1] == z.apex.soa.value
    && ListsZone(z, records[..|records| - 1])
  }

  lemma TransferIsStream(z: Contents, records: seq<RR>) returns (rrs: seq<RR>)
    requires z.apex.soa.Some? && IsTransfer(z, records)
    ensures ListsTree(z.elems, rrs) && records == Stream(z.apex, rrs)
  {
    var listed := records[..|records| - 1];
    var head := ZoneRecords(z.apex, []);
    rrs := listed[|head|..];
    assert listed == head + rrs;
    assert records == listed + [z.apex.soa.value];
  }

  /** Whatever transfer of a zone a secondary inserts, it ends up with the zone. */
  lemma TransferRoundTrip(origin: Name, z: Contents, records: seq<RR>)
    requires ZoneOk(origin, z) && z.apex.soa.Some? && IsTransfer(z, records)
    ensures InsertAll(origin, EMPTY, records) == z
  {
    var rrs := TransferIsStream(z, records);
    RoundTrip(origin, z, rrs);
  }

  /** For every zone built by Zone.Insert. */
  lemma {:induction false} RoundTripOfInserted(origin: Name, inserted: seq<RR>, z: Contents, records: seq<RR>)
    requires RecordsValid(inserted) && z == InsertAll(origin, EMPTY, inserted)
    requires z.apex.soa.Some? && IsTransfer(z, records)
    ensures InsertAll(origin, EMPTY, records) == z
  {
    InsertAllOk(origin, EMPTY, inserted);
    hide *;
    TransferRoundTrip(origin, z, records);
  }

  // ----- envelopes -----

  const TRANSFER_LENGTH := 1000

  function TotalLen(rrs: seq<RR>, len: RR -> nat): (l: nat) {
    if rrs == [] then 0 else TotalLen(rrs[..|rrs| - 1], len) + len(rrs[|rrs| - 1])
  }

  function Flatten(envs: seq<seq<RR>>): (r: seq<RR>) {
    if envs == [] then [] else Flatten(envs[..|envs| - 1]) + envs[|envs| - 1]
  }

  /** The part of the k-th envelope the loop has counted: all of the first envelope,
      all but the first record of a later one. */
  function Counted(k: nat, env: seq<RR>): (r: seq<RR>) {
    if k == 0 || env == [] then env else env[1..]
  }

  /** What is counted fits, and the envelope before it was closed because the first
      record of this one did not fit there. */
  predicate WellCut(envs: seq<seq<RR>>, k: nat, len: RR -> nat)
    requires k < |envs|
  {
    && TotalLen(Counted(k, envs[k]), len) <= TRANSFER_LENGTH
    && (k > 0 ==>
          envs[k] != [] && TotalLen(Counted(k - 1, envs[k - 1]), len) + len(envs[k][0]) > TRANSFER_LENGTH)
  }

  predicate Packed(envs: seq<seq<RR>>, len: RR -> nat) {
    forall k :: 0 <= k < |envs| ==> WellCut(envs, k, len)
  }

  lemma WellCutStays(envs: seq<seq<RR>>, env: seq<RR>, k: nat, len: RR -> nat)
    requires k < |envs| && WellCut(envs, k, len)
    ensures WellCut(envs + [env], k, len)
  {}

  lemma FlattenOne(envs: seq<seq<RR>>, env: seq<RR>)
    ensures Flatten(envs + [env]) == Flatten(envs) + env
  {}

  lemma PackOne(envs: seq<seq<RR>>, env: seq<RR>, len: RR -> nat)
    requires Packed(envs, len) && WellCut(envs + [env], |envs|, len)
    ensures Packed(envs + [env], len)
    ensures Flatten(envs + [env]) == Flatten(envs) + env
  {
    hide WellCut;
    FlattenOne(envs, env);
    forall k | 0 <= k < |envs|
      ensures WellCut(envs + [env], k, len)
    {
      WellCutStays(envs, env, k, len);
    }
  }

  lemma TotalLenStep(s: seq<RR>, a: nat, i: nat, len: RR -> nat)
    requires a <= i < |s|
    ensures TotalLen(s[a..i + 1], len) == TotalLen(s[a..i], len) + len(s[i])
  {
    assert s[a..i + 1][..i - a] == s[a..i];
  }

  lemma TotalLenNone(s: seq<RR>, i: nat, len: RR -> nat)
    requires i <= |s|
    ensures TotalLen(s[i..i], len) == 0
  {}

  /** Where the envelope loop stands: the envelopes sent hold the records before j, and l is
      what has been counted since, which fits. */
  ghost predicate Counting(envs: seq<seq<RR>>, records: seq<RR>, j: nat, i: nat, l: nat, len: RR -> nat) {
    && j <= i <= |records| && Flatten(envs) == records[..j] && Packed(envs, len) && l <= TRANSFER_LENGTH
    && (envs == [] ==> j == 0 && l == TotalLen(records[0..i], len))
    && (envs != [] ==>
          && j < i && l == TotalLen(records[j + 1..i], len)
          && TotalLen(Counted(|envs| - 1, envs[|envs| - 1]), len) + len(records[j]) > TRANSFER_LENGTH)
  }

  lemma CountNone(records: seq<RR>, len: RR -> nat)
    ensures Counting([], records, 0, 0, 0, len)
  {
    TotalLenNone(records, 0, len);
    assert records[..0] == [];
  }

  lemma CountMore(envs: seq<seq<RR>>, records: seq<RR>, j: nat, i: nat, l: nat, len: RR -> nat)
    requires Counting(envs, records, j, i, l, len) && i < |records| && l + len(records[i]) <= TRANSFER_LENGTH
    ensures Counting(envs, records, j, i + 1, l + len(records[i]), len)
  {
    hide TotalLen, Flatten, Packed, Counted;
    TotalLenStep(records, if envs == [] then 0 else j + 1, i, len);
  }

  /** Closing an envelope before record i, at the end or because that one does not fit. */
  lemma CloseEnvelope(envs: seq<seq<RR>>, records: seq<RR>, j: nat, i: nat, l: nat, len: RR -> nat)
    requires Counting(envs, records, j, i, l, len)
    ensures Flatten(envs + [records[j..i]]) == records[..i] && Packed(envs + [records[j..i]], len)
    ensures TotalLen(Counted(|envs|, records[j..i]), len) == l
  {
    hide TotalLen, Flatten, Packed;
    var env := records[j..i];
    assert Counted(|envs|, env) == if envs == [] then records[0..i] else records[j + 1..i];
    PackOne(envs, env, len);
    assert records[..j] + env == records[..i];
  }

  lemma {:induction false} CountAnew(envs: seq<seq<RR>>, records: seq<RR>, i: nat, len: RR -> nat)
    requires i < |records| && envs != [] && Flatten(envs) == records[..i] && Packed(envs, len)
    requires TotalLen(Counted(|envs| - 1, envs[|envs| - 1]), len) + len(records[i]) > TRANSFER_LENGTH
    ensures Counting(envs, records, i, i + 1, 0, len)
  {
    hide TotalLen, Flatten, Packed, Counted;
    TotalLenNone(records, i + 1, len);
  }

  /** The envelope loop of Xfr.ServeDNS: nothing is lost or reordered, what is
      counted fits, and an envelope is closed only when the next record would not. */
  method Envelopes(records: seq<RR>, len: RR -> nat) returns (envs: seq<seq<RR>>)
    ensures Flatten(envs) == records && Packed(envs, len)
  {
    hide TotalLen, Flatten, Packed, Counted;
    var j: nat, l: nat := 0, 0;
    envs := [];
    CountNone(records, len);
    for i := 0 to |records|
      invariant Counting(envs, records, j, i, l, len)
    {
      if l + len(records[i]) > TRANSFER_LENGTH {
        CloseEnvelope(envs, records, j, i, l, len);
        envs := envs + [records[j..i]];
        CountAnew(envs, records, i, len);
        l := 0;
        j := i;
      } else {
        CountMore(envs, records, j, i, l, len);
        l := l + len(records[i]);
      }
    }
    assert records[..|records|] == records;
    if j < |records| {
      CloseEnvelope(envs, records, j, |records|, l, len);
      assert records[j..] == records[j..|records|];
      envs := envs + [records[j..]];
    }
  }

  // ----- serial numbers -----

  const MAX_SERIAL_INCREMENT := 0x7FFF_FFFF
  newtype Serial = x: int | 0 <= x < 0x1_0000_0000

  /** less of secondary.go: both subtractions are of the larger by the smaller. */
  predicate SerialLess(a: Serial, b: Serial) {
    if a < b then (b - a) as int <= MAX_SERIAL_INCREMENT else (a - b) as int > MAX_SERIAL_INCREMENT
  }

  /** Section 3.2 of RFC 1982: b is ahead of a by less than half the circle.  At
      exactly half, which the RFC leaves undefined, the smaller number is taken to
      be ahead; so two different serials are always ordered, one way only. */
  lemma SerialLessIsCircular(a: Serial, b: Serial)
    ensures var d := (b as int - a as int) % 0x1_0000_0000;
      SerialLess(a, b) <==> 0 < d < 0x8000_0000 || (d == 0x8000_0000 && b < a)
    ensures a != b ==> SerialLess(a, b) == !SerialLess(b, a)
    ensures !SerialLess(a, a)
  {}
}
