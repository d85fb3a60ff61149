/** A zone that answers an empty non-terminal from a wildcard (plugin/file/lookup.go). */
module WildcardWitness {
  import opened Wrappers
  import opened Names
  import opened Records
  import opened NameTree
  import opened ZoneData
  import opened LookupSpec
  import opened LookupTheorems
  import opened LookupAnswers
  import Transfer

  const ORG: Name := ["org"]
  const WILD: Name := ["*", "org"]
  const BELOW: Name := ["x", "b", "org"]
  const EMPTY_NAME: Name := ["b", "org"]
  const WITNESS := [RR(WILD, 300, AData("192.0.2.1")), RR(BELOW, 300, AData("192.0.2.2"))]

  lemma WitnessStored()
    ensures AllStored(ORG, InTree, WITNESS)
    ensures ValidName(ORG) && ValidName(WILD) && ValidName(BELOW) && ValidName(EMPTY_NAME)
  {
    assert ToLower(WILD) == WILD && ToLower(BELOW) == BELOW by {
      assert LowerLabel("*") == "*" && LowerLabel("x") == "x" && LowerLabel("b") == "b" && LowerLabel("org") == "org";
    }
  }

  /** Two addresses at different names, seen at one name and type. */
  lemma {:induction false} PairViews(a: RR, b: RR, n: Name, t: RRType)
    requires a.Type() == b.Type() == A && a.owner != b.owner
    ensures Collect(Project([a, b], n, t)) ==
            if t.A? && n == a.owner then [a] else if t.A? && n == b.owner then [b] else []
  {
    hide RR.Type, AddToList, Project, Collect;
    assert [a, b][..1] == [a] && [a][..0] == [] && [] + [a] == [a] && [] + [b] == [b];
    NoRecords(n, t);
    ProjectMore([a], n, t);
    ProjectMore([a, b], n, t);
    CollectMore([], a);
    CollectMore([], b);
    FirstAdded(a);
    FirstAdded(b);
  }

  lemma NoRecords(n: Name, t: RRType)
    ensures Project([], n, t) == [] && Collect([]) == []
  {}

  lemma FirstAdded(rr: RR)
    ensures AddToList([], rr) == [rr]
  {}

  lemma {:induction false} WitnessViews(z0: Contents, z: Contents, n: Name, t: RRType)
    requires z0.elems == [] && z == InsertAll(ORG, z0, WITNESS)
    ensures z.apex == z0.apex && Sorted(z.elems)
    ensures View(z.elems, n, t) ==
            if t.A? && n == WILD then [WITNESS[0]] else if t.A? && n == BELOW then [WITNESS[1]] else []
  {
    assert |WILD| < |BELOW| && WITNESS[0].Type() == WITNESS[1].Type() == A;
    assert WITNESS[0].owner == WILD && WITNESS[1].owner == BELOW && WITNESS == [WITNESS[0], WITNESS[1]];
    hide *;
    WitnessStored();
    InsertAllView(ORG, z0, WITNESS, n, t);
    PairViews(WITNESS[0], WITNESS[1], n, t);
  }

  const WITNESS_SOA := RR(ORG, 300, SOAData(ORG, ORG, 1))
  const WITNESS_QUERY := Query(EMPTY_NAME, A, false)

  lemma WitnessValid()
    ensures Stored(ORG, ApexSOA, WITNESS_SOA) && RecordsValid([WITNESS_SOA] + WITNESS)
  {
    WitnessStored();
    assert Stored(ORG, ApexSOA, WITNESS_SOA) by {
      assert LowerLabel("org") == "org";
      assert ToLower(ORG) == ORG;
    }
    hide ValidRR, Lower, SlotOf;
    assert Stored(ORG, InTree, WITNESS[0]) && Stored(ORG, InTree, WITNESS[1]);
  }

  /** What the zone holds: one address at each of the two names. */
  ghost predicate Holds(z: Contents) {
    && ZoneOk(ORG, z) && ElemsValid(z.elems) && Sorted(z.elems) && z.apex.soa == Some(WITNESS_SOA)
    && forall n, t :: View(z.elems, n, t) ==
         if t.A? && n == WILD then [WITNESS[0]] else if t.A? && n == BELOW then [WITNESS[1]] else []
  }

  lemma {:induction false} WitnessZone(z: Contents)
    requires z == InsertAll(ORG, EMPTY, [WITNESS_SOA] + WITNESS)
    ensures Holds(z)
  {
    hide ZoneOk, ValidRR, Lower, InsertAll, View, Sorted, ElemsValid, ElemsStored, Stored, RecordsValid;
    WitnessValid();
    assert ZoneOk(ORG, EMPTY) by { EmptyOk(); }
    InsertAllOk(ORG, EMPTY, [WITNESS_SOA] + WITNESS);
    ValidOf(ORG, z);
    InsertAllConcat(ORG, EMPTY, [WITNESS_SOA], WITNESS);
    Transfer.InsertSOA(ORG, EMPTY, WITNESS_SOA);
    var z0 := InsertAll(ORG, EMPTY, [WITNESS_SOA]);
    WitnessViews(z0, z, WILD, A);
    forall n, t
      ensures View(z.elems, n, t) ==
              if t.A? && n == WILD then [WITNESS[0]] else if t.A? && n == BELOW then [WITNESS[1]] else []
    {
      WitnessViews(z0, z, n, t);
    }
  }

  lemma EmptyOk()
    ensures ZoneOk(ORG, EMPTY)
  {}

  lemma WitnessPath()
    ensures IsSubDomain(ORG, EMPTY_NAME) && Depth(ORG, EMPTY_NAME) == 1 && IsSubDomain(EMPTY_NAME, BELOW)
    ensures PathName(ORG, EMPTY_NAME, 1) == EMPTY_NAME && Asterisk(EMPTY_NAME) == WILD
  {}

  lemma WitnessWalk(z: Contents)
    requires Holds(z) && IsSubDomain(ORG, EMPTY_NAME)
    ensures Walks(ORG, z, WITNESS_QUERY) && Passes(ORG, z, WITNESS_QUERY)
    ensures DeepestWildcard(ORG, z, WITNESS_QUERY, 1)
    ensures Find(z.elems, EMPTY_NAME).None? && OwnerBelow(z.elems, EMPTY_NAME)
  {
    hide ZoneOk, ElemsValid, Sorted, IsSubDomain, PathName, Asterisk, Depth, Find, View;
    WitnessPath();
    Transfer.ViewAbsent(z.elems, EMPTY_NAME);
    Present(z.elems, BELOW, A);
    Present(z.elems, WILD, A);
    var below := Find(z.elems, BELOW).value;
    assert below in z.elems && below.name == BELOW;
  }

  lemma Present(s: Elems, n: Name, t: RRType)
    requires View(s, n, t) != []
    ensures Find(s, n).Some?
  {}

  /** The zone with a wildcard at *.org. and an owner x.b.org. answers b.org., an empty
      non-terminal, with the wildcard's address. */
  lemma {:induction false} WildcardCoversNonTerminal(z: Contents, w: World)
    requires z == InsertAll(ORG, EMPTY, [WITNESS_SOA] + WITNESS)
    ensures ZoneOk(ORG, z) && Find(z.elems, EMPTY_NAME).None? && OwnerBelow(z.elems, EMPTY_NAME)
    ensures IsSubDomain(ORG, EMPTY_NAME) && ElemsValid(z.elems)
    ensures Lookup(ORG, z, WITNESS_QUERY, w).answer == [RR(EMPTY_NAME, 300, AData("192.0.2.1"))]
  {
    hide InsertAll, ZoneOk, ElemsValid, IsSubDomain, Passes, DeepestWildcard, Asterisk, PathName, Find, Lookup, OwnerBelow;
    hide View, Beyond, Soa, Ns, Deny, Sorted, Depth;
    WitnessPath();
    WitnessZone(z);
    WitnessWalk(z);
    var own := WildcardAnswered(ORG, z, WITNESS_QUERY, w, 1, WILD);
    var rrs := WithOwner([WITNESS[0]], EMPTY_NAME);
    assert rrs == [RR(EMPTY_NAME, 300, AData("192.0.2.1"))];
    NothingMore(rrs, View(z.elems, WILD, RRSIG), A, own);
  }

  lemma NothingMore(rrs: seq<RR>, sigs: seq<RR>, t: RRType, section: seq<RR>)
    requires Carries(rrs, WithOwner(sigs, EMPTY_NAME), t, false, section)
    ensures section == rrs
  {
    var more := section[|rrs|..];
    assert section == rrs + more;
    HasOne(more);
  }

  lemma HasOne(rrs: seq<RR>)
    ensures rrs != [] ==> exists rr :: rr in rrs
  {
    if rrs != [] {
      assert rrs[0] in rrs;
    }
  }
}
