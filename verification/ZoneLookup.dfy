/** Zone.Lookup of plugin/file/lookup.go on the zone in memory. */
module ZoneLookup {
  import opened Wrappers
  import opened Names
  import opened Records
  import opened NameTree
  import opened ZoneData
  import opened LookupSpec
  import opened LookupTheorems
  import opened LookupAnswers
  import HeapTree
  import TreeOps
  import OwnerTree
  import ZoneStore

  /** Tree.Search with the element's value. */
  method SearchValue(t: OwnerTree.Tree, q: Name) returns (r: Option<ElemVal>)
    requires t.Valid() && NameOrEmpty(q)
    ensures t.Valid() && r == Find(t.Listing(), q)
  {
    hide OwnerTree.Tree.Valid, OwnerTree.Tree.Listing, Find;
    var e, found, _ := t.Search(q);
    r := if found then Some(e.Val()) else None;
  }

  method NextValue(t: OwnerTree.Tree, q: Name) returns (r: Option<ElemVal>)
    requires t.Valid() && NameOrEmpty(q)
    ensures t.Valid() && r == NextOf(t.Listing(), q)
  {
    t.Invariant();
    hide OwnerTree.Tree.Valid, OwnerTree.Tree.Listing, NextOf, TreeOps.IsNext;
    var e, found := t.Next(q);
    r := if found then Some(e.Val()) else None;
    NextOfIsNext(t.Listing(), q, r);
  }

  method PrevValue(t: OwnerTree.Tree, q: Name) returns (r: Option<ElemVal>)
    requires t.Valid() && NameOrEmpty(q)
    ensures t.Valid() && r == PrevOf(t.Listing(), q)
  {
    t.Invariant();
    hide OwnerTree.Tree.Valid, OwnerTree.Tree.Listing, PrevOf, TreeOps.IsPrev;
    var e, found := t.Prev(q);
    r := if found then Some(e.Val()) else None;
    PrevOfIsPrev(t.Listing(), q, r);
  }

  /** dns.PrevLabel: the position of the n-th label from the right, or an overshoot. */
  function PrevLabel(q: Name, n: nat): (r: (nat, bool))
    ensures r.1 <==> n > |q|
    ensures !r.1 ==> r.0 == |q| - n
  {
    if n > |q| then (0, true) else (|q| - n, false)
  }

  /** Zone.nameFromRight with its two loops. */
  method NameFromRight(origin: Name, q: Name, i: nat) returns (n: Name, shot: bool)
    requires IsSubDomain(origin, q)
    ensures shot <==> i > Depth(origin, q)
    ensures !shot ==> n == PathName(origin, q, i)
  {
    if i == 0 {
      return origin, false;
    }
    var j := 1;
    while j <= |origin|
      invariant 1 <= j
    {
      if PrevLabel(q, j).1 {
        return q, true;
      }
      j := j + 1;
    }
    var k := 0;
    j := 1;
    while j <= i
      invariant 1 <= j <= i + 1
      invariant j > 1 ==> |origin| + j - 1 <= |q| && k == |q| - (|origin| + j - 1)
    {
      var p := PrevLabel(q, j + |origin|);
      if p.1 {
        return q, true;
      }
      k := p.0;
      j := j + 1;
    }
    return q[k..], false;
  }

  /** Zone.searchGlue for one address type. */
  method SearchAddr(t: OwnerTree.Tree, n: Name, rtype: RRType, dnssec: bool) returns (r: seq<RR>)
    requires t.Valid() && NameOrEmpty(n)
    ensures t.Valid() && r == AddrAt(t.Listing(), n, rtype, dnssec)
  {
    hide OwnerTree.Tree.Valid, OwnerTree.Tree.Listing, Find;
    var f := SearchValue(t, n);
    r := if f.None? then [] else f.value.List(rtype) + Sigs(f.value, rtype, dnssec);
  }

  /** Zone.Glue */
  method GlueRecords(t: OwnerTree.Tree, nsrrs: seq<RR>, dnssec: bool) returns (r: seq<RR>)
    requires t.Valid() && RecordsValid(nsrrs)
    ensures t.Valid() && r == Glue(t.Listing(), nsrrs, dnssec)
  {
    hide OwnerTree.Tree.Valid, OwnerTree.Tree.Listing, Find, AddrAt;
    r := [];
    var i := 0;
    while i < |nsrrs|
      invariant 0 <= i <= |nsrrs| && t.Valid()
      invariant r == Glue(t.Listing(), nsrrs[..i], dnssec)
    {
      assert nsrrs[..i + 1][..i] == nsrrs[..i];
      var rr := nsrrs[i];
      assert ValidRR(rr);
      if rr.data.NSData? && IsSubDomain(rr.owner, rr.data.ns) {
        var a := SearchAddr(t, rr.data.ns, A, dnssec);
        var aaaa := SearchAddr(t, rr.data.ns, AAAA, dnssec);
        r := r + (a + aaaa);
      } else {
        assert r + [] == r;
      }
      i := i + 1;
    }
    assert nsrrs[..i] == nsrrs;
  }

  /** additionalProcessing for MX and SRV answers. */
  method ExtraRecords(origin: Name, t: OwnerTree.Tree, rrs: seq<RR>, dnssec: bool) returns (r: seq<RR>)
    requires t.Valid() && RecordsValid(rrs)
    ensures t.Valid() && r == Extra(origin, t.Listing(), rrs, dnssec)
  {
    hide OwnerTree.Tree.Valid, OwnerTree.Tree.Listing, Find, ExtraAddr;
    r := [];
    var i := 0;
    while i < |rrs|
      invariant 0 <= i <= |rrs| && t.Valid()
      invariant r == Extra(origin, t.Listing(), rrs[..i], dnssec)
    {
      assert rrs[..i + 1][..i] == rrs[..i];
      assert ValidRR(rrs[i]);
      var host := Host(rrs[i]);
      if IsSubDomain(origin, host) {
        var f := SearchValue(t, host);
        if f.Some? {
          r := r + (ExtraAddr(f.value, A, dnssec) + ExtraAddr(f.value, AAAA, dnssec));
        } else {
          assert r + [] == r;
        }
      } else {
        assert r + [] == r;
      }
      i := i + 1;
    }
    assert rrs[..i] == rrs;
  }

  /** The names CNAME records of stored elements point to can be searched for. */
  lemma TargetSearchable(origin: Name, s: Elems, e: ElemVal)
    requires ElemsStored(origin, s) && e in s
    ensures NameOrEmpty(TargetOf(e.List(CNAME)))
  {}

  /** The Redo loop of additionalProcessing. */
  method ChaseChain(z: ZoneStore.Zone, query: Query, w: World, start: ElemVal) returns (rrs: seq<RR>)
    requires z.Valid() && start in z.tree.Listing()
    ensures z.Valid() && rrs == Chase(z.tree.Listing(), query, w, start, 0)
  {
    hide ZoneOk, OwnerTree.Tree.Valid, OwnerTree.Tree.Listing, Find, TargetOf, HopRecords, ElemVal.List, Chase, Sigs;
    rrs := [];
    var e, i := start, 0;
    ghost var s := z.tree.Listing();
    assert [] + Chase(s, query, w, start, 0) == Chase(s, query, w, start, 0);
    while |e.List(CNAME)| > 0
      invariant z.Valid() && z.tree.Listing() == s && e in s
      invariant 0 <= i <= MAX_CHAIN
      invariant rrs + Chase(s, query, w, e, i) == Chase(s, query, w, start, 0)
      decreases MAX_CHAIN - i
    {
      var hop := HopRecords(e, query.dnssec);
      var target := TargetOf(e.List(CNAME));
      TargetOk(z, e);
      var f := SearchValue(z.tree, target);
      ChaseHop(s, query, w, e, i, f);
      if f.None? {
        rrs := rrs + (hop + w.upstream(target, query.qtype));
        return;
      }
      if i == MAX_CHAIN {
        rrs := rrs + (hop + []);
        return;
      }
      Regroup(rrs, hop, Chase(s, query, w, f.value, i + 1));
      rrs := rrs + hop;
      e := f.value;
      i := i + 1;
    }
    ChaseEnd(s, query, w, e, i);
    var targets := e.List(query.qtype);
    if |targets| > 0 {
      rrs := rrs + (targets + Sigs(e, query.qtype, query.dnssec));
    } else {
      assert rrs + [] == rrs;
    }
  }

  lemma {:induction false} ChaseHop(s: Elems, query: Query, w: World, e: ElemVal, i: nat, f: Option<ElemVal>)
    requires i <= MAX_CHAIN && e.List(CNAME) != [] && f == Find(s, TargetOf(e.List(CNAME)))
    ensures f.Some? ==> f.value in s
    ensures Chase(s, query, w, e, i) ==
            HopRecords(e, query.dnssec) +
            if f.None? then w.upstream(TargetOf(e.List(CNAME)), query.qtype)
            else if i == MAX_CHAIN then []
            else Chase(s, query, w, f.value, i + 1)
  {
    hide Find, HopRecords, TargetOf, ElemVal.List;
  }

  lemma ChaseEnd(s: Elems, query: Query, w: World, e: ElemVal, i: nat)
    requires i <= MAX_CHAIN && e.List(CNAME) == []
    ensures Chase(s, query, w, e, i) ==
            if e.List(query.qtype) == [] then [] else e.List(query.qtype) + Sigs(e, query.qtype, query.dnssec)
  {}

  lemma Regroup(a: seq<RR>, b: seq<RR>, c: seq<RR>)
    ensures a + (b + c) == (a + b) + c
  {}

  lemma TargetOk(z: ZoneStore.Zone, e: ElemVal)
    requires z.Valid() && e in z.tree.Listing()
    ensures z.tree.Valid() && NameOrEmpty(TargetOf(e.List(CNAME)))
  {
    hide ZoneOk, TargetOf, ElemVal.List, OwnerTree.Tree.Valid, OwnerTree.Tree.Listing;
    StoredZone(z.origin, z.Data());
    TargetSearchable(z.origin, z.tree.Listing(), e);
  }

  lemma StoredZone(origin: Name, z: Contents)
    requires ZoneOk(origin, z)
    ensures ElemsStored(origin, z.elems)
  {}

  /** additionalProcessing: follow the CNAME records rrs found at e. */
  method FollowChain(z: ZoneStore.Zone, query: Query, w: World, e: ElemVal, rrs: seq<RR>) returns (a: Answer)
    requires z.Valid() && NameOrEmpty(TargetOf(rrs))
    ensures z.Valid() && a == Follow(z.Data(), query, w, e, rrs)
  {
    hide ZoneOk, OwnerTree.Tree.Valid, OwnerTree.Tree.Listing, Find, TargetOf, Sigs, Chase, Ns;
    var answer := rrs + Sigs(e, CNAME, query.dnssec);
    var f := SearchValue(z.tree, TargetOf(rrs));
    if f.None? {
      answer := answer + w.upstream(TargetOf(rrs), query.qtype);
    } else {
      var more := ChaseChain(z, query, w, f.value);
      answer := answer + more;
    }
    a := Answer(answer, Ns(z.apex, query.dnssec), [], Success);
  }

  /** What an element found in a zone brings along. */
  lemma FoundStored(origin: Name, z: Contents, e: ElemVal, t: RRType)
    requires ZoneOk(origin, z) && e in z.elems
    ensures e.Valid() && RecordsValid(e.List(t))
    ensures forall i :: 0 <= i < |e.List(t)| ==> e.List(t)[i].owner == e.name && e.List(t)[i].Type() == t
  {}

  method AnswerDname(z: ZoneStore.Zone, ghost d: Contents, query: Query, w: World, e: ElemVal) returns (a: Answer)
    requires z.Valid() && z.Data() == d && e in d.elems && DnameHits(e, query.name) && ValidName(query.name)
    ensures z.Valid() && z.Data() == d && e.Valid() && a == DnameAnswer(d, query, w, e)
  {
    FoundStored(z.origin, z.Data(), e, DNAME);
    hide ZoneOk, OwnerTree.Tree.Valid, OwnerTree.Tree.Listing, Follow, Sigs;
    var dname := e.List(DNAME)[0];
    assert dname.Type() == DNAME && ValidRR(dname);
    var cname := Synthesize(query.name, dname);
    SynthesizedValid(query.name, dname);
    a := FollowChain(z, query, w, e, [cname]);
    a := a.(answer := TypeFrom(e, DNAME, query.dnssec) + a.answer);
  }

  lemma {:induction false} SynthesizedValid(q: Name, d: RR)
    requires d.data.DNAMEData? && IsSubDomain(d.owner, q) && q != d.owner && ValidName(q) && ValidRR(d)
    ensures NameOrEmpty(Synthesize(q, d).data.target)
  {}

  method AnswerCut(z: ZoneStore.Zone, ghost d: Contents, query: Query, e: ElemVal) returns (a: Answer)
    requires z.Valid() && z.Data() == d && e in d.elems
    ensures z.Valid() && z.Data() == d && a == CutAnswer(d, query, e)
  {
    FoundStored(z.origin, z.Data(), e, NS);
    hide ZoneOk, OwnerTree.Tree.Valid, OwnerTree.Tree.Listing, Glue, TypeFrom;
    var nsrrs := e.List(NS);
    var glue := GlueRecords(z.tree, nsrrs, query.dnssec);
    if query.dnssec {
      nsrrs := nsrrs + TypeFrom(e, DS, true);
    } else {
      assert nsrrs + [] == nsrrs;
    }
    a := Answer([], nsrrs, glue, Delegation);
  }

  method AnswerFound(z: ZoneStore.Zone, ghost d: Contents, query: Query, w: World, e: ElemVal) returns (a: Answer)
    requires z.Valid() && z.Data() == d && d.apex.soa.Some? && e in d.elems && ValidName(query.name)
    ensures z.Valid() && z.Data() == d && a == FoundAnswer(z.origin, d, query, w, e)
  {
    FoundStored(z.origin, z.Data(), e, CNAME);
    FoundStored(z.origin, z.Data(), e, query.qtype);
    hide ZoneOk, OwnerTree.Tree.Valid, OwnerTree.Tree.Listing, Extra, TypeFrom, Follow, Sigs, Soa, Ns;
    var cnames := e.List(CNAME);
    if |cnames| > 0 && !query.qtype.CNAME? {
      assert ValidRR(cnames[0]);
      a := FollowChain(z, query, w, e, cnames);
      return;
    }
    var rrs := WithOwner(e.List(query.qtype), query.name);
    if |rrs| == 0 {
      var ret := Soa(z.apex, query.dnssec);
      if query.dnssec {
        ret := ret + TypeFrom(e, NSEC, true);
      } else {
        assert ret + [] == ret;
      }
      return Answer([], ret, [], NoData);
    }
    RenamedValid(e.List(query.qtype), query.name);
    var extra := ExtraRecords(z.origin, z.tree, rrs, query.dnssec);
    a := Answer(rrs + Sigs(e, query.qtype, query.dnssec), Ns(z.apex, query.dnssec), extra, Success);
  }

  lemma RenamedValid(rrs: seq<RR>, n: Name)
    requires RecordsValid(rrs) && ValidName(n)
    ensures RecordsValid(WithOwner(rrs, n))
  {}

  method AnswerWild(z: ZoneStore.Zone, ghost d: Contents, query: Query, w: World, e: ElemVal) returns (a: Answer)
    requires z.Valid() && z.Data() == d && d.apex.soa.Some? && e in d.elems && ValidName(query.name)
    ensures z.Valid() && z.Data() == d && a == WildAnswer(d, query, w, e)
  {
    FoundStored(z.origin, z.Data(), e, CNAME);
    hide ZoneOk, OwnerTree.Tree.Valid, OwnerTree.Tree.Listing, TypeFrom, Follow, SigsFor, Soa, Ns, PrevOf;
    var auth := Ns(z.apex, query.dnssec);
    var cnames := WithOwner(e.List(CNAME), query.name);
    if |cnames| > 0 {
      RenamedValid(e.List(CNAME), query.name);
      assert ValidRR(cnames[0]);
      a := FollowChain(z, query, w, e, cnames);
      return;
    }
    var rrs := WithOwner(e.List(query.qtype), query.name);
    if |rrs| == 0 {
      var ret := Soa(z.apex, query.dnssec);
      if query.dnssec {
        ret := ret + TypeFrom(e, NSEC, true);
      } else {
        assert ret + [] == ret;
      }
      return Answer([], ret, [], Success);
    }
    if query.dnssec {
      var deny := PrevValue(z.tree, query.name);
      if deny.Some? {
        auth := auth + TypeFrom(deny.value, NSEC, true);
      } else {
        assert auth + [] == auth;
      }
      rrs := rrs + SigsFor(WithOwner(e.List(RRSIG), query.name), query.qtype);
    }
    a := Answer(rrs, auth, [], Success);
  }

  method AnswerNegative(z: ZoneStore.Zone, ghost d: Contents, query: Query, w: World) returns (a: Answer)
    requires z.Valid() && z.Data() == d && d.apex.soa.Some? && ValidName(query.name)
    requires var ce := w.encloser(query.name); ce.Some? ==> NameOrEmpty(ce.value)
    ensures z.Valid() && z.Data() == d && a == NegativeAnswer(d, query, w)
  {
    hide ZoneOk, OwnerTree.Tree.Valid, OwnerTree.Tree.Listing, TypeFrom, Soa, PrevOf, NextOf;
    var rcode := NameError;
    var x := NextValue(z.tree, query.name);
    if x.Some? && IsSubDomain(query.name, x.value.name) {
      rcode := Success;
    }
    var ret := Soa(z.apex, query.dnssec);
    if query.dnssec {
      var deny := PrevValue(z.tree, query.name);
      if deny.None? {
        assert ret + ([] + []) == ret;
        return Answer([], ret, [], rcode);
      }
      var nsec := TypeFrom(deny.value, NSEC, true);
      if rcode != NameError {
        return Answer([], ret + (nsec + []), [], rcode);
      }
      var ce := w.encloser(query.name);
      var more := [];
      if ce.Some? {
        WildcardValid(ce.value);
        var ss := PrevValue(z.tree, ["*"] + ce.value);
        if ss.Some? && ss.value.name != deny.value.name {
          more := TypeFrom(ss.value, NSEC, true);
        }
      }
      ret := ret + (nsec + more);
    } else {
      assert ret + [] == ret;
    }
    a := Answer([], ret, [], rcode);
  }

  lemma WildcardValid(n: Name)
    requires NameOrEmpty(n)
    ensures ValidName(["*"] + n)
    ensures n != [] ==> NameOrEmpty(Asterisk(n))
  {}

  /** One step of the walk: the search for the next name, and for a wildcard in its place. */
  method WalkStep(z: ZoneStore.Zone, q: Name, i: nat) returns (f: Option<ElemVal>, wild: Option<ElemVal>)
    requires z.Valid() && ValidName(q) && IsSubDomain(z.origin, q) && i <= Depth(z.origin, q)
    ensures z.Valid() && f == Find(z.tree.Listing(), PathName(z.origin, q, i))
    ensures wild == WildAt(z.origin, z.Data(), q, i)
  {
    hide ZoneOk, OwnerTree.Tree.Valid, OwnerTree.Tree.Listing, Find;
    HeapTree.InMemory(z.tree.shape);
    var parts, shot := NameFromRight(z.origin, q, i);
    SuffixValid(q, |q| - |z.origin| - i);
    f := SearchValue(z.tree, parts);
    wild := None;
    if f.None? {
      AsteriskValid(parts);
      wild := SearchValue(z.tree, Asterisk(parts));
    }
  }

  lemma SuffixValid(q: Name, k: nat)
    requires ValidName(q) && k <= |q|
    ensures NameOrEmpty(q[k..])
  {}

  lemma AsteriskValid(n: Name)
    requires NameOrEmpty(n)
    ensures NameOrEmpty(Asterisk(n))
  {}

  predicate NoStopBefore(origin: Name, z: Contents, query: Query, i: nat)
    requires IsSubDomain(origin, query.name) && i <= Depth(origin, query.name) + 1
  {
    forall j :: 0 <= j < i ==> !Stops(origin, z, query, j)
  }

  lemma NoEarlierStop(origin: Name, z: Contents, query: Query, i: nat)
    requires IsSubDomain(origin, query.name) && i <= Depth(origin, query.name) + 1
    requires NoStopBefore(origin, z, query, i)
    ensures i > Depth(origin, query.name) ==> FirstStop(origin, z, query, 0) == None
    ensures i <= Depth(origin, query.name) ==>
              if Stops(origin, z, query, i) then FirstStop(origin, z, query, 0) == Some(i)
              else NoStopBefore(origin, z, query, i + 1)
  {}

  /** The walk from the origin down to the name: either it stops at step i, or it runs
      past the name; wild is the last wildcard met. */
  method Walk(z: ZoneStore.Zone, ghost d: Contents, query: Query)
    returns (i: nat, f: Option<ElemVal>, wild: Option<ElemVal>)
    requires z.Valid() && z.Data() == d && ValidName(query.name) && IsSubDomain(z.origin, query.name)
    ensures z.Valid() && z.Data() == d && i <= Depth(z.origin, query.name) + 1
    ensures FirstStop(z.origin, d, query, 0) == if i <= Depth(z.origin, query.name) then Some(i) else None
    ensures i <= Depth(z.origin, query.name) ==> f == Find(d.elems, PathName(z.origin, query.name, i))
    ensures i > Depth(z.origin, query.name) ==>
              f == Find(d.elems, query.name) && wild == LastWild(z.origin, d, query.name, i)
  {
    hide ZoneStore.Zone.Valid, OwnerTree.Tree.Listing, Find, DnameHits, CutHits, WildAt, FirstStop, ElemVal.List;
    hide NoStopBefore, IsSubDomain, PathName;
    i, f, wild := 0, None, None;
    NothingBefore(z.origin, d, query);
    while i <= |query.name| - |z.origin|
      invariant 0 <= i <= Depth(z.origin, query.name) + 1
      invariant z.Valid() && z.Data() == d
      invariant NoStopBefore(z.origin, d, query, i)
      invariant i > 0 ==> f == Find(d.elems, PathName(z.origin, query.name, i - 1))
      invariant wild == LastWild(z.origin, d, query.name, i)
    {
      var w;
      f, w := WalkStep(z, query.name, i);
      NoEarlierStop(z.origin, d, query, i);
      if w.Some? {
        wild := w;
      }
      if f.Some? {
        if DnameHits(f.value, query.name) || CutHits(f.value, query) {
          return;
        }
      }
      i := i + 1;
    }
    NoEarlierStop(z.origin, d, query, i);
  }

  lemma NothingBefore(origin: Name, z: Contents, query: Query)
    requires IsSubDomain(origin, query.name)
    ensures NoStopBefore(origin, z, query, 0) && LastWild(origin, z, query.name, 0) == None
  {}

  lemma {:induction false} StoppedIsFound(origin: Name, z: Contents, query: Query, i: nat)
    requires IsSubDomain(origin, query.name) && FirstStop(origin, z, query, 0) == Some(i)
    ensures i <= Depth(origin, query.name) && Find(z.elems, PathName(origin, query.name, i)).Some?
  {}

  /** The DNAME and the NS branch. */
  method AnswerStopped(z: ZoneStore.Zone, ghost d: Contents, query: Query, w: World, e: ElemVal) returns (a: Answer)
    requires z.Valid() && z.Data() == d && ValidName(query.name) && e in d.elems
    ensures z.Valid() && z.Data() == d && e.Valid()
    ensures a == if DnameHits(e, query.name) then DnameAnswer(d, query, w, e) else CutAnswer(d, query, e)
  {
    FoundStored(z.origin, d, e, NS);
    hide *;
    if DnameHits(e, query.name) {
      a := AnswerDname(z, d, query, w, e);
    } else {
      a := AnswerCut(z, d, query, e);
    }
  }

  /** The branches after the walk: the name, a wildcard, or neither. */
  method AnswerPassed(z: ZoneStore.Zone, ghost d: Contents, query: Query, w: World,
                      f: Option<ElemVal>, wild: Option<ElemVal>) returns (a: Answer)
    requires z.Valid() && z.Data() == d && ValidName(query.name) && d.apex.soa.Some?
    requires (f.Some? ==> f.value in d.elems) && (wild.Some? ==> wild.value in d.elems)
    requires var ce := w.encloser(query.name); ce.Some? ==> NameOrEmpty(ce.value)
    ensures z.Valid() && z.Data() == d
    ensures a == if f.Some? then FoundAnswer(z.origin, d, query, w, f.value)
                 else if wild.Some? then WildAnswer(d, query, w, wild.value)
                 else NegativeAnswer(d, query, w)
  {
    hide *;
    if f.Some? {
      a := AnswerFound(z, d, query, w, f.value);
    } else if wild.Some? {
      a := AnswerWild(z, d, query, w, wild.value);
    } else {
      a := AnswerNegative(z, d, query, w);
    }
  }

  lemma DepthIs(origin: Name, q: Name)
    requires IsSubDomain(origin, q)
    ensures Depth(origin, q) == |q| - |origin|
  {}

  /** Zone.Lookup from the label walk on. */
  method LookupByWalk(z: ZoneStore.Zone, ghost d: Contents, query: Query, w: World) returns (a: Answer)
    requires z.Valid() && z.Data() == d && ZoneOk(z.origin, d)
    requires ValidName(query.name) && IsSubDomain(z.origin, query.name) && Walks(z.origin, d, query)
    requires var ce := w.encloser(query.name); ce.Some? ==> NameOrEmpty(ce.value)
    ensures z.Valid() && z.Data() == d && ElemsValid(d.elems) && a == Lookup(z.origin, d, query, w)
  {
    hide *;
    DepthIs(z.origin, query.name);
    ValidOf(z.origin, d);
    var i, f, wild := Walk(z, d, query);
    if i <= |query.name| - |z.origin| {
      StoppedIsFound(z.origin, d, query, i);
      StoppedLookup(z.origin, d, query, w, i, f.value);
      a := AnswerStopped(z, d, query, w, f.value);
    } else {
      PassedLookup(z.origin, d, query, w, f, wild);
      a := AnswerPassed(z, d, query, w, f, wild);
    }
  }

  /** Zone.Lookup */
  method LookupZone(z: ZoneStore.Zone, query: Query, w: World) returns (a: Answer)
    requires z.Valid() && ValidName(query.name) && IsSubDomain(z.origin, query.name)
    requires var ce := w.encloser(query.name); ce.Some? ==> NameOrEmpty(ce.value)
    ensures z.Valid() && ElemsValid(z.Data().elems) && a == Lookup(z.origin, z.Data(), query, w)
  {
    ghost var d := z.Data();
    ApexValid(z.origin, d, query.dnssec);
    ApexLookup(z.origin, d, query, w);
    assert d.apex == z.apex && d.elems == z.tree.Listing() && z.tree.Valid();
    hide Lookup, ZoneOk, ZoneStore.Zone.Valid, ZoneStore.Zone.Data, OwnerTree.Tree.Valid, OwnerTree.Tree.Listing;
    hide Soa, Ns, Glue, IsSubDomain, ValidName, NameOrEmpty, ElemsValid, RecordsValid;
    if z.apex.soa.None? {
      return Answer([], [], [], ServerFailure);
    }
    if query.qtype.SOA? {
      return Answer(Soa(z.apex, query.dnssec), Ns(z.apex, query.dnssec), [], Success);
    }
    if query.qtype.NS? && query.name == z.origin {
      var nsrrs := Ns(z.apex, query.dnssec);
      var glue := GlueRecords(z.tree, nsrrs, query.dnssec);
      return Answer(nsrrs, [], glue, Success);
    }
    a := LookupByWalk(z, d, query, w);
  }

  lemma ApexValid(origin: Name, z: Contents, dnssec: bool)
    requires ZoneOk(origin, z)
    ensures RecordsValid(Ns(z.apex, dnssec)) && ElemsValid(z.elems)
  {}
}
