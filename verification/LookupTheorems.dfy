/** What Zone.Lookup promises: which owner on the way to a name decides, when a
    name does not exist, which neighbour denies it, and where a CNAME chain leads. */
module LookupTheorems {
  import opened Wrappers
  import opened Names
  import opened Records
  import opened NameTree
  import opened ZoneData
  import opened LookupSpec
  import TreeOps

  // ----- neighbours -----

  /** NextOf is the smallest element at or after q. */
  lemma {:induction false} NextOfIsNext(s: Elems, q: Name, r: Option<ElemVal>)
    requires NamesValid(s) && NameOrEmpty(q) && TreeOps.IsNext(s, q, r)
    ensures r == NextOf(s, q)
  {
    hide Compare;
    if s != [] {
      CompareTotalOrder(s[0].name, q, q);
      if r.None? {
        assert Compare(s[0].name, q) < 0;
        assert forall j :: 0 <= j < |s| - 1 ==> s[1..][j] == s[j + 1];
        NextOfIsNext(s[1..], q, r);
      } else {
        var i :| 0 <= i < |s| && s[i] == r.value && Compare(q, r.value.name) <= 0 && Below(s[..i], q);
        if i > 0 {
          assert s[..i][0] == s[0];
          assert s[1..][..i - 1] == s[..i][1..];
          assert s[1..][i - 1] == r.value && Below(s[1..][..i - 1], q);
          NextOfIsNext(s[1..], q, r);
        }
      }
    }
  }

  lemma {:induction false} PrevOfIsPrev(s: Elems, q: Name, r: Option<ElemVal>)
    requires NamesValid(s) && NameOrEmpty(q) && TreeOps.IsPrev(s, q, r)
    ensures r == PrevOf(s, q)
  {
    hide Compare;
    if s != [] {
      var k := |s| - 1;
      CompareTotalOrder(s[k].name, q, q);
      if r.None? {
        assert Compare(q, s[k].name) < 0;
        PrevOfIsPrev(s[..k], q, r);
      } else {
        var i :| 0 <= i < |s| && s[i] == r.value && Compare(r.value.name, q) <= 0 && Above(s[i + 1..], q);
        if i < k {
          assert Compare(q, s[k].name) < 0 by {
            assert s[i + 1..][k - i - 1] == s[k];
          }
          assert Above(s[..k][i + 1..], q) by {
            hide PrevOf;
            assert s[..k][i + 1..] == s[i + 1..][..k - i - 1];
          }
          assert s[..k][i] == r.value;
          PrevOfIsPrev(s[..k], q, r);
        }
      }
    }
  }

  /** PrevOf is the immediate predecessor of q, or q itself. */
  lemma {:induction false} PrevOfGreatest(s: Elems, q: Name)
    requires Sorted(s) && NameOrEmpty(q)
    ensures TreeOps.IsPrev(s, q, PrevOf(s, q))
  {
    hide Compare;
    if s != [] {
      var l, e := s[..|s| - 1], s[|s| - 1];
      SortedInit(s);
      CompareTotalOrder(e.name, q, q);
      assert PrevOf(s, q) == if Compare(e.name, q) <= 0 then Some(e) else PrevOf(l, q);
      hide PrevOf, TreeOps.IsPrev, Sorted;
      if Compare(e.name, q) <= 0 {
        assert s == l + [e] + [];
        TreeOps.PrevHere(l, e, [], q);
      } else {
        assert s == l + [e];
        PrevOfGreatest(l, q);
        TreeOps.PrevInLeft(l, [e], q, PrevOf(s, q));
      }
    }
  }

  lemma SortedInit(s: Elems)
    requires s != [] && Sorted(s)
    ensures Sorted(s[..|s| - 1]) && ValidName(s[|s| - 1].name)
  {}

  predicate OwnerBelow(s: Elems, q: Name) {
    exists i :: 0 <= i < |s| && IsSubDomain(q, s[i].name)
  }

  /** One look at the next owner tells whether any owner lies at or below q. */
  lemma {:induction false} NextProbeExact(s: Elems, q: Name)
    requires Sorted(s) && ValidName(q)
    ensures NextIsBelow(s, q) <==> OwnerBelow(s, q)
  {
    hide Compare;
    if s != [] {
      assert ValidName(s[0].name);
      if Compare(q, s[0].name) <= 0 {
        forall i | 0 <= i < |s| && IsSubDomain(q, s[i].name)
          ensures IsSubDomain(q, s[0].name)
        {
          if i > 0 {
            SubDomainsContiguous(q, s[i].name, s[0].name);
          }
        }
      } else {
        SortedTail(s);
        NextProbeExact(s[1..], q);
        if IsSubDomain(q, s[0].name) {
          SubDomainsContiguous(q, s[0].name, s[0].name);
          assert false;
        }
        forall i | 0 <= i < |s| && IsSubDomain(q, s[i].name)
          ensures exists j :: 0 <= j < |s| - 1 && IsSubDomain(q, s[1..][j].name)
        {
          assert s[1..][i - 1] == s[i];
        }
      }
    }
  }

  lemma SortedTail(s: Elems)
    requires s != [] && Sorted(s)
    ensures Sorted(s[1..])
  {}

  // ----- signatures -----

  /** The signatures kept are exactly those that cover the type. */
  lemma {:induction false} SigsExactly(l: seq<RR>, t: RRType, rr: RR)
    ensures rr in SigsFor(l, t) <==> rr in l && rr.data.RRSIGData? && rr.data.covered == t
  {
    if l != [] {
      SigsExactly(l[1..], t, rr);
      assert l == [l[0]] + l[1..];
    }
  }

  /** A section that holds the records, and after them exactly those of the given signatures
      that cover the type, with DNSSEC, and nothing without. */
  ghost predicate Carries(rrs: seq<RR>, sigs: seq<RR>, t: RRType, dnssec: bool, section: seq<RR>) {
    && rrs <= section
    && forall rr :: rr in section[|rrs|..] <==>
         dnssec && rr in sigs && rr.data.RRSIGData? && rr.data.covered == t
  }

  lemma CarriesSigs(rrs: seq<RR>, sigs: seq<RR>, t: RRType, dnssec: bool)
    ensures Carries(rrs, sigs, t, dnssec, rrs + if dnssec then SigsFor(sigs, t) else [])
  {
    hide SigsFor;
    var more := if dnssec then SigsFor(sigs, t) else [];
    assert (rrs + more)[|rrs|..] == more;
    forall rr ensures rr in SigsFor(sigs, t) <==> rr in sigs && rr.data.RRSIGData? && rr.data.covered == t {
      SigsExactly(sigs, t, rr);
    }
  }

  // ----- which owner decides -----

  /** The queries that walk from the origin to the name. */
  predicate Walks(origin: Name, z: Contents, query: Query) {
    && z.apex.soa.Some?
    && !query.qtype.SOA?
    && !(query.qtype.NS? && query.name == origin)
  }

  /** The records of a type at step k of the walk. */
  function On(origin: Name, z: Contents, query: Query, k: nat, t: RRType): (l: seq<RR>)
    requires IsSubDomain(origin, query.name) && k <= Depth(origin, query.name)
  {
    View(z.elems, PathName(origin, query.name, k), t)
  }

  /** Neither a zone cut nor a DNAME at or above step k. */
  predicate ClearUpTo(origin: Name, z: Contents, query: Query, k: nat)
    requires IsSubDomain(origin, query.name) && k <= Depth(origin, query.name) + 1
  {
    forall j :: 0 <= j < k ==> On(origin, z, query, j, NS) == [] && On(origin, z, query, j, DNAME) == []
  }

  lemma ElemAt(origin: Name, z: Contents, query: Query, k: nat)
    requires IsSubDomain(origin, query.name) && k <= Depth(origin, query.name) && ElemsValid(z.elems)
    ensures var f := Find(z.elems, PathName(origin, query.name, k));
      f.Some? ==>
        && f.value.Valid() && f.value.name == PathName(origin, query.name, k)
        && (DnameHits(f.value, query.name) <==> f.value.List(DNAME) != [] && k < Depth(origin, query.name))
  {}

  /** In terms of the records on the path: a step stops the walk when it has a DNAME
      and is not the name itself, or has NS and is not a DS query at the name itself. */
  lemma StopsExactly(origin: Name, z: Contents, query: Query, k: nat)
    requires IsSubDomain(origin, query.name) && k <= Depth(origin, query.name) && ElemsValid(z.elems)
    ensures Stops(origin, z, query, k) <==>
              || (On(origin, z, query, k, DNAME) != [] && k < Depth(origin, query.name))
              || (On(origin, z, query, k, NS) != [] && !(query.qtype.DS? && k == Depth(origin, query.name)))
  {}

  /** Records found on the walk are records Insert put into the tree. */
  lemma StoredOn(origin: Name, z: Contents, query: Query, k: nat, t: RRType)
    requires ZoneOk(origin, z) && IsSubDomain(origin, query.name) && k <= Depth(origin, query.name)
    ensures AllStored(origin, InTree, On(origin, z, query, k, t))
    ensures forall i :: 0 <= i < |On(origin, z, query, k, t)| ==>
              && On(origin, z, query, k, t)[i].owner == PathName(origin, query.name, k)
              && On(origin, z, query, k, t)[i].Type() == t
  {}

  /** The apex is never a cut: Insert keeps its NS records out of the tree. */
  lemma ApexIsNoCut(origin: Name, z: Contents, query: Query)
    requires ZoneOk(origin, z) && IsSubDomain(origin, query.name)
    ensures On(origin, z, query, 0, NS) == []
  {
    var l := On(origin, z, query, 0, NS);
    StoredOn(origin, z, query, 0, NS);
    hide On, ZoneOk;
    assert l != [] ==> Stored(origin, InTree, l[0]) && SlotOf(origin, l[0]) == ApexNS;
  }

  /** Where the walk stops, that owner answers. */
  lemma {:induction false} StoppedLookup(origin: Name, z: Contents, query: Query, w: World, k: nat, e: ElemVal)
    requires ElemsValid(z.elems) && IsSubDomain(origin, query.name) && Walks(origin, z, query)
    requires FirstStop(origin, z, query, 0) == Some(k)
    requires k <= Depth(origin, query.name) && Find(z.elems, PathName(origin, query.name, k)) == Some(e)
    ensures e in z.elems && e.Valid()
    ensures Lookup(origin, z, query, w) ==
            if DnameHits(e, query.name) then DnameAnswer(z, query, w, e) else CutAnswer(z, query, e)
  {
    hide FirstStop, DnameHits, DnameAnswer, CutAnswer, FoundAnswer, WildAnswer, NegativeAnswer;
    hide Find, PathName, IsSubDomain, Depth, LastWild, Soa, Ns, Glue, ElemsValid, ElemVal.Valid;
    FoundValid(z.elems, PathName(origin, query.name, k));
  }

  /** Where nothing stops it, the name itself, a wildcard or neither answers. */
  lemma {:induction false} PassedLookup(origin: Name, z: Contents, query: Query, w: World, f: Option<ElemVal>,
        wild: Option<ElemVal>)
    requires ElemsValid(z.elems) && IsSubDomain(origin, query.name) && Walks(origin, z, query)
    requires FirstStop(origin, z, query, 0) == None
    requires f == Find(z.elems, query.name)
    requires wild == LastWild(origin, z, query.name, Depth(origin, query.name) + 1)
    ensures z.apex.soa.Some?
    ensures (f.Some? ==> f.value in z.elems) && (wild.Some? ==> wild.value in z.elems)
    ensures Lookup(origin, z, query, w) ==
            if f.Some? then FoundAnswer(origin, z, query, w, f.value)
            else if wild.Some? then WildAnswer(z, query, w, wild.value)
            else NegativeAnswer(z, query, w)
  {
    hide FirstStop, LastWild, FoundAnswer, WildAnswer, NegativeAnswer, DnameAnswer, CutAnswer;
    hide Find, PathName, IsSubDomain, Depth, DnameHits, Soa, Ns, Glue, ElemsValid;
    WildListed(origin, z, query.name, Depth(origin, query.name) + 1);
  }

  lemma {:induction false} WildListed(origin: Name, z: Contents, q: Name, k: nat)
    requires IsSubDomain(origin, q) && k <= Depth(origin, q) + 1
    ensures LastWild(origin, z, q, k).Some? ==> LastWild(origin, z, q, k).value in z.elems
  {
    hide Find, PathName, IsSubDomain;
    if k > 0 {
      WildListed(origin, z, q, k - 1);
    }
  }

  /** The owner at a step that has records. */
  lemma ElemOn(origin: Name, z: Contents, query: Query, k: nat) returns (e: ElemVal)
    requires ElemsValid(z.elems) && IsSubDomain(origin, query.name) && k <= Depth(origin, query.name)
    requires On(origin, z, query, k, NS) != [] || On(origin, z, query, k, DNAME) != []
    ensures Find(z.elems, PathName(origin, query.name, k)) == Some(e)
    ensures forall t :: On(origin, z, query, k, t) == e.List(t)
    ensures DnameHits(e, query.name) <==> On(origin, z, query, k, DNAME) != [] && k < Depth(origin, query.name)
  {
    ElemAt(origin, z, query, k);
    hide Find, PathName, IsSubDomain;
    e := Find(z.elems, PathName(origin, query.name, k)).value;
  }

  /** The topmost owner with NS or DNAME decides: with NS and no DNAME that applies,
      the answer is a referral to exactly its name servers, with DNSSEC followed by its DS
      set and the signatures of that. */
  lemma {:induction false} TopmostCutRefers(origin: Name, z: Contents, query: Query, w: World, k: nat)
    requires ZoneOk(origin, z) && IsSubDomain(origin, query.name) && Walks(origin, z, query)
    requires k <= Depth(origin, query.name) && ClearUpTo(origin, z, query, k)
    requires On(origin, z, query, k, NS) != [] && !(query.qtype.DS? && k == Depth(origin, query.name))
    requires k < Depth(origin, query.name) ==> On(origin, z, query, k, DNAME) == []
    ensures k > 0
    ensures var a := Lookup(origin, z, query, w);
      && a.rcode == Delegation && a.answer == []
      && (!query.dnssec ==> a.ns == On(origin, z, query, k, NS))
      && (query.dnssec ==> Carries(On(origin, z, query, k, NS) + On(origin, z, query, k, DS),
                                   On(origin, z, query, k, RRSIG), DS, true, a.ns))
      && a.extra == Glue(z.elems, On(origin, z, query, k, NS), query.dnssec)
  {
    ValidOf(origin, z);
    hide Lookup, ZoneOk, On, Find, FirstStop, Stops, ClearUpTo, PathName, IsSubDomain, Glue, ElemsValid, DnameHits;
    ApexIsNoCut(origin, z, query);
    StopsExactly(origin, z, query, k);
    FirstStopIs(origin, z, query, k);
    var e := ElemOn(origin, z, query, k);
    StoppedLookup(origin, z, query, w, k, e);
    CutCarries(z, query, e);
    hide CutAnswer, Carries;
  }

  lemma CutCarries(z: Contents, query: Query, e: ElemVal)
    ensures var a := CutAnswer(z, query, e);
      && a.rcode == Delegation && a.answer == [] && a.extra == Glue(z.elems, e.List(NS), query.dnssec)
      && (!query.dnssec ==> a.ns == e.List(NS))
      && (query.dnssec ==> Carries(e.List(NS) + e.List(DS), e.List(RRSIG), DS, true, a.ns))
  {
    CarriesSigs(e.List(NS) + e.List(DS), e.List(RRSIG), DS, true);
    hide Carries, SigsFor, Glue, ElemVal.List;
    var ns, ds, sigs := e.List(NS), e.List(DS), SigsFor(e.List(RRSIG), DS);
    assert ns + (ds + sigs) == ns + ds + sigs && ns + [] == ns;
  }

  lemma FirstStopIs(origin: Name, z: Contents, query: Query, k: nat)
    requires IsSubDomain(origin, query.name) && k <= Depth(origin, query.name) && ElemsValid(z.elems)
    requires ClearUpTo(origin, z, query, k) && Stops(origin, z, query, k)
    ensures FirstStop(origin, z, query, 0) == Some(k)
  {
    var r := FirstStop(origin, z, query, 0);
    hide Stops, FirstStop;
    if r.Some? && r.value < k {
      StopsExactly(origin, z, query, r.value);
    }
  }

  /** With a DNAME that applies, the answer is the DNAME, the alias made from it for the query
      name, each with its signatures, and what the alias leads to. */
  lemma {:induction false} TopmostDnameRedirects(origin: Name, z: Contents, query: Query, w: World, k: nat, d: RR)
    returns (first: seq<RR>, alias: seq<RR>)
    requires ZoneOk(origin, z) && IsSubDomain(origin, query.name) && Walks(origin, z, query)
    requires k < Depth(origin, query.name) && ClearUpTo(origin, z, query, k)
    requires On(origin, z, query, k, DNAME) != [] && d == On(origin, z, query, k, DNAME)[0]
    ensures d.data.DNAMEData? && d.owner == PathName(origin, query.name, k)
    ensures Carries(On(origin, z, query, k, DNAME), On(origin, z, query, k, RRSIG), DNAME, query.dnssec, first)
    ensures Carries([Synthesize(query.name, d)], On(origin, z, query, k, RRSIG), CNAME, query.dnssec, alias)
    ensures Lookup(origin, z, query, w) ==
            Answer(first + alias + Beyond(z, query, w, [Synthesize(query.name, d)]), Ns(z.apex, query.dnssec), [], Success)
  {
    ValidOf(origin, z);
    StoredOn(origin, z, query, k, DNAME);
    hide Lookup, ZoneOk, On, Find, FirstStop, Stops, ClearUpTo, PathName, IsSubDomain, ElemsValid, DnameHits;
    hide DnameAnswer, CutAnswer, Synthesize, Carries;
    StopsExactly(origin, z, query, k);
    FirstStopIs(origin, z, query, k);
    var e := ElemOn(origin, z, query, k);
    StoppedLookup(origin, z, query, w, k, e);
    first, alias := DnameAnswerShape(z, query, w, e, d);
  }

  lemma {:induction false} DnameAnswerShape(z: Contents, query: Query, w: World, e: ElemVal, d: RR)
    returns (first: seq<RR>, alias: seq<RR>)
    requires e.Valid() && DnameHits(e, query.name) && d == e.List(DNAME)[0]
    ensures d.data.DNAMEData? && d.owner == e.name
    ensures Carries(e.List(DNAME), e.List(RRSIG), DNAME, query.dnssec, first)
    ensures Carries([Synthesize(query.name, d)], e.List(RRSIG), CNAME, query.dnssec, alias)
    ensures DnameAnswer(z, query, w, e) ==
            Answer(first + alias + Beyond(z, query, w, [Synthesize(query.name, d)]), Ns(z.apex, query.dnssec), [], Success)
  {
    hide Beyond, Synthesize, SigsFor, Carries, Ns;
    assert ValidList(e.name, DNAME, e.m[DNAME]);
    CarriesSigs(e.List(DNAME), e.List(RRSIG), DNAME, query.dnssec);
    CarriesSigs([Synthesize(query.name, d)], e.List(RRSIG), CNAME, query.dnssec);
    first := e.List(DNAME) + if query.dnssec then SigsFor(e.List(RRSIG), DNAME) else [];
    alias := [Synthesize(query.name, d)] + if query.dnssec then SigsFor(e.List(RRSIG), CNAME) else [];
    var rest := Beyond(z, query, w, [Synthesize(query.name, d)]);
    assert first + (alias + rest) == first + alias + rest;
  }

  // ----- result codes, exactly -----

  /** A cut that decides: the topmost NS, below no DNAME, and not asked for its DS. */
  predicate DecidingCut(origin: Name, z: Contents, query: Query, k: nat)
    requires IsSubDomain(origin, query.name) && k <= Depth(origin, query.name)
  {
    && ClearUpTo(origin, z, query, k)
    && On(origin, z, query, k, NS) != [] && !(query.qtype.DS? && k == Depth(origin, query.name))
    && (k < Depth(origin, query.name) ==> On(origin, z, query, k, DNAME) == [])
  }

  /** Nothing on the path ends the walk. */
  predicate Passes(origin: Name, z: Contents, query: Query)
    requires IsSubDomain(origin, query.name)
  {
    forall k :: 0 <= k <= Depth(origin, query.name) ==>
      && (On(origin, z, query, k, NS) == [] || (query.qtype.DS? && k == Depth(origin, query.name)))
      && (k < Depth(origin, query.name) ==> On(origin, z, query, k, DNAME) == [])
  }

  /** No wildcard is met where the path has no owner. */
  predicate NoWildcard(origin: Name, z: Contents, query: Query)
    requires IsSubDomain(origin, query.name)
  {
    forall k :: 0 <= k <= Depth(origin, query.name) ==>
      var n := PathName(origin, query.name, k);
      Find(z.elems, n).Some? || Find(z.elems, Asterisk(n)).None?
  }

  lemma PassesExactly(origin: Name, z: Contents, query: Query)
    requires IsSubDomain(origin, query.name) && ElemsValid(z.elems)
    ensures FirstStop(origin, z, query, 0).None? <==> Passes(origin, z, query)
  {
    hide Stops, ElemsValid, On;
    var r := FirstStop(origin, z, query, 0);
    forall k | 0 <= k <= Depth(origin, query.name)
      ensures Stops(origin, z, query, k) <==>
              || (On(origin, z, query, k, DNAME) != [] && k < Depth(origin, query.name))
              || (On(origin, z, query, k, NS) != [] && !(query.qtype.DS? && k == Depth(origin, query.name)))
    {
      StopsExactly(origin, z, query, k);
    }
  }

  lemma {:induction false} NoWildcardExactly(origin: Name, z: Contents, query: Query, k: nat)
    requires IsSubDomain(origin, query.name) && k <= Depth(origin, query.name) + 1
    ensures LastWild(origin, z, query.name, k).None? <==>
              forall j :: 0 <= j < k ==> WildAt(origin, z, query.name, j).None?
  {
    hide WildAt;
    if k > 0 {
      NoWildcardExactly(origin, z, query, k - 1);
    }
  }

  lemma WildcardsExactly(origin: Name, z: Contents, query: Query)
    requires IsSubDomain(origin, query.name)
    ensures LastWild(origin, z, query.name, Depth(origin, query.name) + 1).None? <==> NoWildcard(origin, z, query)
  {
    hide LastWild, Find;
    NoWildcardExactly(origin, z, query, Depth(origin, query.name) + 1);
    assert forall j :: 0 <= j <= Depth(origin, query.name) ==>
        (WildAt(origin, z, query.name, j).None? <==>
         var n := PathName(origin, query.name, j);
         Find(z.elems, n).Some? || Find(z.elems, Asterisk(n)).None?);
  }

  /** The result code of each branch. */
  lemma Rcodes(origin: Name, z: Contents, query: Query, w: World, e: ElemVal)
    requires z.apex.soa.Some? && e.Valid()
    ensures DnameHits(e, query.name) ==> DnameAnswer(z, query, w, e).rcode == Success
    ensures CutAnswer(z, query, e).rcode == Delegation
    ensures FoundAnswer(origin, z, query, w, e).rcode ==
              if e.List(query.qtype) == [] && (query.qtype.CNAME? || e.List(CNAME) == []) then NoData else Success
    ensures WildAnswer(z, query, w, e).rcode == Success
    ensures NegativeAnswer(z, query, w).rcode == if NextIsBelow(z.elems, query.name) then Success else NameError
  {}

  lemma FoundValid(s: Elems, n: Name)
    requires ElemsValid(s) && Find(s, n).Some?
    ensures Find(s, n).value.Valid()
  {}

  lemma {:induction false} WildValid(origin: Name, z: Contents, q: Name, k: nat)
    requires IsSubDomain(origin, q) && k <= Depth(origin, q) + 1 && ElemsValid(z.elems)
    ensures LastWild(origin, z, q, k).Some? ==> LastWild(origin, z, q, k).value.Valid()
  {
    hide ElemsValid, Find, ElemVal.Valid;
    if k > 0 {
      WildValid(origin, z, q, k - 1);
      var n := Asterisk(PathName(origin, q, k - 1));
      if Find(z.elems, n).Some? {
        FoundValid(z.elems, n);
      }
    }
  }

  /** The result code of a lookup, branch by branch. */
  lemma LookupRcode(origin: Name, z: Contents, query: Query, w: World)
    requires IsSubDomain(origin, query.name) && ElemsValid(z.elems)
    ensures Lookup(origin, z, query, w).rcode ==
      if z.apex.soa.None? then ServerFailure
      else if !Walks(origin, z, query) then Success
      else
        var stop := FirstStop(origin, z, query, 0);
        var f := Find(z.elems, query.name);
        if stop.Some? then
          if DnameHits(Find(z.elems, PathName(origin, query.name, stop.value)).value, query.name)
          then Success else Delegation
        else if f.Some? then
          if f.value.List(query.qtype) == [] && (query.qtype.CNAME? || f.value.List(CNAME) == [])
          then NoData else Success
        else if LastWild(origin, z, query.name, Depth(origin, query.name) + 1).Some? then Success
        else if NextIsBelow(z.elems, query.name) then Success
        else NameError
  {
    hide FirstStop, Stops, LastWild, NextIsBelow, DnameHits, ElemsValid, ElemVal.List, ElemVal.Valid, Find;
    hide DnameAnswer, CutAnswer, FoundAnswer, WildAnswer, NegativeAnswer, Glue, Soa, Ns;
    if Walks(origin, z, query) {
      var stop := FirstStop(origin, z, query, 0);
      var f := Find(z.elems, query.name);
      var k := Depth(origin, query.name) + 1;
      if stop.Some? {
        StopElem(origin, z, query, stop.value);
        FoundValid(z.elems, PathName(origin, query.name, stop.value));
        Rcodes(origin, z, query, w, Find(z.elems, PathName(origin, query.name, stop.value)).value);
      } else if f.Some? {
        FoundValid(z.elems, query.name);
        Rcodes(origin, z, query, w, f.value);
      } else if LastWild(origin, z, query.name, k).Some? {
        WildValid(origin, z, query.name, k);
        Rcodes(origin, z, query, w, LastWild(origin, z, query.name, k).value);
      } else {
        NegativeRcode(z, query, w);
      }
    }
  }

  lemma NegativeRcode(z: Contents, query: Query, w: World)
    requires z.apex.soa.Some?
    ensures NegativeAnswer(z, query, w).rcode == if NextIsBelow(z.elems, query.name) then Success else NameError
  {}

  /** A name does not exist exactly when the walk passes, the name has no records,
      no wildcard was met, and no owner lies below it. */
  lemma NameErrorExactly(origin: Name, z: Contents, query: Query, w: World)
    requires ZoneOk(origin, z) && IsSubDomain(origin, query.name) && ValidName(query.name)
    ensures Lookup(origin, z, query, w).rcode == NameError <==>
              && Walks(origin, z, query) && Passes(origin, z, query)
              && Find(z.elems, query.name).None? && NoWildcard(origin, z, query)
              && !OwnerBelow(z.elems, query.name)
  {
    PassesExactly(origin, z, query);
    WildcardsExactly(origin, z, query);
    NextProbeExact(z.elems, query.name);
    LookupRcode(origin, z, query, w);
    hide NoWildcard, OwnerBelow;
    hide Lookup, FirstStop, Stops, LastWild, NextIsBelow, DnameHits, ElemVal.List, Find, Sorted, ElemsStored, Passes;
  }

  /** An empty non-terminal: the name is not stored but something below it is. */
  lemma EmptyNonTerminal(origin: Name, z: Contents, query: Query, w: World)
    requires ZoneOk(origin, z) && IsSubDomain(origin, query.name) && ValidName(query.name)
    requires Walks(origin, z, query) && Passes(origin, z, query)
    requires Find(z.elems, query.name).None? && NoWildcard(origin, z, query)
    ensures var a := Lookup(origin, z, query, w);
      && a.answer == [] && Soa(z.apex, query.dnssec) <= a.ns
      && (a.rcode == Success <==> OwnerBelow(z.elems, query.name))
      && (a.rcode == NameError || a.rcode == Success)
  {
    ValidOf(origin, z);
    SortedOf(origin, z);
    hide ZoneOk, Walks, Passes, NoWildcard, NextIsBelow, OwnerBelow, FirstStop, LastWild, Find, Sorted, Deny, DenyWildcard;
    hide Lookup, IsSubDomain, Depth, Soa, ElemsValid, ValidName;
    PassesExactly(origin, z, query);
    WildcardsExactly(origin, z, query);
    NextProbeExact(z.elems, query.name);
    PassedLookup(origin, z, query, w, None, None);
  }

  /** No data exactly when the name is stored, without the type and without a CNAME to follow. */
  lemma NoDataExactly(origin: Name, z: Contents, query: Query, w: World)
    requires ZoneOk(origin, z) && IsSubDomain(origin, query.name)
    ensures Lookup(origin, z, query, w).rcode == NoData <==>
              && Walks(origin, z, query) && Passes(origin, z, query)
              && Find(z.elems, query.name).Some?
              && Find(z.elems, query.name).value.List(query.qtype) == []
              && (query.qtype.CNAME? || Find(z.elems, query.name).value.List(CNAME) == [])
  {
    PassesExactly(origin, z, query);
    LookupRcode(origin, z, query, w);
    hide Lookup, FirstStop, Stops, LastWild, NextIsBelow, DnameHits, ElemVal.List, Find, Sorted, ElemsStored, Passes;
  }

  lemma CutDelegates(origin: Name, z: Contents, query: Query, w: World, k: nat)
    requires ZoneOk(origin, z) && ElemsValid(z.elems) && IsSubDomain(origin, query.name) && Walks(origin, z, query)
    requires k <= Depth(origin, query.name) && DecidingCut(origin, z, query, k)
    ensures Lookup(origin, z, query, w).rcode == Delegation
  {
    hide Lookup, On, ClearUpTo, ZoneOk, ElemsValid, Carries, IsSubDomain, Glue;
    TopmostCutRefers(origin, z, query, w, k);
  }

  /** A referral exactly when there is a cut that decides. */
  lemma DelegationExactly(origin: Name, z: Contents, query: Query, w: World)
    requires ZoneOk(origin, z) && IsSubDomain(origin, query.name)
    ensures Lookup(origin, z, query, w).rcode == Delegation <==>
              && Walks(origin, z, query)
              && exists k :: 0 <= k <= Depth(origin, query.name) && DecidingCut(origin, z, query, k)
  {
    ValidOf(origin, z);
    hide Lookup, FirstStop, Stops, LastWild, NextIsBelow, DnameHits, DecidingCut, ElemVal.List, Find, ZoneOk, ElemsValid;
    hide IsSubDomain, PathName;
    LookupRcode(origin, z, query, w);
    if Walks(origin, z, query) {
      forall k | 0 <= k <= Depth(origin, query.name) && DecidingCut(origin, z, query, k)
        ensures Lookup(origin, z, query, w).rcode == Delegation
      {
        CutDelegates(origin, z, query, w, k);
      }
      var r := FirstStop(origin, z, query, 0);
      if r.Some? {
        StopIsCut(origin, z, query, r.value);
      }
    }
  }

  lemma {:induction false} StopIsCut(origin: Name, z: Contents, query: Query, k: nat)
    requires ZoneOk(origin, z) && IsSubDomain(origin, query.name)
    requires FirstStop(origin, z, query, 0) == Some(k)
    ensures k <= Depth(origin, query.name) && Find(z.elems, PathName(origin, query.name, k)).Some?
    ensures DnameHits(Find(z.elems, PathName(origin, query.name, k)).value, query.name) || DecidingCut(origin, z, query, k)
  {
    hide Stops, ZoneOk, On, Find;
    assert ElemsValid(z.elems) by { ValidOf(origin, z); }
    forall j | 0 <= j <= k
      ensures Stops(origin, z, query, j) <==>
              || (On(origin, z, query, j, DNAME) != [] && j < Depth(origin, query.name))
              || (On(origin, z, query, j, NS) != [] && !(query.qtype.DS? && j == Depth(origin, query.name)))
    {
      StopsExactly(origin, z, query, j);
    }
    StopElem(origin, z, query, k);
  }

  lemma SortedOf(origin: Name, z: Contents)
    requires ZoneOk(origin, z)
    ensures Sorted(z.elems)
  {}

  lemma ValidOf(origin: Name, z: Contents)
    requires ZoneOk(origin, z)
    ensures ElemsValid(z.elems)
  {}

  lemma StopElem(origin: Name, z: Contents, query: Query, k: nat)
    requires IsSubDomain(origin, query.name) && k <= Depth(origin, query.name)
    requires Stops(origin, z, query, k) && ElemsValid(z.elems)
    ensures var f := Find(z.elems, PathName(origin, query.name, k));
      && f.Some?
      && (DnameHits(f.value, query.name) <==>
            On(origin, z, query, k, DNAME) != [] && k < Depth(origin, query.name))
  {}

  /** A zone that holds nothing but its SOA and NS denies the existence of its own
      apex to every other type of query. */
  lemma {:induction false} BareApexDenied(origin: Name, z: Contents, query: Query, w: World)
    requires ZoneOk(origin, z) && z.elems == [] && ValidName(origin)
    requires query.name == origin && Walks(origin, z, query)
    ensures Lookup(origin, z, query, w).rcode == NameError
  {
    assert forall n :: Find(z.elems, n).None?;
    NameErrorExactly(origin, z, query, w);
  }

  // ----- CNAME chains -----

  function ChainRecords(c: seq<ElemVal>, dnssec: bool): (r: seq<RR>) {
    if c == [] then [] else HopRecords(c[0], dnssec) + ChainRecords(c[1..], dnssec)
  }

  /** Each owner is the one the CNAME before it points to. */
  predicate Connected(s: Elems, c: seq<ElemVal>) {
    forall j :: 0 < j < |c| ==> Find(s, TargetOf(c[j - 1].List(CNAME))) == Some(c[j])
  }

  /** The alias of a stored owner is its first CNAME record. */
  lemma TargetIsFirst(e: ElemVal)
    requires e.Valid() && e.List(CNAME) != []
    ensures e.List(CNAME)[0].data == CNAMEData(TargetOf(e.List(CNAME)))
  {
    hide Deduped;
    assert ValidList(e.name, CNAME, e.m[CNAME]);
  }

  /** An owner without alias ends a chain with its records of the type asked for and their
      signatures, or with nothing when it has none. */
  ghost predicate EndsAt(e: ElemVal, query: Query, tail: seq<RR>) {
    var rrs := e.List(query.qtype);
    && e.List(CNAME) == []
    && if rrs == [] then tail == [] else Carries(rrs, e.List(RRSIG), query.qtype, query.dnssec, tail)
  }

  lemma TerminalExactly(e: ElemVal, query: Query)
    requires e.List(CNAME) == []
    ensures EndsAt(e, query, Terminal(e, query))
  {
    hide SigsFor, ElemVal.List;
    CarriesSigs(e.List(query.qtype), e.List(RRSIG), query.qtype, query.dnssec);
  }

  /** How a chain from e ends: outside the zone, cut off after as many owners as are
      followed, or at an owner without CNAME. */
  ghost predicate Ends(s: Elems, query: Query, w: World, e: ElemVal, c: seq<ElemVal>, most: nat, tail: seq<RR>) {
    if c == [] then EndsAt(e, query, tail)
    else
      var f := Find(s, TargetOf(c[|c| - 1].List(CNAME)));
      if f.None? then tail == w.upstream(TargetOf(c[|c| - 1].List(CNAME)), query.qtype)
      else if |c| == most then tail == []
      else EndsAt(f.value, query, tail)
  }

  /** A bounded chain of aliases from e, and the records it ends at. */
  ghost predicate IsChain(s: Elems, query: Query, w: World, e: ElemVal, c: seq<ElemVal>, most: nat, tail: seq<RR>) {
    && |c| <= most && (c != [] ==> c[0] == e)
    && (forall j :: 0 <= j < |c| ==> c[j].List(CNAME) != [])
    && Connected(s, c) && Ends(s, query, w, e, c, most, tail)
  }

  /** An alias put before the chain its target starts. */
  lemma {:induction false} ChainStep(s: Elems, query: Query, w: World, e: ElemVal, e': ElemVal, c: seq<ElemVal>,
        most: nat, tail: seq<RR>)
    requires e.List(CNAME) != [] && Find(s, TargetOf(e.List(CNAME))) == Some(e')
    requires most > 0 && IsChain(s, query, w, e', c, most, tail)
    ensures IsChain(s, query, w, e, [e] + c, most + 1, tail)
    ensures ChainRecords([e] + c, query.dnssec) + tail ==
            HopRecords(e, query.dnssec) + (ChainRecords(c, query.dnssec) + tail)
  {
    hide Find, HopRecords, EndsAt, TargetOf, ElemVal.List;
    assert ([e] + c)[1..] == c;
    assert c != [] ==> ([e] + c)[|c|] == c[|c| - 1];
    ConnectedCons(s, e, c);
    hide Connected;
  }

  /** A single alias, whose target is outside or is not followed. */
  lemma {:induction false} ChainOne(s: Elems, query: Query, w: World, e: ElemVal, most: nat, tail: seq<RR>)
    requires e.List(CNAME) != [] && most > 0
    requires var f := Find(s, TargetOf(e.List(CNAME)));
      if f.None? then tail == w.upstream(TargetOf(e.List(CNAME)), query.qtype) else most == 1 && tail == []
    ensures IsChain(s, query, w, e, [e], most, tail)
    ensures ChainRecords([e], query.dnssec) + tail == HopRecords(e, query.dnssec) + tail
  {
    hide Find, HopRecords, EndsAt, TargetOf, ElemVal.List;
    assert [e][1..] == [];
    assert HopRecords(e, query.dnssec) + [] == HopRecords(e, query.dnssec);
  }

  /** The answer to a CNAME chase, cyclic or not, is a connected chain of at most
      MAX_CHAIN + 1 owners and the records it ends at. */
  lemma {:induction false} ChaseIsChain(s: Elems, query: Query, w: World, e: ElemVal, i: nat)
    returns (c: seq<ElemVal>, tail: seq<RR>)
    requires i <= MAX_CHAIN
    ensures IsChain(s, query, w, e, c, MAX_CHAIN + 1 - i, tail)
    ensures Chase(s, query, w, e, i) == ChainRecords(c, query.dnssec) + tail
    decreases MAX_CHAIN - i
  {
    hide Find, HopRecords, Terminal, EndsAt, TargetOf, ElemVal.List;
    if e.List(CNAME) == [] {
      c, tail := [], Terminal(e, query);
      TerminalExactly(e, query);
      assert [] + tail == tail;
      return;
    }
    hide IsChain, ChainRecords;
    var target := TargetOf(e.List(CNAME));
    var f := Find(s, target);
    if f.None? || i == MAX_CHAIN {
      c, tail := [e], if f.None? then w.upstream(target, query.qtype) else [];
      ChainOne(s, query, w, e, MAX_CHAIN + 1 - i, tail);
    } else {
      c, tail := ChaseIsChain(s, query, w, f.value, i + 1);
      ChainStep(s, query, w, e, f.value, c, MAX_CHAIN - i, tail);
      c := [e] + c;
    }
  }

  lemma {:induction false} ConnectedCons(s: Elems, e: ElemVal, c: seq<ElemVal>)
    requires Connected(s, c) && (c != [] ==> Find(s, TargetOf(e.List(CNAME))) == Some(c[0]))
    ensures Connected(s, [e] + c)
  {}

  /** With DNSSEC, a name that does not exist is denied by the NSEC record of the
      owner just before it in tree order. */
  lemma {:induction false} DenialIsPredecessor(origin: Name, z: Contents, query: Query, w: World)
    requires ZoneOk(origin, z) && IsSubDomain(origin, query.name) && ValidName(query.name)
    requires query.dnssec && Lookup(origin, z, query, w).rcode == NameError
    ensures z.apex.soa.Some?
    ensures var p := PrevOf(z.elems, query.name);
      && TreeOps.IsPrev(z.elems, query.name, p)
      && Soa(z.apex, true) + (if p.None? then [] else TypeFrom(p.value, NSEC, true)) <= Lookup(origin, z, query, w).ns
  {
    hide ZoneOk, Lookup, IsSubDomain, PrevOf, Soa, TypeFrom, TreeOps.IsPrev;
    assert NameOrEmpty(query.name);
    hide *;
    SortedOf(origin, z);
    ValidOf(origin, z);
    PrevOfGreatest(z.elems, query.name);
    DeniedLookup(origin, z, query, w);
    NegativeDenies(z, query, w, PrevOf(z.elems, query.name));
  }

  /** A name that does not exist gets the negative answer. */
  lemma {:induction false} DeniedLookup(origin: Name, z: Contents, query: Query, w: World)
    requires ZoneOk(origin, z) && IsSubDomain(origin, query.name) && ValidName(query.name)
    requires Lookup(origin, z, query, w).rcode == NameError
    ensures z.apex.soa.Some? && ElemsValid(z.elems) && Lookup(origin, z, query, w) == NegativeAnswer(z, query, w)
  {
    hide *;
    ValidOf(origin, z);
    NameErrorExactly(origin, z, query, w);
    PassesExactly(origin, z, query);
    WildcardsExactly(origin, z, query);
    PassedLookup(origin, z, query, w, None, None);
  }

  lemma {:induction false} NegativeDenies(z: Contents, query: Query, w: World, p: Option<ElemVal>)
    requires z.apex.soa.Some? && query.dnssec && p == PrevOf(z.elems, query.name)
    ensures Soa(z.apex, true) + (if p.None? then [] else TypeFrom(p.value, NSEC, true)) <= NegativeAnswer(z, query, w).ns
  {
    hide PrevOf, NextIsBelow, DenyWildcard, TypeFrom, Soa;
    var nsec := if p.None? then [] else TypeFrom(p.value, NSEC, true);
    var more := if NextIsBelow(z.elems, query.name) then [] else DenyWildcard(z.elems, query.name, w);
    assert NegativeAnswer(z, query, w).ns == Soa(z.apex, true) + (nsec + more);
    assert Soa(z.apex, true) + (nsec + more) == Soa(z.apex, true) + nsec + more;
  }
}
