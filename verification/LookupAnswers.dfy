/** What Zone.Lookup of plugin/file/lookup.go puts into its answers. */
module LookupAnswers {
  import opened Wrappers
  import opened Names
  import opened Records
  import opened NameTree
  import opened ZoneData
  import opened LookupSpec
  import opened LookupTheorems
  import TreeOps

  // ----- addresses -----

  /** An address of a host: stored at its name as A or AAAA, or with DNSSEC a signature of those. */
  predicate IsAddress(s: Elems, n: Name, dnssec: bool, rr: RR) {
    || rr in View(s, n, A) || rr in View(s, n, AAAA)
    || (dnssec && rr in View(s, n, RRSIG) && rr.data.RRSIGData? && (rr.data.covered == A || rr.data.covered == AAAA))
  }

  lemma AddressesExactly(s: Elems, n: Name, dnssec: bool, rr: RR)
    ensures rr in AddrAt(s, n, A, dnssec) + AddrAt(s, n, AAAA, dnssec) <==> IsAddress(s, n, dnssec, rr)
  {
    hide Find, SigsFor;
    var f := Find(s, n);
    if f.Some? {
      SigsExactly(f.value.List(RRSIG), A, rr);
      SigsExactly(f.value.List(RRSIG), AAAA, rr);
    }
  }

  /** A record is glue exactly when it is an address of a listed name server that lies at or
      below the name it serves. */
  lemma {:induction false} GlueExactly(s: Elems, nsrrs: seq<RR>, dnssec: bool, rr: RR)
    ensures rr in Glue(s, nsrrs, dnssec) <==>
            exists ns :: ns in nsrrs && ns.data.NSData? && IsSubDomain(ns.owner, ns.data.ns)
                         && IsAddress(s, ns.data.ns, dnssec, rr)
  {
    hide IsAddress, AddrAt, IsSubDomain;
    if nsrrs != [] {
      var i := |nsrrs| - 1;
      var last := nsrrs[i];
      assert nsrrs == nsrrs[..i] + [last];
      GlueExactly(s, nsrrs[..i], dnssec, rr);
      if last.data.NSData? {
        AddressesExactly(s, last.data.ns, dnssec, rr);
      }
      assert rr in Glue(s, nsrrs, dnssec) <==>
          || rr in Glue(s, nsrrs[..i], dnssec)
          || (last.data.NSData? && IsSubDomain(last.owner, last.data.ns) && IsAddress(s, last.data.ns, dnssec, rr));
    }
  }

  /** An address of a host for the additional section; signatures come only with addresses
      of their type. */
  predicate IsExtra(s: Elems, n: Name, t: RRType, dnssec: bool, rr: RR) {
    && View(s, n, t) != []
    && (rr in View(s, n, t) ||
        (dnssec && rr in View(s, n, RRSIG) && rr.data.RRSIGData? && rr.data.covered == t))
  }

  lemma {:induction false} ExtraAddrExactly(s: Elems, n: Name, e: ElemVal, t: RRType, dnssec: bool, rr: RR)
    requires ElemsValid(s) && Find(s, n) == Some(e)
    ensures rr in ExtraAddr(e, t, dnssec) <==> IsExtra(s, n, t, dnssec, rr)
  {
    FoundValid(s, n);
    hide Find, SigsFor, ElemsValid, RR.Type, Deduped;
    assert t in e.m ==> ValidList(e.name, t, e.m[t]);
    SigsExactly(e.List(RRSIG), t, rr);
  }

  /** A mail exchanger or service record that names a host. */
  predicate NamesHost(r: RR, host: Name) {
    || (r.data.MXData? && r.data.mx == host)
    || (r.data.SRVData? && r.data.srvTarget == host)
  }

  /** A record is in the additional section exactly when it belongs to a mail exchanger or
      service host of the answer that lies in the zone. */
  lemma ExtraExactly(origin: Name, s: Elems, rrs: seq<RR>, dnssec: bool, rr: RR)
    requires ElemsValid(s)
    ensures rr in Extra(origin, s, rrs, dnssec) <==>
            exists r, host :: r in rrs && NamesHost(r, host) && IsSubDomain(origin, host)
                        && (IsExtra(s, host, A, dnssec, rr) || IsExtra(s, host, AAAA, dnssec, rr))
  {
    ExtraOfHosts(origin, s, rrs, dnssec, rr);
    hide IsSubDomain, IsExtra, Extra, ElemsValid;
    forall r | r in rrs && (IsExtra(s, Host(r), A, dnssec, rr) || IsExtra(s, Host(r), AAAA, dnssec, rr))
      ensures NamesHost(r, Host(r))
    {
      NoHost(s, dnssec, rr);
    }
    assert forall r, host :: NamesHost(r, host) ==> Host(r) == host;
  }

  lemma NoHost(s: Elems, dnssec: bool, rr: RR)
    requires ElemsValid(s)
    ensures !IsExtra(s, [], A, dnssec, rr) && !IsExtra(s, [], AAAA, dnssec, rr)
  {}

  lemma {:induction false} ExtraOfHosts(origin: Name, s: Elems, rrs: seq<RR>, dnssec: bool, rr: RR)
    requires ElemsValid(s)
    ensures rr in Extra(origin, s, rrs, dnssec) <==>
            exists r :: r in rrs && IsSubDomain(origin, Host(r))
                        && (IsExtra(s, Host(r), A, dnssec, rr) || IsExtra(s, Host(r), AAAA, dnssec, rr))
  {
    hide ElemsValid, Find, IsSubDomain, ExtraAddr, Host, IsExtra;
    if rrs != [] {
      var i := |rrs| - 1;
      var host := Host(rrs[i]);
      assert rrs == rrs[..i] + [rrs[i]];
      ExtraOfHosts(origin, s, rrs[..i], dnssec, rr);
      var f := Find(s, host);
      if f.Some? {
        ExtraAddrExactly(s, host, f.value, A, dnssec, rr);
        ExtraAddrExactly(s, host, f.value, AAAA, dnssec, rr);
      } else {
        NoExtra(s, host, dnssec, rr);
      }
      assert rr in Extra(origin, s, rrs, dnssec) <==>
          || rr in Extra(origin, s, rrs[..i], dnssec)
          || (IsSubDomain(origin, host) && (IsExtra(s, host, A, dnssec, rr) || IsExtra(s, host, AAAA, dnssec, rr)));
    }
  }

  lemma NoExtra(s: Elems, n: Name, dnssec: bool, rr: RR)
    requires Find(s, n).None?
    ensures !IsExtra(s, n, A, dnssec, rr) && !IsExtra(s, n, AAAA, dnssec, rr)
  {}

  // ----- stored names -----

  /** Records already are under the name they are stored at. */
  lemma OwnName(s: Elems, n: Name, t: RRType)
    requires ElemsValid(s)
    ensures WithOwner(View(s, n, t), n) == View(s, n, t)
  {
    hide Find, ElemsValid, RR.Type, EqualRdata;
    var f := Find(s, n);
    if f.Some? && t in f.value.m {
      FoundValid(s, n);
      assert ValidList(n, t, f.value.m[t]);
    }
  }

  lemma Reaches(origin: Name, z: Contents, query: Query, w: World)
    requires ElemsValid(z.elems) && IsSubDomain(origin, query.name)
    requires Walks(origin, z, query) && Passes(origin, z, query)
    ensures var f := Find(z.elems, query.name);
      var wild := LastWild(origin, z, query.name, Depth(origin, query.name) + 1);
      Lookup(origin, z, query, w) ==
        if f.Some? then FoundAnswer(origin, z, query, w, f.value)
        else if wild.Some? then WildAnswer(z, query, w, wild.value)
        else NegativeAnswer(z, query, w)
  {
    PassesExactly(origin, z, query);
    hide *;
    PassedLookup(origin, z, query, w, Find(z.elems, query.name),
                 LastWild(origin, z, query.name, Depth(origin, query.name) + 1));
  }

  /** Stored data is answered with exactly the records stored at the name for the type and
      their signatures, the apex NS set as authority, and the hosts the records name. */
  lemma {:induction false} DataAnswered(origin: Name, z: Contents, query: Query, w: World, rrs: seq<RR>)
    requires ElemsValid(z.elems) && IsSubDomain(origin, query.name)
    requires Walks(origin, z, query) && Passes(origin, z, query)
    requires rrs == View(z.elems, query.name, query.qtype) != []
    requires query.qtype.CNAME? || View(z.elems, query.name, CNAME) == []
    ensures var a := Lookup(origin, z, query, w);
      && a.rcode == Success && a.ns == Ns(z.apex, query.dnssec)
      && Carries(rrs, View(z.elems, query.name, RRSIG), query.qtype, query.dnssec, a.answer)
      && a.extra == Extra(origin, z.elems, rrs, query.dnssec)
  {
    Reaches(origin, z, query, w);
    OwnName(z.elems, query.name, query.qtype);
    var e := Find(z.elems, query.name).value;
    CarriesSigs(rrs, e.List(RRSIG), query.qtype, query.dnssec);
    hide ElemsValid, Passes, Lookup, Find, SigsFor, Extra, Carries, WildAnswer, NegativeAnswer, WithOwner, LastWild;
  }

  /** A stored name without the type gets no answer: the SOA, and with DNSSEC the NSEC record
      of the name itself and its signatures. */
  lemma {:induction false} NoDataAnswered(origin: Name, z: Contents, query: Query, w: World)
    requires ZoneOk(origin, z) && IsSubDomain(origin, query.name) && ElemsValid(z.elems)
    requires Lookup(origin, z, query, w).rcode == NoData
    ensures z.apex.soa.Some?
    ensures var a := Lookup(origin, z, query, w);
      var soa := Soa(z.apex, query.dnssec);
      && a.answer == a.extra == [] && soa <= a.ns
      && (!query.dnssec ==> a.ns == soa)
      && (query.dnssec ==>
            Carries(View(z.elems, query.name, NSEC), View(z.elems, query.name, RRSIG), NSEC, true, a.ns[|soa|..]))
  {
    hide ElemsValid, ZoneOk, Passes, Lookup, Find, LastWild, Depth, FoundAnswer, WildAnswer, NegativeAnswer, ElemVal.List;
    hide Carries, Soa, IsSubDomain;
    NoDataExactly(origin, z, query, w);
    Reaches(origin, z, query, w);
    FoundNothing(origin, z, query, w, Find(z.elems, query.name).value);
  }

  lemma FoundNothing(origin: Name, z: Contents, query: Query, w: World, e: ElemVal)
    requires z.apex.soa.Some? && e.List(query.qtype) == [] && (query.qtype.CNAME? || e.List(CNAME) == [])
    ensures var a := FoundAnswer(origin, z, query, w, e);
      var soa := Soa(z.apex, query.dnssec);
      && a.answer == a.extra == [] && soa <= a.ns
      && (!query.dnssec ==> a.ns == soa)
      && (query.dnssec ==> Carries(e.List(NSEC), e.List(RRSIG), NSEC, true, a.ns[|soa|..]))
  {
    CarriesSigs(e.List(NSEC), e.List(RRSIG), NSEC, true);
    hide SigsFor, Carries, ElemVal.List, Soa, Extra;
    var soa, more := Soa(z.apex, query.dnssec), TypeFrom(e, NSEC, true);
    assert (soa + more)[|soa|..] == more && soa + [] == soa;
  }

  // ----- denials -----

  /** The NSEC record, with its signatures, of the greatest owner p at or before a name. */
  ghost predicate DeniedBy(s: Elems, n: Name, p: Option<ElemVal>, section: seq<RR>) {
    && TreeOps.IsPrev(s, n, p)
    && if p.None? then section == [] else Carries(p.value.List(NSEC), p.value.List(RRSIG), NSEC, true, section)
  }

  /** The second denial, of the wildcard at the closest encloser ce: left out when the owner
      p of the first one is also that of the second. */
  ghost predicate WildcardDeniedBy(s: Elems, ce: Name, p: ElemVal, section: seq<RR>) {
    exists p2 :: TreeOps.IsPrev(s, ["*"] + ce, p2) &&
      if p2.Some? && p2.value.name == p.name then section == [] else DeniedBy(s, ["*"] + ce, p2, section)
  }

  lemma {:induction false} PrevDenies(s: Elems, n: Name, p: Option<ElemVal>)
    requires Sorted(s) && NameOrEmpty(n) && p == PrevOf(s, n)
    ensures DeniedBy(s, n, p, if p.None? then [] else TypeFrom(p.value, NSEC, true))
  {
    PrevOfGreatest(s, n);
    if p.Some? {
      CarriesSigs(p.value.List(NSEC), p.value.List(RRSIG), NSEC, true);
    }
    hide PrevOf, Carries, SigsFor, ElemVal.List, TreeOps.IsPrev, Sorted;
  }

  /** The whole answer for a missing name that no wildcard covers: the SOA and with DNSSEC the
      denial of the name, and for a name error that of the wildcard as well. */
  lemma NegativeAnswered(origin: Name, z: Contents, query: Query, w: World)
    returns (p: Option<ElemVal>, first: seq<RR>, second: seq<RR>)
    requires ZoneOk(origin, z) && IsSubDomain(origin, query.name) && ValidName(query.name) && ElemsValid(z.elems)
    requires Walks(origin, z, query) && Passes(origin, z, query)
    requires Find(z.elems, query.name).None? && NoWildcard(origin, z, query)
    requires var ce := w.encloser(query.name); ce.Some? ==> NameOrEmpty(ce.value)
    ensures Lookup(origin, z, query, w) ==
            Answer([], Soa(z.apex, query.dnssec) + (first + second), [],
                   if OwnerBelow(z.elems, query.name) then Success else NameError)
    ensures !query.dnssec ==> first == second == []
    ensures query.dnssec ==> DeniedBy(z.elems, query.name, p, first)
    ensures var ce := w.encloser(query.name);
            if query.dnssec && !OwnerBelow(z.elems, query.name) && p.Some? && ce.Some?
            then WildcardDeniedBy(z.elems, ce.value, p.value, second) else second == []
  {
    SortedOf(origin, z);
    hide *;
    PassesExactly(origin, z, query);
    WildcardsExactly(origin, z, query);
    NextProbeExact(z.elems, query.name);
    PassedLookup(origin, z, query, w, None, None);
    p, first, second := NegativeShape(z, query, w);
  }

  lemma NegativeShape(z: Contents, query: Query, w: World) returns (p: Option<ElemVal>, first: seq<RR>, second: seq<RR>)
    requires z.apex.soa.Some? && Sorted(z.elems) && ValidName(query.name)
    requires var ce := w.encloser(query.name); ce.Some? ==> NameOrEmpty(ce.value)
    ensures NegativeAnswer(z, query, w) ==
            Answer([], Soa(z.apex, query.dnssec) + (first + second), [],
                   if NextIsBelow(z.elems, query.name) then Success else NameError)
    ensures !query.dnssec ==> first == second == []
    ensures query.dnssec ==> DeniedBy(z.elems, query.name, p, first)
    ensures var ce := w.encloser(query.name);
            if query.dnssec && !NextIsBelow(z.elems, query.name) && p.Some? && ce.Some?
            then WildcardDeniedBy(z.elems, ce.value, p.value, second) else second == []
  {
    hide PrevOf, NextIsBelow, TypeFrom, Soa, DeniedBy, Sorted, TreeOps.IsPrev;
    p, first, second := PrevOf(z.elems, query.name), [], [];
    if query.dnssec {
      PrevDenies(z.elems, query.name, p);
      first := if p.None? then [] else TypeFrom(p.value, NSEC, true);
      if !NextIsBelow(z.elems, query.name) {
        second := DenyWildcard(z.elems, query.name, w);
        var ce := w.encloser(query.name);
        if p.Some? && ce.Some? {
          EncloserDenied(z.elems, query.name, w, ce.value, p.value);
        }
      }
    } else {
      assert [] + [] == first + second;
    }
  }

  lemma {:induction false} EncloserDenied(s: Elems, q: Name, w: World, ce: Name, p: ElemVal)
    requires Sorted(s) && NameOrEmpty(ce) && w.encloser(q) == Some(ce) && PrevOf(s, q) == Some(p)
    ensures WildcardDeniedBy(s, ce, p, DenyWildcard(s, q, w))
  {
    assert NameOrEmpty(["*"] + ce);
    hide PrevOf, TypeFrom, DeniedBy, Sorted, NameOrEmpty;
    var p2 := PrevOf(s, ["*"] + ce);
    PrevDenies(s, ["*"] + ce, p2);
    assert TreeOps.IsPrev(s, ["*"] + ce, p2) by { PrevOfGreatest(s, ["*"] + ce); }
    hide TreeOps.IsPrev;
  }

  // ----- aliases -----

  /** One owner of a chain contributes its CNAME records and their signatures. */
  lemma HopExactly(e: ElemVal, dnssec: bool)
    ensures Carries(e.List(CNAME), e.List(RRSIG), CNAME, dnssec, HopRecords(e, dnssec))
  {
    CarriesSigs(e.List(CNAME), e.List(RRSIG), CNAME, dnssec);
  }

  /** Where a target leads: outside the zone, or along a bounded chain of aliases. */
  ghost predicate Leads(s: Elems, query: Query, w: World, target: Name, c: seq<ElemVal>, tail: seq<RR>) {
    var f := Find(s, target);
    if f.None? then c == [] && tail == w.upstream(target, query.qtype)
    else IsChain(s, query, w, f.value, c, MAX_CHAIN + 1, tail)
  }

  lemma BeyondLeads(z: Contents, query: Query, w: World, rrs: seq<RR>) returns (c: seq<ElemVal>, tail: seq<RR>)
    ensures Leads(z.elems, query, w, TargetOf(rrs), c, tail)
    ensures Beyond(z, query, w, rrs) == ChainRecords(c, query.dnssec) + tail
  {
    hide Find, TargetOf, IsChain, Chase;
    var f := Find(z.elems, TargetOf(rrs));
    if f.None? {
      c, tail := [], w.upstream(TargetOf(rrs), query.qtype);
      assert [] + tail == tail;
    } else {
      c, tail := ChaseIsChain(z.elems, query, w, f.value, 0);
    }
  }

  /** The whole answer for an alias, cyclic or not, is one connected chain of at most
      MAX_CHAIN + 2 owners that starts at the query name, and the records it ends at. */
  lemma AliasAnswered(origin: Name, z: Contents, query: Query, w: World) returns (c: seq<ElemVal>, tail: seq<RR>)
    requires ElemsValid(z.elems) && IsSubDomain(origin, query.name)
    requires Walks(origin, z, query) && Passes(origin, z, query)
    requires View(z.elems, query.name, CNAME) != [] && !query.qtype.CNAME?
    ensures c != [] && Find(z.elems, query.name) == Some(c[0])
    ensures IsChain(z.elems, query, w, c[0], c, MAX_CHAIN + 2, tail)
    ensures Lookup(origin, z, query, w) ==
            Answer(ChainRecords(c, query.dnssec) + tail, Ns(z.apex, query.dnssec), [], Success)
  {
    var e := AliasReached(origin, z, query, w);
    hide *;
    c, tail := HopAndBeyond(z, query, w, e);
  }

  lemma AliasReached(origin: Name, z: Contents, query: Query, w: World) returns (e: ElemVal)
    requires ElemsValid(z.elems) && IsSubDomain(origin, query.name)
    requires Walks(origin, z, query) && Passes(origin, z, query)
    requires View(z.elems, query.name, CNAME) != [] && !query.qtype.CNAME?
    ensures Find(z.elems, query.name) == Some(e) && e.List(CNAME) != []
    ensures Lookup(origin, z, query, w) ==
            Answer(HopRecords(e, query.dnssec) + Beyond(z, query, w, e.List(CNAME)), Ns(z.apex, query.dnssec), [], Success)
  {
    Reaches(origin, z, query, w);
    e := Find(z.elems, query.name).value;
    hide ElemsValid, Passes, Walks, IsSubDomain, Lookup, Find, Sigs, Beyond, Extra, WildAnswer, NegativeAnswer, LastWild;
  }

  lemma HopAndBeyond(z: Contents, query: Query, w: World, e: ElemVal) returns (c: seq<ElemVal>, tail: seq<RR>)
    requires e.List(CNAME) != []
    ensures IsChain(z.elems, query, w, e, c, MAX_CHAIN + 2, tail) && c != [] && c[0] == e
    ensures HopRecords(e, query.dnssec) + Beyond(z, query, w, e.List(CNAME)) == ChainRecords(c, query.dnssec) + tail
  {
    hide Find, TargetOf, IsChain, Beyond, HopRecords, ChainRecords, ElemVal.List;
    var f := Find(z.elems, TargetOf(e.List(CNAME)));
    c, tail := BeyondLeads(z, query, w, e.List(CNAME));
    if f.None? {
      ChainOne(z.elems, query, w, e, MAX_CHAIN + 2, tail);
      NoChain(query.dnssec, tail);
      assert [e] + c == [e];
    } else {
      ChainStep(z.elems, query, w, e, f.value, c, MAX_CHAIN + 1, tail);
    }
    c := [e] + c;
  }

  lemma NoChain(dnssec: bool, tail: seq<RR>)
    ensures ChainRecords([], dnssec) + tail == tail
  {}

  /** The answer under a DNAME: the DNAME and the alias made from it, each with its signatures,
      then the chain the alias leads to. */
  lemma {:induction false} DnameChain(origin: Name, z: Contents, query: Query, w: World, k: nat, d: RR)
    returns (first: seq<RR>, alias: seq<RR>, c: seq<ElemVal>, tail: seq<RR>)
    requires ZoneOk(origin, z) && IsSubDomain(origin, query.name) && Walks(origin, z, query)
    requires k < Depth(origin, query.name) && ClearUpTo(origin, z, query, k)
    requires On(origin, z, query, k, DNAME) != [] && d == On(origin, z, query, k, DNAME)[0]
    ensures d.data.DNAMEData? && d.owner == PathName(origin, query.name, k)
    ensures Carries(On(origin, z, query, k, DNAME), On(origin, z, query, k, RRSIG), DNAME, query.dnssec, first)
    ensures Carries([Synthesize(query.name, d)], On(origin, z, query, k, RRSIG), CNAME, query.dnssec, alias)
    ensures Leads(z.elems, query, w, Synthesize(query.name, d).data.target, c, tail)
    ensures Lookup(origin, z, query, w).answer == first + alias + (ChainRecords(c, query.dnssec) + tail)
  {
    first, alias := TopmostDnameRedirects(origin, z, query, w, k, d);
    c, tail := BeyondLeads(z, query, w, [Synthesize(query.name, d)]);
    hide ZoneOk, Walks, IsSubDomain, Depth, ClearUpTo, On, Carries, Lookup, Leads, ChainRecords, Beyond, Synthesize, Ns;
  }

  // ----- wildcards -----

  /** The wildcard met at a step below the origin is the one under the name of the step before,
      and only where the step itself has no owner. */
  lemma WildcardMet(origin: Name, z: Contents, q: Name, k: nat)
    requires IsSubDomain(origin, q) && origin != [] && 0 < k <= Depth(origin, q)
    ensures WildAt(origin, z, q, k) ==
            if Find(z.elems, PathName(origin, q, k)).Some? then None
            else Find(z.elems, ["*"] + PathName(origin, q, k - 1))
  {
    hide Find;
    assert PathName(origin, q, k)[1..] == PathName(origin, q, k - 1);
  }

  /** Step k of the walk meets a wildcard, and no later step does. */
  predicate DeepestWildcard(origin: Name, z: Contents, query: Query, k: nat)
    requires IsSubDomain(origin, query.name)
  {
    && k <= Depth(origin, query.name)
    && WildAt(origin, z, query.name, k).Some?
    && forall j :: k < j <= Depth(origin, query.name) ==> WildAt(origin, z, query.name, j).None?
  }

  lemma {:induction false} LastWildIs(origin: Name, z: Contents, query: Query, k: nat, n: nat)
    requires IsSubDomain(origin, query.name) && DeepestWildcard(origin, z, query, k)
    requires k < n <= Depth(origin, query.name) + 1
    ensures LastWild(origin, z, query.name, n) == WildAt(origin, z, query.name, k)
  {
    hide WildAt;
    if n > k + 1 {
      assert WildAt(origin, z, query.name, n - 1).None?;
      LastWildIs(origin, z, query, k, n - 1);
    }
  }

  /** What a wildcard at n gives: an alias with what it leads to, or nothing but the SOA and with
      DNSSEC the wildcard's NSEC, or the wildcard's records and with DNSSEC the denial of the
      query name. CNAME and other records go under the query name. */
  ghost predicate FromWildcard(z: Contents, query: Query, w: World, n: Name, own: seq<RR>, a: Answer)
    requires z.apex.soa.Some?
  {
    var cnames, rrs, sigs := View(z.elems, n, CNAME), View(z.elems, n, query.qtype), View(z.elems, n, RRSIG);
    var soa := Soa(z.apex, query.dnssec);
    && a.rcode == Success && a.extra == []
    && if cnames != [] then
         && Carries(WithOwner(cnames, query.name), sigs, CNAME, query.dnssec, own)
         && a.answer == own + Beyond(z, query, w, cnames) && a.ns == Ns(z.apex, query.dnssec)
       else if rrs == [] then
         && own == a.answer == [] && soa <= a.ns
         && (query.dnssec ==> Carries(View(z.elems, n, NSEC), sigs, NSEC, true, a.ns[|soa|..]))
         && (!query.dnssec ==> a.ns == soa)
       else
         && Carries(WithOwner(rrs, query.name), WithOwner(sigs, query.name), query.qtype, query.dnssec, own)
         && a.answer == own
         && a.ns == Ns(z.apex, query.dnssec) + if query.dnssec then Deny(z.elems, query.name) else []
  }

  lemma WildAlias(z: Contents, query: Query, w: World, e: ElemVal) returns (own: seq<RR>)
    requires z.apex.soa.Some? && e.List(CNAME) != []
    ensures Carries(WithOwner(e.List(CNAME), query.name), e.List(RRSIG), CNAME, query.dnssec, own)
    ensures WildAnswer(z, query, w, e) ==
            Answer(own + Beyond(z, query, w, e.List(CNAME)), Ns(z.apex, query.dnssec), [], Success)
  {
    var cnames := WithOwner(e.List(CNAME), query.name);
    own := cnames + if query.dnssec then SigsFor(e.List(RRSIG), CNAME) else [];
    CarriesSigs(cnames, e.List(RRSIG), CNAME, query.dnssec);
    assert TargetOf(cnames) == TargetOf(e.List(CNAME));
    hide TargetOf, Chase, SigsFor, Carries, ElemVal.List, Find;
    assert Beyond(z, query, w, cnames) == Beyond(z, query, w, e.List(CNAME));
  }

  lemma WildData(z: Contents, query: Query, w: World, e: ElemVal) returns (own: seq<RR>)
    requires z.apex.soa.Some? && e.List(CNAME) == [] && e.List(query.qtype) != []
    ensures Carries(WithOwner(e.List(query.qtype), query.name), WithOwner(e.List(RRSIG), query.name),
                    query.qtype, query.dnssec, own)
    ensures WildAnswer(z, query, w, e) ==
            Answer(own, Ns(z.apex, query.dnssec) + (if query.dnssec then Deny(z.elems, query.name) else []), [], Success)
  {
    var rrs, sigs := WithOwner(e.List(query.qtype), query.name), WithOwner(e.List(RRSIG), query.name);
    own := rrs + if query.dnssec then SigsFor(sigs, query.qtype) else [];
    CarriesSigs(rrs, sigs, query.qtype, query.dnssec);
    hide Deny, SigsFor, Carries, ElemVal.List;
    assert Ns(z.apex, query.dnssec) + [] == Ns(z.apex, query.dnssec);
  }

  lemma WildNothing(z: Contents, query: Query, w: World, e: ElemVal)
    requires z.apex.soa.Some? && e.List(CNAME) == [] && e.List(query.qtype) == []
    ensures var a := WildAnswer(z, query, w, e);
      var soa := Soa(z.apex, query.dnssec);
      && a.rcode == Success && a.answer == a.extra == [] && soa <= a.ns
      && (query.dnssec ==> Carries(e.List(NSEC), e.List(RRSIG), NSEC, true, a.ns[|soa|..]))
      && (!query.dnssec ==> a.ns == soa)
  {
    CarriesSigs(e.List(NSEC), e.List(RRSIG), NSEC, true);
    hide SigsFor, Carries, ElemVal.List, Soa, Deny;
    var soa, more := Soa(z.apex, query.dnssec), TypeFrom(e, NSEC, true);
    assert (soa + more)[|soa|..] == more && soa + [] == soa;
  }

  /** A name that is not stored is answered from the deepest wildcard on its path. */
  lemma {:induction false} WildcardAnswered(origin: Name, z: Contents, query: Query, w: World, k: nat, n: Name)
    returns (own: seq<RR>)
    requires ElemsValid(z.elems) && IsSubDomain(origin, query.name)
    requires Walks(origin, z, query) && Passes(origin, z, query)
    requires Find(z.elems, query.name).None? && DeepestWildcard(origin, z, query, k)
    requires n == Asterisk(PathName(origin, query.name, k))
    ensures FromWildcard(z, query, w, n, own, Lookup(origin, z, query, w))
  {
    assert z.apex.soa.Some?;
    hide ElemsValid, IsSubDomain, Walks, Passes, Find, DeepestWildcard, Asterisk, PathName, Lookup, View, ElemVal.List;
    hide Carries, Beyond, Deny, Soa, Ns, WildAnswer, WithOwner;
    var e := WildcardReached(origin, z, query, w, k, n);
    if e.List(CNAME) != [] {
      own := WildAlias(z, query, w, e);
    } else if e.List(query.qtype) != [] {
      own := WildData(z, query, w, e);
    } else {
      own := [];
      WildNothing(z, query, w, e);
    }
  }

  /** An alias from a wildcard: under the query name, then the chain its target leads to. */
  lemma {:induction false} WildcardChain(origin: Name, z: Contents, query: Query, w: World, k: nat, n: Name)
    returns (own: seq<RR>, c: seq<ElemVal>, tail: seq<RR>)
    requires ElemsValid(z.elems) && IsSubDomain(origin, query.name)
    requires Walks(origin, z, query) && Passes(origin, z, query)
    requires Find(z.elems, query.name).None? && DeepestWildcard(origin, z, query, k)
    requires n == Asterisk(PathName(origin, query.name, k)) && View(z.elems, n, CNAME) != []
    ensures Carries(WithOwner(View(z.elems, n, CNAME), query.name), View(z.elems, n, RRSIG), CNAME, query.dnssec, own)
    ensures Leads(z.elems, query, w, TargetOf(View(z.elems, n, CNAME)), c, tail)
    ensures Lookup(origin, z, query, w).answer == own + (ChainRecords(c, query.dnssec) + tail)
  {
    hide ElemsValid, IsSubDomain, Passes, Find, DeepestWildcard, Asterisk, PathName, Lookup, View, WithOwner;
    hide Carries, Beyond, Deny, Soa, Ns, Leads, ChainRecords, TargetOf;
    own := WildcardAnswered(origin, z, query, w, k, n);
    c, tail := BeyondLeads(z, query, w, View(z.elems, n, CNAME));
  }

  lemma {:induction false} DeepestExists(origin: Name, z: Contents, query: Query, m: nat) returns (k: nat)
    requires IsSubDomain(origin, query.name) && m <= Depth(origin, query.name) + 1
    requires forall j :: m <= j <= Depth(origin, query.name) ==> WildAt(origin, z, query.name, j).None?
    requires LastWild(origin, z, query.name, m).Some?
    ensures DeepestWildcard(origin, z, query, k)
  {
    hide WildAt, PathName;
    if WildAt(origin, z, query.name, m - 1).Some? {
      k := m - 1;
    } else {
      k := DeepestExists(origin, z, query, m - 1);
    }
  }

  /** The deepest wildcard on the path has neither a CNAME nor the type asked for. */
  predicate HollowWildcard(origin: Name, z: Contents, query: Query, k: nat)
    requires IsSubDomain(origin, query.name)
  {
    && DeepestWildcard(origin, z, query, k)
    && var n := Asterisk(PathName(origin, query.name, k));
    && View(z.elems, n, CNAME) == [] && View(z.elems, n, query.qtype) == []
  }

  /** A missing name gets an empty answer exactly when no wildcard is met on its path, or the
      deepest one has nothing for it. Whether something lies below the name makes no difference. */
  lemma EmptyAnswerExactly(origin: Name, z: Contents, query: Query, w: World)
    requires ElemsValid(z.elems) && IsSubDomain(origin, query.name)
    requires Walks(origin, z, query) && Passes(origin, z, query) && Find(z.elems, query.name).None?
    ensures Lookup(origin, z, query, w).answer == [] <==>
            NoWildcard(origin, z, query) || exists k: nat :: HollowWildcard(origin, z, query, k)
  {
    hide ElemsValid, IsSubDomain, Passes, Find, Asterisk, Lookup, View, NoWildcard, LastWild, WildAt;
    WildcardsExactly(origin, z, query);
    if NoWildcard(origin, z, query) {
      PassesExactly(origin, z, query);
      PassedLookup(origin, z, query, w, None, None);
      NegativeIsEmpty(z, query, w);
    } else {
      var k := DeepestExists(origin, z, query, Depth(origin, query.name) + 1);
      HollowExactly(origin, z, query, w, k);
      forall j: nat | HollowWildcard(origin, z, query, j) ensures j == k {
        OneDeepest(origin, z, query, j, k);
      }
    }
  }

  lemma OneDeepest(origin: Name, z: Contents, query: Query, j: nat, k: nat)
    requires IsSubDomain(origin, query.name)
    requires DeepestWildcard(origin, z, query, j) && DeepestWildcard(origin, z, query, k)
    ensures j == k
  {
    hide WildAt;
  }

  lemma NegativeIsEmpty(z: Contents, query: Query, w: World)
    requires z.apex.soa.Some?
    ensures NegativeAnswer(z, query, w).answer == []
  {
    hide NextIsBelow, Deny, DenyWildcard, Soa;
  }

  lemma HollowExactly(origin: Name, z: Contents, query: Query, w: World, k: nat)
    requires ElemsValid(z.elems) && IsSubDomain(origin, query.name)
    requires Walks(origin, z, query) && Passes(origin, z, query) && Find(z.elems, query.name).None?
    requires DeepestWildcard(origin, z, query, k)
    ensures Lookup(origin, z, query, w).answer == [] <==> HollowWildcard(origin, z, query, k)
  {
    hide ElemsValid, IsSubDomain, Passes, Find, WildAt, Asterisk, PathName, Lookup, View, WithOwner, Deny, Soa, Ns;
    var n := Asterisk(PathName(origin, query.name, k));
    var own := WildcardAnswered(origin, z, query, w, k, n);
  }

  /** An empty non-terminal, a missing name with owners below it, is never a name error; it gets
      the empty answer a name that exists without data should get exactly when no wildcard on
      the path has records for it. */
  lemma EmptyNonTerminalExactly(origin: Name, z: Contents, query: Query, w: World)
    requires ZoneOk(origin, z) && IsSubDomain(origin, query.name) && ValidName(query.name)
    requires Walks(origin, z, query) && Passes(origin, z, query) && Find(z.elems, query.name).None?
    requires OwnerBelow(z.elems, query.name)
    ensures Lookup(origin, z, query, w).rcode == Success
    ensures Lookup(origin, z, query, w).answer == [] <==>
            NoWildcard(origin, z, query) || exists k: nat :: HollowWildcard(origin, z, query, k)
  {
    ValidOf(origin, z);
    hide *;
    EmptyAnswerExactly(origin, z, query, w);
    if NoWildcard(origin, z, query) {
      EmptyNonTerminal(origin, z, query, w);
    } else {
      WildcardSucceeds(origin, z, query, w);
    }
  }

  lemma WildcardSucceeds(origin: Name, z: Contents, query: Query, w: World)
    requires ElemsValid(z.elems) && IsSubDomain(origin, query.name)
    requires Walks(origin, z, query) && Passes(origin, z, query) && Find(z.elems, query.name).None?
    requires !NoWildcard(origin, z, query)
    ensures Lookup(origin, z, query, w).rcode == Success
  {
    hide ElemsValid, IsSubDomain, Passes, Find, Asterisk, Lookup, View, NoWildcard, LastWild, WildAt, WithOwner;
    hide Carries, Beyond, Deny, Soa, Ns;
    WildcardsExactly(origin, z, query);
    var k := DeepestExists(origin, z, query, Depth(origin, query.name) + 1);
    var own := WildcardAnswered(origin, z, query, w, k, Asterisk(PathName(origin, query.name, k)));
  }

  lemma {:induction false} WildcardReached(origin: Name, z: Contents, query: Query, w: World, k: nat, n: Name)
    returns (e: ElemVal)
    requires ElemsValid(z.elems) && IsSubDomain(origin, query.name)
    requires Walks(origin, z, query) && Passes(origin, z, query)
    requires Find(z.elems, query.name).None? && DeepestWildcard(origin, z, query, k)
    requires n == Asterisk(PathName(origin, query.name, k))
    ensures z.apex.soa.Some?
    ensures forall t :: View(z.elems, n, t) == e.List(t)
    ensures Lookup(origin, z, query, w) == WildAnswer(z, query, w, e)
  {
    hide ElemsValid, Find, PathName, IsSubDomain, Asterisk, View, Passes, LastWild, WildAt, Lookup, ElemVal.List;
    assert k <= Depth(origin, query.name) && WildAt(origin, z, query.name, k).Some?;
    hide *;
    PassesExactly(origin, z, query);
    e := WildAt(origin, z, query.name, k).value;
    WildFound(origin, z, query, k, n);
    LastWildIs(origin, z, query, k, Depth(origin, query.name) + 1);
    PassedLookup(origin, z, query, w, None, Some(e));
  }

  lemma {:induction false} WildFound(origin: Name, z: Contents, query: Query, k: nat, n: Name)
    requires IsSubDomain(origin, query.name) && k <= Depth(origin, query.name)
    requires n == Asterisk(PathName(origin, query.name, k)) && WildAt(origin, z, query.name, k).Some?
    ensures var e := WildAt(origin, z, query.name, k).value;
            forall t :: View(z.elems, n, t) == e.List(t)
  {}

  // ----- the apex -----

  /** The branches before the walk. */
  lemma ApexLookup(origin: Name, z: Contents, query: Query, w: World)
    requires ElemsValid(z.elems) && IsSubDomain(origin, query.name)
    ensures var a := Lookup(origin, z, query, w);
      if z.apex.soa.None? then a == Answer([], [], [], ServerFailure)
      else if query.qtype.SOA? then a == Answer(Soa(z.apex, query.dnssec), Ns(z.apex, query.dnssec), [], Success)
      else if query.qtype.NS? && query.name == origin then
        var nsrrs := Ns(z.apex, query.dnssec);
        a == Answer(nsrrs, [], Glue(z.elems, nsrrs, query.dnssec), Success)
      else Walks(origin, z, query)
  {
    hide FirstStop, Find, LastWild, DnameHits, DnameAnswer, CutAnswer, FoundAnswer, WildAnswer, NegativeAnswer;
    hide Soa, Ns, Glue, IsSubDomain, PathName, ElemsValid, Depth, Stops;
  }

  /** The apex records are answered from the apex, whatever the tree holds. */
  lemma ApexAnswered(origin: Name, z: Contents, query: Query, w: World)
    requires ElemsValid(z.elems) && IsSubDomain(origin, query.name) && z.apex.soa.Some?
    ensures var a := Lookup(origin, z, query, w);
      var ns := z.apex.ns + if query.dnssec then z.apex.sigNS else [];
      && (query.qtype.SOA? ==>
            && a.rcode == Success && a.ns == ns && a.extra == []
            && a.answer == [z.apex.soa.value] + if query.dnssec then z.apex.sigSOA else [])
      && (query.qtype.NS? && query.name == origin ==>
            a.rcode == Success && a.answer == ns && a.ns == [] && a.extra == Glue(z.elems, ns, query.dnssec))
  {
    ApexLookup(origin, z, query, w);
    hide Lookup, ElemsValid, Glue, IsSubDomain;
  }
}
