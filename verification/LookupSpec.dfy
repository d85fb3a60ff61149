/** Zone.Lookup of plugin/file/lookup.go on values: which branch answers a query,
    and with what. */
module LookupSpec {
  import opened Wrappers
  import opened Names
  import opened Records
  import opened NameTree
  import opened ZoneData

  datatype Result = Success | NameError | Delegation | NoData | ServerFailure

  datatype Answer = Answer(answer: seq<RR>, ns: seq<RR>, extra: seq<RR>, rcode: Result)

  /** A query: name, type and the DNSSEC-OK flag. */
  datatype Query = Query(name: Name, qtype: RRType, dnssec: bool)

  /** What lies outside the zone: the upstream resolver, and the closest encloser
      used for the second denial record. */
  datatype World = World(upstream: (Name, RRType) -> seq<RR>, encloser: Name -> Option<Name>)

  // ----- small pieces -----

  /** signatureForSubType */
  function SigsFor(rrs: seq<RR>, t: RRType): (r: seq<RR>) {
    if rrs == [] then []
    else
      (if rrs[0].data.RRSIGData? && rrs[0].data.covered == t then [rrs[0]] else []) + SigsFor(rrs[1..], t)
  }

  /** The signatures an element holds for a type, when asked for. */
  function Sigs(e: ElemVal, t: RRType, dnssec: bool): (r: seq<RR>) {
    if dnssec then SigsFor(e.List(RRSIG), t) else []
  }

  /** Zone.typeFromElem */
  function TypeFrom(e: ElemVal, t: RRType, dnssec: bool): (r: seq<RR>) {
    e.List(t) + Sigs(e, t, dnssec)
  }

  /** Types with a name: the same records under another owner. */
  function WithOwner(rrs: seq<RR>, n: Name): (r: seq<RR>)
    ensures |r| == |rrs|
    ensures forall i :: 0 <= i < |rrs| ==> r[i] == rrs[i].(owner := n)
  {
    seq(|rrs|, i requires 0 <= i < |rrs| => rrs[i].(owner := n))
  }

  function Soa(apex: Apex, dnssec: bool): (r: seq<RR>)
    requires apex.soa.Some?
  {
    [apex.soa.value] + if dnssec then apex.sigSOA else []
  }

  function Ns(apex: Apex, dnssec: bool): (r: seq<RR>) {
    apex.ns + if dnssec then apex.sigNS else []
  }

  /** The addresses of one type at a name, with signatures. */
  function AddrAt(s: Elems, n: Name, t: RRType, dnssec: bool): (r: seq<RR>) {
    var f := Find(s, n);
    if f.None? then [] else f.value.List(t) + Sigs(f.value, t, dnssec)
  }

  /** Zone.Glue: addresses of name servers that lie below what they serve. */
  function Glue(s: Elems, nsrrs: seq<RR>, dnssec: bool): (r: seq<RR>) {
    if nsrrs == [] then []
    else
      var i := |nsrrs| - 1;
      var rr := nsrrs[i];
      Glue(s, nsrrs[..i], dnssec) +
      if rr.data.NSData? && IsSubDomain(rr.owner, rr.data.ns)
      then AddrAt(s, rr.data.ns, A, dnssec) + AddrAt(s, rr.data.ns, AAAA, dnssec)
      else []
  }

  /** The host a mail exchanger or service record points to. */
  function Host(rr: RR): (n: Name) {
    match rr.data
    case SRVData(_, _, _, target) => target
    case MXData(_, mx) => mx
    case _ => []
  }

  /** Addresses of one type for the additional section: signatures only go with addresses. */
  function ExtraAddr(e: ElemVal, t: RRType, dnssec: bool): (r: seq<RR>) {
    if t in e.m then e.List(t) + Sigs(e, t, dnssec) else []
  }

  /** additionalProcessing for MX and SRV answers. */
  function Extra(origin: Name, s: Elems, rrs: seq<RR>, dnssec: bool): (r: seq<RR>) {
    if rrs == [] then []
    else
      var i := |rrs| - 1;
      var host := Host(rrs[i]);
      var f := Find(s, host);
      Extra(origin, s, rrs[..i], dnssec) +
      if IsSubDomain(origin, host) && f.Some?
      then ExtraAddr(f.value, A, dnssec) + ExtraAddr(f.value, AAAA, dnssec)
      else []
  }

  // ----- the neighbours of a name in a sorted listing -----

  function NextOf(s: Elems, q: Name): (r: Option<ElemVal>) {
    if s == [] then None
    else if Compare(q, s[0].name) <= 0 then Some(s[0])
    else NextOf(s[1..], q)
  }

  function PrevOf(s: Elems, q: Name): (r: Option<ElemVal>) {
    if s == [] then None
    else if Compare(s[|s| - 1].name, q) <= 0 then Some(s[|s| - 1])
    else PrevOf(s[..|s| - 1], q)
  }

  // ----- the walk from the origin to the name -----

  function Depth(origin: Name, q: Name): (d: nat)
    requires IsSubDomain(origin, q)
  {
    |q| - |origin|
  }

  /** Zone.nameFromRight for a name in the zone: the origin and i labels more. */
  function PathName(origin: Name, q: Name, i: nat): (n: Name)
    requires IsSubDomain(origin, q) && i <= Depth(origin, q)
    ensures |n| == |origin| + i && IsSubDomain(n, q)
    ensures i == 0 ==> n == origin
    ensures i == Depth(origin, q) ==> n == q
  {
    q[|q| - |origin| - i..]
  }

  /** replaceWithAsteriskLabel; a single label leaves the empty string. */
  function Asterisk(n: Name): (w: Name) {
    if |n| <= 1 then [] else ["*"] + n[1..]
  }

  /** A DNAME that applies: its owner lies properly above the name asked for. */
  predicate DnameHits(e: ElemVal, q: Name) {
    var l := e.List(DNAME);
    l != [] && IsSubDomain(l[0].owner, q) && q != l[0].owner
  }

  /** NS records below the apex end the walk, except for DS asked at the cut itself. */
  predicate CutHits(e: ElemVal, query: Query) {
    e.List(NS) != [] && !(query.qtype.DS? && e.name == query.name)
  }

  predicate Stops(origin: Name, z: Contents, query: Query, i: nat)
    requires IsSubDomain(origin, query.name) && i <= Depth(origin, query.name)
  {
    var f := Find(z.elems, PathName(origin, query.name, i));
    f.Some? && (DnameHits(f.value, query.name) || CutHits(f.value, query))
  }

  /** The first stop at or after step i. */
  function FirstStop(origin: Name, z: Contents, query: Query, i: nat): (r: Option<nat>)
    requires IsSubDomain(origin, query.name) && i <= Depth(origin, query.name) + 1
    ensures r.Some? ==>
              && i <= r.value <= Depth(origin, query.name) && Stops(origin, z, query, r.value)
              && forall j :: i <= j < r.value ==> !Stops(origin, z, query, j)
    ensures r.None? ==> forall j :: i <= j <= Depth(origin, query.name) ==> !Stops(origin, z, query, j)
    decreases Depth(origin, query.name) + 1 - i
  {
    if i == Depth(origin, query.name) + 1 then None
    else if Stops(origin, z, query, i) then Some(i)
    else FirstStop(origin, z, query, i + 1)
  }

  /** The wildcard looked up where the walk finds nothing. */
  function WildAt(origin: Name, z: Contents, q: Name, i: nat): (r: Option<ElemVal>)
    requires IsSubDomain(origin, q) && i <= Depth(origin, q)
  {
    var n := PathName(origin, q, i);
    if Find(z.elems, n).Some? then None else Find(z.elems, Asterisk(n))
  }

  /** The last wildcard recorded in the first k steps. */
  function LastWild(origin: Name, z: Contents, q: Name, k: nat): (r: Option<ElemVal>)
    requires IsSubDomain(origin, q) && k <= Depth(origin, q) + 1
  {
    if k == 0 then None
    else
      var w := WildAt(origin, z, q, k - 1);
      if w.Some? then w else LastWild(origin, z, q, k - 1)
  }

  // ----- CNAME chains -----

  const MAX_CHAIN := 8

  /** The records one CNAME owner contributes. */
  function HopRecords(e: ElemVal, dnssec: bool): (r: seq<RR>) {
    e.List(CNAME) + Sigs(e, CNAME, dnssec)
  }

  /** Where an element's first CNAME points. */
  function TargetOf(rrs: seq<RR>): (n: Name) {
    if rrs != [] && rrs[0].data.CNAMEData? then rrs[0].data.target else []
  }

  /** What the last element of a chain contributes. */
  function Terminal(e: ElemVal, query: Query): (r: seq<RR>) {
    if e.List(query.qtype) == [] then [] else e.List(query.qtype) + Sigs(e, query.qtype, query.dnssec)
  }

  /** The Redo loop of additionalProcessing, entered at e for the i-th time. */
  function Chase(s: Elems, query: Query, w: World, e: ElemVal, i: nat): (r: seq<RR>)
    requires i <= MAX_CHAIN
    decreases MAX_CHAIN - i
  {
    if e.List(CNAME) == [] then Terminal(e, query)
    else
      var target := TargetOf(e.List(CNAME));
      var f := Find(s, target);
      HopRecords(e, query.dnssec) +
      if f.None? then w.upstream(target, query.qtype)
      else if i == MAX_CHAIN then []
      else Chase(s, query, w, f.value, i + 1)
  }

  /** Where CNAME records lead: into the zone, or outside. */
  function Beyond(z: Contents, query: Query, w: World, rrs: seq<RR>): (r: seq<RR>) {
    var f := Find(z.elems, TargetOf(rrs));
    if f.None? then w.upstream(TargetOf(rrs), query.qtype) else Chase(z.elems, query, w, f.value, 0)
  }

  /** additionalProcessing for the CNAME records rrs found at e. */
  function Follow(z: Contents, query: Query, w: World, e: ElemVal, rrs: seq<RR>): (a: Answer) {
    Answer(rrs + Sigs(e, CNAME, query.dnssec) + Beyond(z, query, w, rrs), Ns(z.apex, query.dnssec), [], Success)
  }

  /** synthesizeCNAME: the labels below the DNAME's owner, put before its target. */
  function Synthesize(q: Name, d: RR): (r: RR)
    requires d.data.DNAMEData? && IsSubDomain(d.owner, q)
    ensures r.owner == q && r.data.CNAMEData?
    ensures |r.data.target| == |q| - |d.owner| + |d.data.dtarget| && IsSubDomain(d.data.dtarget, r.data.target)
    ensures r.data.target[..|q| - |d.owner|] == q[..|q| - |d.owner|] && r.ttl == d.ttl
  {
    RR(q, d.ttl, CNAMEData(q[..|q| - |d.owner|] + d.data.dtarget))
  }

  // ----- the answers -----

  function DnameAnswer(z: Contents, query: Query, w: World, e: ElemVal): (a: Answer)
    requires e.Valid() && DnameHits(e, query.name)
  {
    var d := e.List(DNAME)[0];
    var a := Follow(z, query, w, e, [Synthesize(query.name, d)]);
    a.(answer := TypeFrom(e, DNAME, query.dnssec) + a.answer)
  }

  function CutAnswer(z: Contents, query: Query, e: ElemVal): (a: Answer) {
    var nsrrs := e.List(NS);
    Answer([], nsrrs + (if query.dnssec then TypeFrom(e, DS, true) else []),
           Glue(z.elems, nsrrs, query.dnssec), Delegation)
  }

  function FoundAnswer(origin: Name, z: Contents, query: Query, w: World, e: ElemVal): (a: Answer)
    requires z.apex.soa.Some?
  {
    if e.List(CNAME) != [] && !query.qtype.CNAME? then Follow(z, query, w, e, e.List(CNAME))
    else
      var rrs := WithOwner(e.List(query.qtype), query.name);
      if rrs == [] then
        Answer([], Soa(z.apex, query.dnssec) + (if query.dnssec then TypeFrom(e, NSEC, true) else []), [], NoData)
      else
        Answer(rrs + Sigs(e, query.qtype, query.dnssec), Ns(z.apex, query.dnssec),
               Extra(origin, z.elems, rrs, query.dnssec), Success)
  }

  /** The denial record for a name: that of its predecessor. */
  function Deny(s: Elems, q: Name): (r: seq<RR>) {
    var p := PrevOf(s, q);
    if p.None? then [] else TypeFrom(p.value, NSEC, true)
  }

  function WildAnswer(z: Contents, query: Query, w: World, e: ElemVal): (a: Answer)
    requires z.apex.soa.Some?
  {
    var auth := Ns(z.apex, query.dnssec);
    var cnames := WithOwner(e.List(CNAME), query.name);
    var rrs := WithOwner(e.List(query.qtype), query.name);
    if cnames != [] then Follow(z, query, w, e, cnames)
    else if rrs == [] then
      Answer([], Soa(z.apex, query.dnssec) + (if query.dnssec then TypeFrom(e, NSEC, true) else []), [], Success)
    else if query.dnssec then
      Answer(rrs + SigsFor(WithOwner(e.List(RRSIG), query.name), query.qtype),
             auth + Deny(z.elems, query.name), [], Success)
    else Answer(rrs, auth, [], Success)
  }

  /** The probe for names below a missing one: look at the next owner only. */
  predicate NextIsBelow(s: Elems, q: Name) {
    var x := NextOf(s, q);
    x.Some? && IsSubDomain(q, x.value.name)
  }

  /** The second denial record, for the wildcard at the closest encloser. */
  function DenyWildcard(s: Elems, q: Name, w: World): (r: seq<RR>) {
    var deny, ce := PrevOf(s, q), w.encloser(q);
    if deny.None? || ce.None? then []
    else
      var p := PrevOf(s, ["*"] + ce.value);
      if p.None? || p.value.name == deny.value.name then [] else TypeFrom(p.value, NSEC, true)
  }

  function NegativeAnswer(z: Contents, query: Query, w: World): (a: Answer)
    requires z.apex.soa.Some?
  {
    var rcode := if NextIsBelow(z.elems, query.name) then Success else NameError;
    var denial :=
      if !query.dnssec then []
      else Deny(z.elems, query.name) +
           if rcode == NameError then DenyWildcard(z.elems, query.name, w) else [];
    Answer([], Soa(z.apex, query.dnssec) + denial, [], rcode)
  }

  /** Zone.Lookup for a name in the zone. */
  function Lookup(origin: Name, z: Contents, query: Query, w: World): (a: Answer)
    requires IsSubDomain(origin, query.name) && ElemsValid(z.elems)
  {
    var q := query.name;
    if z.apex.soa.None? then Answer([], [], [], ServerFailure)
    else if query.qtype.SOA? then Answer(Soa(z.apex, query.dnssec), Ns(z.apex, query.dnssec), [], Success)
    else if query.qtype.NS? && q == origin then
      var nsrrs := Ns(z.apex, query.dnssec);
      Answer(nsrrs, [], Glue(z.elems, nsrrs, query.dnssec), Success)
    else
      var stop := FirstStop(origin, z, query, 0);
      if stop.Some? then
        var e := Find(z.elems, PathName(origin, q, stop.value)).value;
        if DnameHits(e, q) then DnameAnswer(z, query, w, e) else CutAnswer(z, query, e)
      else
        var f := Find(z.elems, q);
        var wild := LastWild(origin, z, q, Depth(origin, q) + 1);
        if f.Some? then FoundAnswer(origin, z, query, w, f.value)
        else if wild.Some? then WildAnswer(z, query, w, wild.value)
        else NegativeAnswer(z, query, w)
  }
}
