/** Resource records and the elements of the zone tree as values
    (plugin/file/tree/elem.go, and the lower-casing of plugin/file/zone.go). */
module Records {
  import opened Names

  /** The record types the code tells apart. */
  datatype RRType =
    | A | NS | CNAME | SOA | MX | AAAA | SRV | DNAME | DS | RRSIG | NSEC | NSEC3 | NSEC3PARAM
    | OtherType(code: nat)

  datatype RData =
    | AData(addr: string)
    | AAAAData(addr6: string)
    | NSData(ns: Name)
    | CNAMEData(target: Name)
    | DNAMEData(dtarget: Name)
    | SOAData(mname: Name, mbox: Name, serial: nat)
    | MXData(preference: nat, mx: Name)
    | SRVData(priority: nat, weight: nat, port: nat, srvTarget: Name)
    | RRSIGData(covered: RRType, signature: string)
    | DSData(digest: string)
    | NSECData(next: string)
    | NSEC3Data(hash: string)
    | NSEC3PARAMData(salt: string)
    | OtherData(code: nat, raw: string)

  datatype RR = RR(owner: Name, ttl: nat, data: RData)
  {
    function Type(): (t: RRType) {
      match data
      case AData(_) => A
      case AAAAData(_) => AAAA
      case NSData(_) => NS
      case CNAMEData(_) => CNAME
      case DNAMEData(_) => DNAME
      case SOAData(_, _, _) => SOA
      case MXData(_, _) => MX
      case SRVData(_, _, _, _) => SRV
      case RRSIGData(_, _) => RRSIG
      case DSData(_) => DS
      case NSECData(_) => NSEC
      case NSEC3Data(_) => NSEC3
      case NSEC3PARAMData(_) => NSEC3PARAM
      case OtherData(code, _) => OtherType(code)
    }
  }

  /** The lower-casing Zone.Insert applies to a record before storing it. */
  function Lower(rr: RR): (r: RR)
    ensures r.Type() == rr.Type() && r.owner == ToLower(rr.owner) && r.ttl == rr.ttl
  {
    var data :=
      match rr.data
      case NSData(ns) => NSData(ToLower(ns))
      case CNAMEData(target) => CNAMEData(ToLower(target))
      case SOAData(mname, mbox, serial) => SOAData(ToLower(mname), ToLower(mbox), serial)
      case MXData(p, mx) => MXData(p, ToLower(mx))
      case SRVData(p, w, port, target) => SRVData(p, w, port, ToLower(target))
      case other => other;
    RR(ToLower(rr.owner), rr.ttl, data)
  }

  /** The names inside the data that are lower-cased. */
  function DataNames(data: RData): (names: seq<Name>) {
    match data
    case NSData(ns) => [ns]
    case CNAMEData(target) => [target]
    case SOAData(mname, mbox, _) => [mname, mbox]
    case MXData(_, mx) => [mx]
    case SRVData(_, _, _, target) => [target]
    case _ => []
  }

  /** The same data with other names inside. */
  function WithNames(data: RData, names: seq<Name>): (r: RData)
    requires |names| == |DataNames(data)|
    ensures DataNames(r) == names
  {
    match data
    case NSData(_) => NSData(names[0])
    case CNAMEData(_) => CNAMEData(names[0])
    case SOAData(_, _, serial) => SOAData(names[0], names[1], serial)
    case MXData(p, _) => MXData(p, names[0])
    case SRVData(p, w, port, _) => SRVData(p, w, port, names[0])
    case other => other
  }

  /** Lower-casing changes the case of the owner and of the names inside the data, and
      nothing else: with the names put back it is the old record. */
  lemma LowerNames(rr: RR)
    ensures var r := Lower(rr);
      && r.owner == ToLower(rr.owner) && r.ttl == rr.ttl && r.Type() == rr.Type()
      && |DataNames(r.data)| == |DataNames(rr.data)|
      && (forall i :: 0 <= i < |DataNames(rr.data)| ==> DataNames(r.data)[i] == ToLower(DataNames(rr.data)[i]))
      && WithNames(r.data, DataNames(rr.data)) == rr.data
  {}

  lemma LowerIdempotent(rr: RR)
    ensures Lower(Lower(rr)) == Lower(rr)
  {
    ToLowerIdempotent(rr.owner);
    match rr.data
    case NSData(ns) => ToLowerIdempotent(ns);
    case CNAMEData(target) => ToLowerIdempotent(target);
    case SOAData(mname, mbox, _) => ToLowerIdempotent(mname); ToLowerIdempotent(mbox);
    case MXData(_, mx) => ToLowerIdempotent(mx);
    case SRVData(_, _, _, target) => ToLowerIdempotent(target);
    case _ =>
  }

  /** A record whose names, the owner's and those in its data, are escape-free. */
  predicate ValidRR(rr: RR) {
    && ValidName(rr.owner)
    && match rr.data
       case NSData(ns) => NameOrEmpty(ns)
       case CNAMEData(target) => NameOrEmpty(target)
       case DNAMEData(target) => NameOrEmpty(target)
       case MXData(_, mx) => NameOrEmpty(mx)
       case SRVData(_, _, _, target) => NameOrEmpty(target)
       case _ => true
  }

  lemma LowerValid(rr: RR)
    requires ValidRR(rr)
    ensures ValidRR(Lower(rr))
  {}

  /** equalRdata: only addresses and mail exchangers are ever found equal. */
  predicate EqualRdata(a: RR, b: RR) {
    match (a.data, b.data)
    case (AData(x), AData(y)) => x == y
    case (AAAAData(x), AAAAData(y)) => x == y
    case (MXData(p, x), MXData(q, y)) => x == y && p == q
    case _ => false
  }

  /** Two records are found equal exactly when their data is the same and is an address or a
      mail exchanger. */
  lemma EqualExactly(a: RR, b: RR)
    ensures EqualRdata(a, b) <==> a.data == b.data && a.Type() in {A, AAAA, MX}
  {}

  // ----- the list of records of one name and type -----

  predicate Holds(l: seq<RR>, rr: RR) {
    exists i :: 0 <= i < |l| && EqualRdata(l[i], rr)
  }

  /** What inserting a record does to the list of its name and type. */
  function AddToList(l: seq<RR>, rr: RR): (r: seq<RR>)
    ensures l <= r
    ensures Deduped(l) ==> Deduped(r)
  {
    if Holds(l, rr) then l else l + [rr]
  }

  /** The record goes to the end of the list exactly when the list has none with equal data;
      adding it again never changes anything for records that can be found equal. */
  lemma AddedExactly(l: seq<RR>, rr: RR)
    ensures AddToList(l, rr) == l <==> exists i :: 0 <= i < |l| && EqualRdata(l[i], rr)
    ensures AddToList(l, rr) != l ==> |AddToList(l, rr)| == |l| + 1 && AddToList(l, rr)[|l|] == rr
    ensures EqualRdata(rr, rr) ==> AddToList(AddToList(l, rr), rr) == AddToList(l, rr)
  {
    var r := AddToList(l, rr);
    if r != l && EqualRdata(rr, rr) {
      assert r[|l|] == rr;
    }
  }

  predicate Deduped(l: seq<RR>) {
    forall i, j :: 0 <= i < j < |l| ==> !EqualRdata(l[i], l[j])
  }

  // ----- elements -----

  /** An element: an owner name and its records by type. */
  datatype ElemVal = ElemVal(name: Name, m: map<RRType, seq<RR>>)
  {
    function List(t: RRType): (r: seq<RR>) {
      if t in m then m[t] else []
    }

    /** What every element of a tree satisfies. */
    predicate Valid() {
      && ValidName(name)
      && m.Keys != {}
      && forall t :: t in m ==> ValidList(name, t, m[t])
    }
  }

  predicate ValidList(name: Name, t: RRType, l: seq<RR>) {
    && l != []
    && (forall i :: 0 <= i < |l| ==> l[i].owner == name && l[i].Type() == t)
    && Deduped(l)
  }

  /** newElem */
  function NewElem(rr: RR): (e: ElemVal)
    ensures ValidName(rr.owner) ==> e.Valid()
    ensures e.name == rr.owner
    ensures forall t :: e.List(t) == if t == rr.Type() then [rr] else []
  {
    var m := map[rr.Type() := [rr]];
    assert rr.Type() in m.Keys;
    ElemVal(rr.owner, m)
  }

  /** Elem.Insert on values. */
  function AddRecord(e: ElemVal, rr: RR): (r: ElemVal)
    ensures r.name == e.name
    ensures forall t :: r.List(t) == if t == rr.Type() then AddToList(e.List(t), rr) else e.List(t)
    ensures e.Valid() && rr.owner == e.name ==> r.Valid()
  {
    var m := e.m[rr.Type() := AddToList(e.List(rr.Type()), rr)];
    assert rr.Type() in m.Keys;
    e.(m := m)
  }
}
