/** Zone of plugin/file/zone.go in memory, with its two ends of a transfer. */
module ZoneStore {
  import opened Wrappers
  import opened Names
  import opened Records
  import opened NameTree
  import opened ZoneData
  import opened Transfer
  import TreeOps
  import H = HeapTree
  import OwnerTree

  /** Elem.All: the types come in any order, as a Go map is walked. */
  method ElemRecords(e: H.Elem) returns (list: seq<RR>)
    requires e.Val().Valid()
    ensures ListsElem(e.Val(), list)
  {
    list := [];
    var todo := e.m.Keys;
    ghost var v := e.Val();
    assert ListsTypes(v, {}, list);
    while todo != {}
      invariant todo <= e.m.Keys && ListsTypes(v, e.m.Keys - todo, list)
      decreases todo
    {
      hide *;
      var u :| u in todo;
      ListsOneType(v, e.m.Keys - todo, u, list);
      list := list + e.m[u];
      todo := todo - {u};
      assert e.m.Keys - todo == e.m.Keys - (todo + {u}) + {u};
    }
  }

  /** The records listed are those of the types done. */
  ghost predicate ListsTypes(e: ElemVal, done: set<RRType>, list: seq<RR>) {
    forall n, t :: Project(list, n, t) == if n == e.name && t in done then e.List(t) else []
  }

  lemma ListsOneType(e: ElemVal, done: set<RRType>, u: RRType, list: seq<RR>)
    requires e.Valid() && u in e.m && u !in done && ListsTypes(e, done, list)
    ensures ListsTypes(e, done + {u}, list + e.m[u])
  {
    hide Project, RR.Type, EqualRdata, Deduped;
    assert ValidList(e.name, u, e.m[u]);
    forall n, t
      ensures Project(list + e.m[u], n, t) == if n == e.name && t in done + {u} then e.List(t) else []
    {
      ProjectConcat(list, e.m[u], n, t);
      ProjectSame(e.m[u], e.name, u, n, t);
      assert Project(list, n, t) == if n == e.name && t in done then e.List(t) else [];
      assert [] + e.m[u] == e.m[u];
    }
  }

  ghost predicate ListsElem(e: ElemVal, list: seq<RR>) {
    forall n, t :: Project(list, n, t) == if n == e.name then e.List(t) else []
  }

  lemma ListsMore(s: Elems, i: nat, rrs: seq<RR>, list: seq<RR>)
    requires i < |s| && Sorted(s) && ListsTree(s[..i], rrs) && ListsElem(s[i], list)
    ensures ListsTree(s[..i + 1], rrs + list)
  {
    hide Compare, Project;
    assert s[..i + 1] == s[..i] + [s[i]] + [];
    assert s[..i + 1] + s[i + 1..] == s;
    forall n, t
      ensures Project(rrs + list, n, t) == View(s[..i + 1], n, t)
    {
      ProjectConcat(rrs, list, n, t);
      TreeOps.FindMiddle(s[..i], s[i], [], n);
      assert Project(rrs, n, t) == View(s[..i], n, t);
      if n == s[i].name {
        NotBefore(s, i);
        assert [] + s[i].List(t) == s[i].List(t);
      }
    }
  }

  lemma NotBefore(s: Elems, i: nat)
    requires i < |s| && Sorted(s)
    ensures Find(s[..i], s[i].name).None?
  {
    CompareTotalOrder(s[i].name, s[i].name, s[i].name);
  }

  class Zone {
    const origin: Name
    var tree: OwnerTree.Tree
    var apex: Apex
    var expired: bool

    ghost function Data(): (z: Contents)
      reads this, tree
    {
      Contents(apex, tree.Listing())
    }

    ghost predicate Valid()
      reads this, tree, H.Footprint(tree.shape)
    {
      tree.Valid() && ZoneOk(origin, Data())
    }

    /** NewZone */
    constructor (origin: Name)
      ensures Valid() && Data() == EMPTY && this.origin == origin && !expired
      ensures fresh(tree) && fresh(H.Footprint(tree.shape))
    {
      this.origin := origin;
      apex, expired := NO_APEX, false;
      tree := new OwnerTree.Tree();
    }

    /** Zone.Insert; false is the error for NSEC3 records. */
    method Insert(rr: RR) returns (ok: bool)
      requires Valid() && ValidRR(rr)
      modifies this, tree, H.Footprint(tree.shape)
      ensures Valid() && Data() == ZoneData.Insert(origin, old(Data()), rr)
      ensures ok <==> !Refused(rr)
      ensures tree == old(tree) && expired == old(expired)
      ensures fresh(H.Footprint(tree.shape) - old(H.Footprint(tree.shape)))
    {
      InsertOk(origin, Data(), rr);
      InsertCases(origin, Data(), rr, Lower(rr));
      hide *;
      Outside(tree.shape);
      var r := Lower(rr);
      Switch(origin, rr, r);
      Framed();
      match r.data {
        case NSData(_) =>
          if r.owner == origin {
            apex := apex.(ns := apex.ns + [r]);
            return true;
          }
        case SOAData(_, _, _) =>
          apex := apex.(soa := Some(r));
          return true;
        case NSEC3Data(_) => return false;
        case NSEC3PARAMData(_) => return false;
        case RRSIGData(covered, _) =>
          if covered == SOA {
            apex := apex.(sigSOA := apex.sigSOA + [r]);
            return true;
          }
          if covered == NS && r.owner == origin {
            apex := apex.(sigNS := apex.sigNS + [r]);
            return true;
          }
        case _ =>
      }
      tree.Insert(r);
      Framed();
      return true;
    }

    /** What validity is. */
    lemma Framed()
      ensures Valid() <==> tree.Valid() && ZoneOk(origin, Data())
      ensures Data() == Contents(apex, tree.Listing())
    {}

    /** The cases of the switch, by type. */
    static lemma {:induction false} Switch(origin: Name, rr: RR, r: RR)
      requires r == Lower(rr)
      ensures r.data.NSData? <==> rr.Type() == NS
      ensures r.data.SOAData? <==> rr.Type() == SOA
      ensures Refused(rr) <==> r.data.NSEC3Data? || r.data.NSEC3PARAMData?
      ensures forall t :: CoversType(r, t) <==> r.data.RRSIGData? && r.data.covered == t
      ensures OfApex(origin, r) <==>
        || r.data.SOAData? || CoversType(r, SOA)
        || (r.owner == origin && (r.data.NSData? || CoversType(r, NS)))
    {
      hide Lower;
    }

    lemma Outside(s: H.Shape)
      ensures this !in H.Footprint(s)
    {}

    /** The records of all elements of the tree. */
    method TreeRecords() returns (list: seq<RR>)
      requires Valid()
      ensures ListsTree(tree.Listing(), list)
    {
      var nodes := tree.All();
      list := [];
      ghost var s := tree.Listing();
      hide Project, Find, Sorted, OwnerTree.Tree.Valid, OwnerTree.Tree.Listing, ElemsStored;
      assert ListsTree(s[..0], list) by { ListsNothing(); }
      for i := 0 to |nodes|
        invariant OwnerTree.Holding(nodes, s)
        invariant ListsTree(s[..i], list)
      {
        assert nodes[i].Val() == s[i];
        var more := ElemRecords(nodes[i]);
        ListsMore(s, i, list, more);
        list := list + more;
      }
      assert s[..|nodes|] == s;
    }

    /** Zone.All: the SOA first, which may be missing, then the other apex records, then
        the tree. */
    method All() returns (first: Option<RR>, rest: seq<RR>)
      requires Valid()
      ensures first == apex.soa && ListsRest(Data(), rest)
    {
      hide ListsTree, ZoneOk, OwnerTree.Tree.Valid, OwnerTree.Tree.Listing;
      var list := TreeRecords();
      ghost var rrs := list;
      if |apex.sigNS| > 0 {
        list := apex.sigNS + list;
      }
      list := apex.ns + list;
      if |apex.sigSOA| > 0 {
        list := apex.sigSOA + list;
      }
      first, rest := apex.soa, list;
      assert rest == apex.sigSOA + apex.ns + apex.sigNS + rrs;
      RestListed(Data(), rrs);
      hide ListsRest;
    }

    /** Xfr.ServeDNS: all records and the closing SOA, in envelopes. */
    method TransferOut(len: RR -> nat) returns (envs: seq<seq<RR>>)
      requires Valid() && apex.soa.Some?
      ensures apex.soa.Some? && IsTransfer(Data(), Flatten(envs)) && Packed(envs, len)
    {
      hide Packed, ListsTree, Flatten, ZoneOk, OwnerTree.Tree.Valid, OwnerTree.Tree.Listing, ListsRest, ListsZone;
      var first, rest := All();
      var records := [first.value] + rest;
      ZoneListed(Data(), rest);
      var closed := records + [records[0]];
      assert closed[..|closed| - 1] == records;
      envs := Envelopes(closed, len);
    }

    /** The inner loop of TransferIn: stop at the first record that is refused. */
    method InsertEnvelope(env: seq<RR>) returns (ok: bool)
      requires Valid() && RecordsValid(env)
      modifies this, tree, H.Footprint(tree.shape)
      ensures Valid() && tree == old(tree) && expired == old(expired)
      ensures fresh(H.Footprint(tree.shape) - old(H.Footprint(tree.shape)))
      ensures ok <==> AllAccepted(env)
      ensures ok ==> Data() == InsertAll(origin, old(Data()), env)
    {
      hide ZoneOk, OwnerTree.Tree.Valid, OwnerTree.Tree.Listing, ZoneData.Insert, Refused;
      ghost var start := H.Footprint(tree.shape);
      var i := 0;
      while i < |env|
        invariant 0 <= i <= |env|
        invariant Valid() && tree == old(tree) && expired == old(expired)
        invariant fresh(H.Footprint(tree.shape) - start)
        invariant AllAccepted(env[..i])
        invariant Data() == InsertAll(origin, old(Data()), env[..i])
      {
        assert env[..i + 1][..i] == env[..i];
        ghost var before := H.Footprint(tree.shape);
        label call:
        var accepted := Insert(env[i]);
        forall o | o in H.Footprint(tree.shape) && o !in start
          ensures fresh(o)
        {
          if o !in before {
            assert o in H.Footprint(tree.shape) - before;
            assert !old@call(allocated(o));
          }
        }
        if !accepted {
          return false;
        }
        i := i + 1;
      }
      assert env[..i] == env;
      return true;
    }

    /** TransferIn from a primary that answers: build a new zone, then switch to it.
        A record the new zone refuses leaves the old one in place. */
    method TransferIn(envs: seq<seq<RR>>) returns (ok: bool)
      requires forall k :: 0 <= k < |envs| ==> RecordsValid(envs[k])
      modifies this
      ensures ok <==> AllAccepted(Flatten(envs))
      ensures ok ==> Valid() && Data() == InsertAll(origin, EMPTY, Flatten(envs)) && !expired
      ensures ok ==> fresh(tree) && fresh(H.Footprint(tree.shape))
      ensures !ok ==> unchanged(this)
    {
      hide ZoneOk, OwnerTree.Tree.Valid, OwnerTree.Tree.Listing, InsertAll, Flatten, AllAccepted;
      var z1;
      z1, ok := BuildZone(origin, envs);
      if ok {
        Outside(z1.tree.shape);
        tree, apex, expired := z1.tree, z1.apex, false;
      }
    }
  }

  /** The loop over the envelopes of a transfer. */
  method BuildZone(origin: Name, envs: seq<seq<RR>>) returns (z1: Zone, ok: bool)
    requires forall k :: 0 <= k < |envs| ==> RecordsValid(envs[k])
    ensures fresh(z1) && fresh(z1.tree) && fresh(H.Footprint(z1.tree.shape))
    ensures z1.Valid() && z1.origin == origin
    ensures ok <==> AllAccepted(Flatten(envs))
    ensures ok ==> z1.Data() == InsertAll(origin, EMPTY, Flatten(envs))
  {
    hide *;
    z1 := new Zone(origin);
    NoEnvelopes(origin, envs);
    for k := 0 to |envs|
      invariant fresh(z1) && fresh(z1.tree) && fresh(H.Footprint(z1.tree.shape))
      invariant z1.Valid() && z1.origin == origin
      invariant AllAccepted(Flatten(envs[..k]))
      invariant z1.Data() == InsertAll(origin, EMPTY, Flatten(envs[..k]))
    {
      OneEnvelope(origin, envs, k);
      ghost var before := H.Footprint(z1.tree.shape);
      label call:
      var accepted := z1.InsertEnvelope(envs[k]);
      forall o | o in H.Footprint(z1.tree.shape)
        ensures fresh(o)
      {
        if o !in before {
          assert o in H.Footprint(z1.tree.shape) - before;
          assert !old@call(allocated(o));
        }
      }
      if !accepted {
        AcceptedPrefix(envs, k + 1);
        return z1, false;
      }
    }
    assert envs[..|envs|] == envs;
    return z1, true;
  }

  lemma NoEnvelopes(origin: Name, envs: seq<seq<RR>>)
    ensures AllAccepted(Flatten(envs[..0])) && InsertAll(origin, EMPTY, Flatten(envs[..0])) == EMPTY
  {}

  /** One envelope more. */
  lemma OneEnvelope(origin: Name, envs: seq<seq<RR>>, k: nat)
    requires k < |envs|
    ensures AllAccepted(Flatten(envs[..k + 1])) <==>
            AllAccepted(Flatten(envs[..k])) && AllAccepted(envs[k])
    ensures InsertAll(origin, EMPTY, Flatten(envs[..k + 1])) ==
            InsertAll(origin, InsertAll(origin, EMPTY, Flatten(envs[..k])), envs[k])
  {
    hide *;
    FlattenOne(envs[..k], envs[k]);
    assert envs[..k + 1] == envs[..k] + [envs[k]];
    AcceptedConcat(Flatten(envs[..k]), envs[k]);
    InsertAllConcat(origin, EMPTY, Flatten(envs[..k]), envs[k]);
  }

  lemma AcceptedConcat(a: seq<RR>, b: seq<RR>)
    ensures AllAccepted(a + b) <==> AllAccepted(a) && AllAccepted(b)
  {
    hide Refused;
    assert forall i :: 0 <= i < |a| ==> (a + b)[i] == a[i];
    assert forall i :: 0 <= i < |b| ==> (a + b)[|a| + i] == b[i];
  }

  lemma {:induction false} AcceptedPrefix(envs: seq<seq<RR>>, k: nat)
    requires k <= |envs|
    ensures AllAccepted(Flatten(envs)) ==> AllAccepted(Flatten(envs[..k]))
    decreases |envs|
  {
    if k == |envs| {
      assert envs[..k] == envs;
    } else {
      var e := envs[..|envs| - 1];
      AcceptedPrefix(e, k);
      assert e[..k] == envs[..k];
      AcceptedConcat(Flatten(e), envs[|envs| - 1]);
    }
  }

  lemma ListsNothing()
    ensures ListsTree([], [])
  {}

  /** No record of the stream is one Zone.Insert refuses. */
  predicate AllAccepted(rrs: seq<RR>) {
    forall i :: 0 <= i < |rrs| ==> !Refused(rrs[i])
  }

  lemma TransferAccepted(origin: Name, z: Contents, records: seq<RR>)
    requires ZoneOk(origin, z) && z.apex.soa.Some? && IsTransfer(z, records)
    ensures AllAccepted(records) && RecordsValid(records)
  {
    var rrs := TransferIsStream(z, records);
    ListedStored(origin, z.elems, rrs);
    hide Lower, ListsTree, Sorted, ElemsValid, ElemsStored, IsTransfer;
  }

  lemma {:induction false} FlattenOwners(envs: seq<seq<RR>>, k: nat)
    requires k < |envs| && RecordsValid(Flatten(envs))
    ensures RecordsValid(envs[k])
    decreases |envs|
  {
    var e, last := envs[..|envs| - 1], envs[|envs| - 1];
    var f := Flatten(e);
    assert forall i :: 0 <= i < |last| ==> (f + last)[|f| + i] == last[i];
    assert forall i :: 0 <= i < |f| ==> (f + last)[i] == f[i];
    if k < |envs| - 1 {
      FlattenOwners(e, k);
    }
  }

  /** A transfer from a primary to a secondary of the same origin reproduces the
      primary's apex and elements, whatever the secondary held and however the two
      trees are shaped. */
  method Replicate(primary: Zone, secondary: Zone, len: RR -> nat)
    requires primary.Valid() && primary.apex.soa.Some? && secondary.origin == primary.origin
    modifies secondary
    ensures secondary.Valid() && !secondary.expired
    ensures secondary.Data() == old(primary.Data())
  {
    ghost var z := primary.Data();
    hide RecordsValid, AllAccepted, Flatten, Packed, IsTransfer, ZoneOk, InsertAll, OwnerTree.Tree.Valid;
    var envs := primary.TransferOut(len);
    TransferAccepted(primary.origin, z, Flatten(envs));
    TransferRoundTrip(primary.origin, z, Flatten(envs));
    forall k | 0 <= k < |envs|
      ensures RecordsValid(envs[k])
    {
      FlattenOwners(envs, k);
    }
    var ok := secondary.TransferIn(envs);
  }
}
