/** The tree of owner names of plugin/file/tree/tree.go on values: insertion,
    deletion and the searches, against the sorted listing of the tree. */
module NameTree {
  import opened Wrappers
  import opened Names
  import opened Records
  import opened Llrb

  type Elems = seq<ElemVal>

  // ----- sorted listings -----

  predicate NamesValid(s: Elems) {
    forall i :: 0 <= i < |s| ==> ValidName(s[i].name)
  }

  predicate ElemsValid(s: Elems) {
    forall i :: 0 <= i < |s| ==> s[i].Valid()
  }

  /** Strictly increasing under less. */
  predicate Sorted(s: Elems) {
    && NamesValid(s)
    && forall i, j :: 0 <= i < j < |s| ==> Compare(s[i].name, s[j].name) < 0
  }

  predicate Below(s: Elems, q: Name) {
    forall i :: 0 <= i < |s| ==> Compare(s[i].name, q) < 0
  }

  predicate Above(s: Elems, q: Name) {
    forall i :: 0 <= i < |s| ==> Compare(q, s[i].name) < 0
  }

  lemma SortedParts(l: Elems, e: ElemVal, r: Elems)
    ensures Sorted(l + [e] + r) <==>
              Sorted(l) && Sorted(r) && ValidName(e.name) && Below(l, e.name) && Above(r, e.name)
  {
    hide *;
    if Sorted(l + [e] + r) {
      SortedSplits(l, e, r);
    }
    if Sorted(l) && Sorted(r) && ValidName(e.name) && Below(l, e.name) && Above(r, e.name) {
      SortedJoins(l, e, r);
    }
  }

  lemma SortedSplits(l: Elems, e: ElemVal, r: Elems)
    requires Sorted(l + [e] + r)
    ensures Sorted(l) && Sorted(r) && ValidName(e.name) && Below(l, e.name) && Above(r, e.name)
  {
    hide *;
    var s := l + [e] + r;
    assert s[..|l|] == s[0..|l|] == l && s[|l| + 1..] == s[|l| + 1..|s|] == r && s[|l|] == e;
    SortedSub(s, 0, |l|);
    SortedSub(s, |l| + 1, |s|);
    SortedAt(s, |l|);
  }

  lemma SortedSub(s: Elems, i: nat, j: nat)
    requires Sorted(s) && i <= j <= |s|
    ensures Sorted(s[i..j])
  {
    hide Compare, ValidName;
  }

  lemma SortedAt(s: Elems, k: nat)
    requires Sorted(s) && k < |s|
    ensures ValidName(s[k].name) && Below(s[..k], s[k].name) && Above(s[k + 1..], s[k].name)
  {
    hide Compare, ValidName;
  }

  lemma SortedJoins(l: Elems, e: ElemVal, r: Elems)
    requires Sorted(l) && Sorted(r) && ValidName(e.name) && Below(l, e.name) && Above(r, e.name)
    ensures Sorted(l + [e] + r)
  {
    hide Compare, ValidName, NameOrEmpty;
    var s := l + [e] + r;
    forall i | 0 <= i < |s| ensures ValidName(s[i].name) {
      assert s[i] == if i < |l| then l[i] else if i == |l| then e else r[i - |l| - 1];
    }
    forall i, j | 0 <= i < j < |s|
      ensures Compare(s[i].name, s[j].name) < 0
    {
      assert s[i] == if i < |l| then l[i] else if i == |l| then e else r[i - |l| - 1];
      assert s[j] == if j < |l| then l[j] else if j == |l| then e else r[j - |l| - 1];
      if i < |l| < j {
        OrderThrough(s[i].name, e.name, s[j].name);
      }
    }
  }

  lemma OrderThrough(a: Name, b: Name, c: Name)
    requires ValidName(a) && ValidName(b) && ValidName(c) && Compare(a, b) < 0 && Compare(b, c) < 0
    ensures Compare(a, c) < 0
  {
    CompareTotalOrder(a, b, c);
  }

  /** Everything on the left is before q once the middle is, and so on the right. */
  lemma BelowAbove(l: Elems, e: ElemVal, r: Elems, q: Name)
    requires Sorted(l + [e] + r) && NameOrEmpty(q)
    ensures Compare(e.name, q) <= 0 ==> Below(l, q)
    ensures Compare(q, e.name) <= 0 ==> Above(r, q)
    ensures Compare(e.name, q) == -Compare(q, e.name)
    ensures Compare(q, e.name) == 0 <==> q == e.name
  {
    hide Compare;
    SortedParts(l, e, r);
    CompareTotalOrder(e.name, q, q);
    CompareTotalOrder(q, e.name, q);
    forall i | 0 <= i < |l|
      ensures Compare(e.name, q) <= 0 ==> Compare(l[i].name, q) < 0
    {
      CompareTotalOrder(l[i].name, e.name, q);
    }
    forall i | 0 <= i < |r|
      ensures Compare(q, e.name) <= 0 ==> Compare(q, r[i].name) < 0
    {
      CompareTotalOrder(q, e.name, r[i].name);
    }
  }

  // ----- what the operations do to a listing -----

  /** Put a record into a sorted listing. */
  function Put(s: Elems, rr: RR): (r: Elems) {
    if s == [] then [NewElem(rr)]
    else
      var c := Compare(rr.owner, s[0].name);
      if c == 0 then [AddRecord(s[0], rr)] + s[1..]
      else if c < 0 then [NewElem(rr)] + s
      else [s[0]] + Put(s[1..], rr)
  }

  /** Take a name out of a listing. */
  function Drop(s: Elems, k: Name): (r: Elems) {
    if s == [] then []
    else (if s[0].name == k then [] else [s[0]]) + Drop(s[1..], k)
  }

  lemma {:induction false} DropConcat(a: Elems, b: Elems, k: Name)
    ensures Drop(a + b, k) == Drop(a, k) + Drop(b, k)
  {
    if a == [] {
      assert a + b == b;
    } else {
      assert (a + b)[1..] == a[1..] + b;
      DropConcat(a[1..], b, k);
    }
  }

  lemma {:induction false} DropAbsent(s: Elems, k: Name)
    requires forall i :: 0 <= i < |s| ==> s[i].name != k
    ensures Drop(s, k) == s
  {
    if s != [] {
      DropAbsent(s[1..], k);
      assert s == [s[0]] + s[1..];
    }
  }

  lemma DropMiddle(l: Elems, e: ElemVal, r: Elems, k: Name)
    ensures Drop(l + [e] + r, k) == Drop(l, k) + (if e.name == k then [] else [e]) + Drop(r, k)
  {
    DropConcat(l + [e], r, k);
    DropConcat(l, [e], k);
    assert Drop([e], k) == if e.name == k then [] else [e];
  }

  lemma DropSplit(l: Elems, e: ElemVal, r: Elems, k: Name)
    requires Sorted(l + [e] + r) && ValidName(k)
    ensures Compare(k, e.name) < 0 ==> Drop(l + [e] + r, k) == Drop(l, k) + [e] + r
    ensures Compare(k, e.name) == 0 ==> Drop(l + [e] + r, k) == l + r
    ensures Compare(k, e.name) > 0 ==> Drop(l + [e] + r, k) == l + [e] + Drop(r, k)
  {
    hide Compare, Sorted, Drop;
    BelowAbove(l, e, r, k);
    DropMiddle(l, e, r, k);
    if Compare(k, e.name) <= 0 {
      OtherSide(r, k);
      DropAbsent(r, k);
    }
    if Compare(k, e.name) >= 0 {
      OtherSide(l, k);
      DropAbsent(l, k);
    }
  }

  lemma OtherSide(s: Elems, k: Name)
    requires ValidName(k) && (Above(s, k) || Below(s, k))
    ensures forall i :: 0 <= i < |s| ==> s[i].name != k
  {
    CompareTotalOrder(k, k, k);
  }

  lemma PutNone(rr: RR)
    ensures Put([], rr) == [NewElem(rr)]
  {}

  lemma PutHead(e: ElemVal, s: Elems, rr: RR)
    ensures Put([e] + s, rr) ==
            if Compare(rr.owner, e.name) == 0 then [AddRecord(e, rr)] + s
            else if Compare(rr.owner, e.name) < 0 then [NewElem(rr), e] + s
            else [e] + Put(s, rr)
  {
    hide Compare, NewElem, AddRecord;
    assert ([e] + s)[1..] == s;
    assert [NewElem(rr)] + ([e] + s) == [NewElem(rr), e] + s;
  }

  lemma {:induction false} PutLeft(l: Elems, s: Elems, rr: RR)
    requires s != [] && Compare(rr.owner, s[0].name) < 0
    ensures Put(l + s, rr) == Put(l, rr) + s
  {
    hide *;
    if l == [] {
      PutNone(rr);
      PutHead(s[0], s[1..], rr);
      assert l + s == s && s == [s[0]] + s[1..];
      assert [NewElem(rr), s[0]] + s[1..] == [NewElem(rr)] + s;
    } else {
      var e, l1 := l[0], l[1..];
      PutLeft(l1, s, rr);
      PutHead(e, l1, rr);
      PutHead(e, l1 + s, rr);
      assert l + s == [e] + (l1 + s) && l == [e] + l1;
      if Compare(rr.owner, e.name) == 0 {
        Regroup([AddRecord(e, rr)], l1, s);
      } else if Compare(rr.owner, e.name) < 0 {
        Regroup([NewElem(rr), e], l1, s);
      } else {
        Regroup([e], Put(l1, rr), s);
      }
    }
  }

  lemma Regroup(a: Elems, b: Elems, c: Elems)
    ensures a + (b + c) == a + b + c
  {}

  lemma {:induction false} PutSkip(l: Elems, s: Elems, rr: RR)
    requires forall i :: 0 <= i < |l| ==> Compare(rr.owner, l[i].name) > 0
    ensures Put(l + s, rr) == l + Put(s, rr)
  {
    hide Compare;
    if l == [] {
      assert l + s == s;
    } else {
      assert (l + s)[1..] == l[1..] + s;
      PutSkip(l[1..], s, rr);
    }
  }

  lemma PutSplit(l: Elems, e: ElemVal, r: Elems, rr: RR)
    requires Sorted(l + [e] + r) && ValidName(rr.owner)
    ensures Compare(rr.owner, e.name) < 0 ==> Put(l + [e] + r, rr) == Put(l, rr) + [e] + r
    ensures Compare(rr.owner, e.name) == 0 ==> Put(l + [e] + r, rr) == l + [AddRecord(e, rr)] + r
    ensures Compare(rr.owner, e.name) > 0 ==> Put(l + [e] + r, rr) == l + [e] + Put(r, rr)
  {
    hide Compare, Sorted, NewElem, AddRecord;
    BelowAbove(l, e, r, rr.owner);
    if Compare(rr.owner, e.name) < 0 {
      PutLeft(l, [e] + r, rr);
      assert l + [e] + r == l + ([e] + r);
    } else {
      FlipBelow(l, e, r, rr.owner);
      PutSkip(l, [e] + r, rr);
      assert l + [e] + r == l + ([e] + r);
      assert ([e] + r)[1..] == r;
    }
  }

  lemma FlipBelow(l: Elems, e: ElemVal, r: Elems, q: Name)
    requires Sorted(l + [e] + r) && ValidName(q) && Below(l, q)
    ensures forall i :: 0 <= i < |l| ==> Compare(q, l[i].name) > 0
  {
    hide Compare;
    SortedParts(l, e, r);
    forall i | 0 <= i < |l|
      ensures Compare(q, l[i].name) > 0
    {
      CompareTotalOrder(l[i].name, q, q);
    }
  }

  /** The linear scan. */
  function Find(s: Elems, q: Name): (r: Option<ElemVal>)
    ensures r.Some? ==> r.value in s && r.value.name == q
    ensures r.None? ==> forall i :: 0 <= i < |s| ==> s[i].name != q
  {
    if s == [] then None
    else if s[0].name == q then Some(s[0])
    else
      var r := Find(s[1..], q);
      assert s == [s[0]] + s[1..];
      r
  }

  /** The element a record ends up in. */
  function Grow(o: Option<ElemVal>, rr: RR): (e: ElemVal)
    ensures (o.Some? ==> o.value.name == rr.owner) ==> e.name == rr.owner
  {
    if o.None? then NewElem(rr) else AddRecord(o.value, rr)
  }

  lemma {:induction false} PutAbove(s: Elems, rr: RR, q: Name)
    requires Above(s, q) && Compare(q, rr.owner) < 0
    ensures Above(Put(s, rr), q)
  {
    hide Compare;
    if s != [] {
      assert Above(s[1..], q);
      PutAbove(s[1..], rr, q);
    }
  }

  lemma SortedCons(e: ElemVal, s: Elems)
    ensures Sorted([e] + s) <==> ValidName(e.name) && Sorted(s) && Above(s, e.name)
  {
    SortedParts([], e, s);
    assert [] + [e] + s == [e] + s;
  }

  /** Inserting keeps a listing sorted. */
  lemma {:induction false} PutSorted(s: Elems, rr: RR)
    requires Sorted(s) && ValidName(rr.owner)
    ensures Sorted(Put(s, rr))
  {
    assert Sorted([]);
    hide Compare, Sorted, NewElem, AddRecord;
    if s == [] {
      SortedCons(NewElem(rr), []);
    } else {
      assert s == [s[0]] + s[1..];
      SortedCons(s[0], s[1..]);
      CompareTotalOrder(rr.owner, s[0].name, rr.owner);
      var c := Compare(rr.owner, s[0].name);
      if c == 0 {
        SortedCons(AddRecord(s[0], rr), s[1..]);
      } else if c < 0 {
        BelowAbove([], s[0], s[1..], rr.owner);
        SortedCons(NewElem(rr), s);
      } else {
        PutSorted(s[1..], rr);
        PutAbove(s[1..], rr, s[0].name);
        SortedCons(s[0], Put(s[1..], rr));
      }
    }
  }

  lemma FindAbove(s: Elems, q: Name)
    requires ValidName(q) && Above(s, q)
    ensures Find(s, q).None?
  {
    OtherSide(s, q);
  }

  lemma FindCons(e: ElemVal, s: Elems, q: Name)
    ensures Find([e] + s, q) == if e.name == q then Some(e) else Find(s, q)
  {}

  /** Inserting changes what is found under exactly one name, the record's owner. */
  lemma {:induction false} PutFind(s: Elems, rr: RR, q: Name)
    requires Sorted(s) && ValidName(rr.owner)
    ensures Find(Put(s, rr), q) == if q == rr.owner then Some(Grow(Find(s, q), rr)) else Find(s, q)
    ensures |Put(s, rr)| == |s| + if Find(s, rr.owner).None? then 1 else 0
  {
    hide Compare, Sorted, Above, NewElem, AddRecord;
    if s == [] {
      FindCons(NewElem(rr), [], q);
    } else {
      var c := Compare(rr.owner, s[0].name);
      assert s == [s[0]] + s[1..] == [] + [s[0]] + s[1..];
      SortedCons(s[0], s[1..]);
      CompareTotalOrder(rr.owner, s[0].name, rr.owner);
      FindCons(s[0], s[1..], q);
      if c == 0 {
        FindCons(AddRecord(s[0], rr), s[1..], q);
      } else if c < 0 {
        BelowAbove([], s[0], s[1..], rr.owner);
        FindAbove(s[1..], rr.owner);
        FindCons(NewElem(rr), s, q);
      } else {
        PutFind(s[1..], rr, q);
        FindCons(s[0], Put(s[1..], rr), q);
      }
    }
  }

  /** Deleting keeps a listing sorted ... */
  lemma {:induction false} DropSorted(s: Elems, k: Name)
    requires Sorted(s)
    ensures Sorted(Drop(s, k))
    ensures forall q :: Above(s, q) ==> Above(Drop(s, k), q)
  {
    hide Compare, Sorted;
    if s != [] {
      assert s == [s[0]] + s[1..];
      SortedCons(s[0], s[1..]);
      DropSorted(s[1..], k);
      SortedCons(s[0], Drop(s[1..], k));
      assert [] + Drop(s[1..], k) == Drop(s[1..], k);
      forall q | Above(s, q)
        ensures Above(Drop(s, k), q)
      {
        assert Above(s[1..], q);
      }
    }
  }

  /** ... and removes the name, if it was there, and nothing else. */
  lemma {:induction false} DropFind(s: Elems, k: Name, q: Name)
    requires Sorted(s) && ValidName(k)
    ensures Find(Drop(s, k), q) == if q == k then None else Find(s, q)
    ensures |Drop(s, k)| == |s| - if Find(s, k).None? then 0 else 1
  {
    hide Compare, Sorted, Above;
    if s != [] {
      assert s == [s[0]] + s[1..];
      SortedCons(s[0], s[1..]);
      var d := Drop(s[1..], k);
      DropFind(s[1..], k, q);
      FindCons(s[0], s[1..], q);
      FindCons(s[0], s[1..], k);
      if s[0].name == k {
        FindAbove(s[1..], k);
        assert Drop(s, k) == d;
      } else {
        FindCons(s[0], d, q);
        assert Drop(s, k) == [s[0]] + d;
      }
    }
  }
}
