/** Whole runs of the tree of plugin/file/tree: every sequence of Insert, deleteNode,
    DeleteMin and DeleteMax from the empty tree. */
module TreeRuns {
  import opened Wrappers
  import opened Names
  import opened Records
  import opened Llrb
  import opened NameTree
  import TreeOps
  import HeapTree
  import OwnerTree

  datatype Op = InsertRecord(rr: RR) | DeleteName(k: Name) | DeleteLeast | DeleteGreatest

  predicate ValidOp(op: Op) {
    match op
    case InsertRecord(rr) => ValidName(rr.owner)
    case DeleteName(k) => ValidName(k)
    case _ => true
  }

  predicate ValidOps(ops: seq<Op>) {
    forall i :: 0 <= i < |ops| ==> ValidOp(ops[i])
  }

  /** What an operation does to the sorted listing. */
  function Apply(s: Elems, op: Op): (r: Elems) {
    match op
    case InsertRecord(rr) => Put(s, rr)
    case DeleteName(k) => Drop(s, k)
    case DeleteLeast => if s == [] then [] else s[1..]
    case DeleteGreatest => if s == [] then [] else s[..|s| - 1]
  }

  function ListingAfter(ops: seq<Op>): (s: Elems) {
    if ops == [] then [] else Apply(ListingAfter(ops[..|ops| - 1]), ops[|ops| - 1])
  }

  datatype State = State(root: TreeOps.NTree, count: int)

  predicate Good(st: State) {
    TreeOps.Valid(st.root) && st.count == |InOrder(st.root)|
  }

  /** One operation on root and count. */
  function Step(st: State, op: Op): (st': State)
    requires Good(st) && ValidOp(op)
  {
    match op
    case InsertRecord(rr) => Changed(st, TreeOps.Insert(st.root, rr))
    case DeleteName(k) => if st.root.Nil? then st else Changed(st, TreeOps.Delete(st.root, k))
    case DeleteLeast => if st.root.Nil? then st else Changed(st, DeleteMin(st.root))
    case DeleteGreatest => if st.root.Nil? then st else Changed(st, DeleteMax(st.root))
  }

  /** The new root is painted black and the count adjusted. */
  function Changed(st: State, r: (TreeOps.NTree, int)): State {
    State(Paint(r.0), st.count + r.1)
  }

  lemma StepRefinesApply(st: State, op: Op)
    requires Good(st) && ValidOp(op)
    ensures Good(Step(st, op)) && InOrder(Step(st, op).root) == Apply(InOrder(st.root), op)
  {
    TreeOps.ValidRoot(st.root);
    hide TreeOps.Valid, InOrder, Put, Drop, TreeOps.Insert, TreeOps.Delete, DeleteMin, DeleteMax, Balanced;
    if op.InsertRecord? {
      TreeOps.InsertValid(st.root, op.rr);
    } else if st.root.Nil? {
      EmptyListing(st.root, if op.DeleteName? then op.k else []);
    } else if op.DeleteName? {
      TreeOps.DeleteValid(st.root, op.k);
    } else {
      TreeOps.DeleteEndsValid(st.root);
    }
  }

  lemma EmptyListing(t: TreeOps.NTree, k: Name)
    requires t.Nil?
    ensures InOrder(t) == [] && Drop([], k) == []
  {}

  function Run(ops: seq<Op>): (st: State)
    requires ValidOps(ops)
    ensures Good(st) && InOrder(st.root) == ListingAfter(ops)
  {
    if ops == [] then State(Nil, 0)
    else
      StepRefinesApply(Run(ops[..|ops| - 1]), ops[|ops| - 1]);
      Step(Run(ops[..|ops| - 1]), ops[|ops| - 1])
  }

  /** After every run: a sorted listing, an exact count, a balanced tree of
      logarithmic height, and searches that agree with scanning the listing. */
  lemma RunInvariant(ops: seq<Op>, q: Name)
    requires ValidOps(ops) && NameOrEmpty(q)
    ensures var st := Run(ops);
      && Sorted(InOrder(st.root)) && st.count == |InOrder(st.root)|
      && !IsRed(st.root) && Balanced(st.root, BlackHeight(st.root))
      && Pow2(Height(st.root)) <= (st.count + 1) * (st.count + 1)
      && TreeOps.Search(st.root, q) == Find(ListingAfter(ops), q)
  {
    hide *;
    var st := Run(ops);
    GoodTree(st);
    HeightLogarithmic(st.root);
    TreeOps.SearchIsFind(st.root, q);
  }

  lemma GoodTree(st: State)
    requires Good(st)
    ensures Sorted(InOrder(st.root)) && st.count == |InOrder(st.root)|
    ensures !IsRed(st.root) && Balanced(st.root, BlackHeight(st.root))
  {
    hide Sorted, ElemsValid, InOrder, Balanced;
  }

  /** An operation changes what is found under one name only. */
  ghost predicate TouchesOneName(s: Elems, op: Op, s': Elems, q: Name) {
    match op
    case InsertRecord(rr) => Find(s', q) == if q == rr.owner then Some(Grow(Find(s, q), rr)) else Find(s, q)
    case DeleteName(k) => Find(s', q) == if q == k then None else Find(s, q)
    case DeleteLeast => Find(s', q) == if s != [] && q == s[0].name then None else Find(s, q)
    case DeleteGreatest => Find(s', q) == if s != [] && q == s[|s| - 1].name then None else Find(s, q)
  }

  lemma ApplyTouchesOneName(s: Elems, op: Op, q: Name)
    requires Sorted(s) && ValidOp(op)
    ensures TouchesOneName(s, op, Apply(s, op), q)
  {
    hide Compare, Sorted, Put, Drop, Find, Grow;
    match op
    case InsertRecord(rr) => PutFind(s, rr, q);
    case DeleteName(k) => DropFind(s, k, q);
    case DeleteLeast =>
      if s != [] { FindFirst(s, q); }
    case DeleteGreatest =>
      if s != [] { FindLast(s, q); }
  }

  lemma ListingOne(ops: seq<Op>, op: Op)
    ensures ListingAfter(ops + [op]) == Apply(ListingAfter(ops), op)
  {
    hide Apply;
    assert (ops + [op])[..|ops|] == ops;
  }

  lemma OpsOne(ops: seq<Op>, op: Op)
    requires ValidOps(ops + [op])
    ensures ValidOps(ops) && ValidOp(op)
  {
    hide ValidOp;
    assert (ops + [op])[|ops|] == op;
    assert forall i :: 0 <= i < |ops| ==> (ops + [op])[i] == ops[i];
  }

  /** After every run, each operation changes what is found under one name only. */
  lemma StepTouchesOneName(ops: seq<Op>, op: Op, q: Name)
    requires ValidOps(ops + [op])
    ensures TouchesOneName(ListingAfter(ops), op, ListingAfter(ops + [op]), q)
  {
    hide *;
    OpsOne(ops, op);
    ListingOne(ops, op);
    var st := Run(ops);
    GoodTree(st);
    ApplyTouchesOneName(ListingAfter(ops), op, q);
  }

  lemma FindFirst(s: Elems, q: Name)
    requires s != [] && Sorted(s)
    ensures Find(s[1..], q) == if q == s[0].name then None else Find(s, q)
  {
    hide Compare, Sorted, Above, Find;
    assert s == [s[0]] + s[1..];
    SortedCons(s[0], s[1..]);
    FindCons(s[0], s[1..], q);
    FindAbove(s[1..], s[0].name);
  }

  lemma FindLast(s: Elems, q: Name)
    requires s != [] && Sorted(s)
    ensures Find(s[..|s| - 1], q) == if q == s[|s| - 1].name then None else Find(s, q)
  {
    hide Compare, Sorted, Below, Find;
    var l, e := s[..|s| - 1], s[|s| - 1];
    assert s == l + [e] + [];
    SortedParts(l, e, []);
    TreeOps.FindMiddle(l, e, [], q);
    FindNone(q);
    TreeOps.NotFound(l, e.name);
  }

  lemma FindNone(q: Name)
    ensures Find([], q) == None
  {}

  method ApplyInMemory(t: OwnerTree.Tree, op: Op)
    requires t.Valid() && ValidOp(op)
    modifies t, HeapTree.Footprint(t.shape)
    ensures t.Valid() && t.Listing() == Apply(old(t.Listing()), op)
    ensures fresh(HeapTree.Footprint(t.shape) - old(HeapTree.Footprint(t.shape)))
  {
    hide TreeOps.Valid, Put, Drop, InOrder, HeapTree.Erase, HeapTree.Repr, HeapTree.Distinct, HeapTree.ObjectsOf;
    match op {
      case InsertRecord(rr) => t.Insert(rr);
      case DeleteName(k) => t.DeleteNode(k);
      case DeleteLeast => t.DeleteMin();
      case DeleteGreatest => t.DeleteMax();
    }
  }

  /** The same runs on the tree in memory. */
  method RunInMemory(ops: seq<Op>) returns (t: OwnerTree.Tree)
    requires ValidOps(ops)
    ensures fresh(t) && t.Valid() && t.Listing() == ListingAfter(ops)
  {
    t := new OwnerTree.Tree();
    hide Apply, OwnerTree.Tree.Valid, OwnerTree.Tree.Listing, HeapTree.ObjectsOf;
    var i := 0;
    while i < |ops|
      invariant 0 <= i <= |ops|
      invariant fresh(t) && t.Valid() && fresh(HeapTree.Footprint(t.shape))
      invariant t.Listing() == ListingAfter(ops[..i])
    {
      assert ops[..i + 1][..i] == ops[..i];
      ghost var before := HeapTree.Footprint(t.shape);
      label call:
      ApplyInMemory(t, ops[i]);
      forall o | o in HeapTree.Footprint(t.shape)
        ensures fresh(o)
      {
        if o !in before {
          assert o in HeapTree.Footprint(t.shape) - before;
          assert !old@call(allocated(o));
        }
      }
      i := i + 1;
    }
    assert ops[..i] == ops;
  }
}
