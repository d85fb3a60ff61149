/** Tree of plugin/file/tree/tree.go: the root, the count and the public operations,
    specified by what they do to the sorted listing of the elements. */
module OwnerTree {
  import opened Wrappers
  import opened Names
  import opened Records
  import opened Llrb
  import opened NameTree
  import TreeOps
  import H = HeapTree

  // ----- searching from a node -----

  /** Node.search: the loop down the tree; visited counts the nodes compared. */
  method SearchFrom(n: H.Node?, q: Name, ghost s: H.Shape) returns (r: H.Node?, visited: nat)
    requires H.Repr(n, s)
    ensures r == null <==> TreeOps.Search(H.Erase(s), q).None?
    ensures r != null ==> r.elem.Val() == TreeOps.Search(H.Erase(s), q).value
    ensures visited <= Height(H.Erase(s))
  {
    hide Compare;
    r, visited := n, 0;
    ghost var t := s;
    while r != null
      invariant H.Repr(r, t)
      invariant TreeOps.Search(H.Erase(s), q) == TreeOps.Search(H.Erase(t), q)
      invariant visited + Height(H.Erase(t)) <= Height(H.Erase(s))
      decreases t
    {
      visited := visited + 1;
      var c := Compare(q, r.elem.name);
      if c == 0 {
        return;
      } else if c < 0 {
        r := r.left;
        t := t.left;
      } else {
        r := r.right;
        t := t.right;
      }
    }
  }

  /** Node.floor */
  method FloorFrom(n: H.Node?, q: Name, ghost s: H.Shape) returns (r: H.Node?)
    requires H.Repr(n, s)
    ensures r == null <==> TreeOps.Floor(H.Erase(s), q).None?
    ensures r != null ==> r.elem.Val() == TreeOps.Floor(H.Erase(s), q).value
    decreases s
  {
    hide Compare;
    if n == null {
      return null;
    }
    var c := Compare(q, n.elem.name);
    if c == 0 {
      return n;
    } else if c < 0 {
      r := FloorFrom(n.left, q, s.left);
    } else {
      r := FloorFrom(n.right, q, s.right);
      if r == null {
        r := n;
      }
    }
  }

  /** Node.ceil */
  method CeilFrom(n: H.Node?, q: Name, ghost s: H.Shape) returns (r: H.Node?)
    requires H.Repr(n, s)
    ensures r == null <==> TreeOps.Ceil(H.Erase(s), q).None?
    ensures r != null ==> r.elem.Val() == TreeOps.Ceil(H.Erase(s), q).value
    decreases s
  {
    hide Compare;
    if n == null {
      return null;
    }
    var c := Compare(q, n.elem.name);
    if c == 0 {
      return n;
    } else if c > 0 {
      r := CeilFrom(n.right, q, s.right);
    } else {
      r := CeilFrom(n.left, q, s.left);
      if r == null {
        r := n;
      }
    }
  }

  /** Elements with these values, one by one. */
  ghost predicate Holding(es: seq<H.Elem>, vs: Elems)
    reads es
  {
    |es| == |vs| && forall i :: 0 <= i < |es| ==> es[i].Val() == vs[i]
  }

  /** Node.all: left subtree, element, right subtree, onto what was found before. */
  function AllFrom(n: H.Node, found: seq<H.Elem>, ghost s: H.Shape): (out: seq<H.Elem>)
    requires H.Repr(n, s)
    reads H.Footprint(s)
    decreases s
  {
    var found1 := if n.left != null then AllFrom(n.left, found, s.left) else found;
    var found2 := found1 + [n.elem];
    if n.right != null then AllFrom(n.right, found2, s.right) else found2
  }

  ghost function Refs(cs: seq<H.Cell>): (es: seq<H.Elem>) {
    seq(|cs|, i requires 0 <= i < |cs| => cs[i].elem)
  }

  lemma RefsConcat(l: seq<H.Cell>, c: H.Cell, r: seq<H.Cell>)
    ensures Refs(l + [c] + r) == Refs(l) + [c.elem] + Refs(r)
  {}

  lemma {:induction false} AllFromIsInOrder(n: H.Node, found: seq<H.Elem>, s: H.Shape)
    requires H.Repr(n, s)
    ensures AllFrom(n, found, s) == found + Refs(InOrder(s))
    decreases s
  {
    hide Refs;
    RefsConcat(InOrder(s.left), s.elem, InOrder(s.right));
    assert Refs([]) == [] by { RefsNone(); }
    var found1 := found + Refs(InOrder(s.left));
    if n.left != null {
      AllFromIsInOrder(n.left, found, s.left);
    } else {
      assert found1 == found;
    }
    var found2 := found1 + [n.elem];
    if n.right != null {
      AllFromIsInOrder(n.right, found2, s.right);
    }
    assert found2 + Refs(InOrder(s.right)) == found + Refs(InOrder(s));
  }

  lemma RefsNone()
    ensures Refs([]) == []
  {}

  lemma {:induction false} RefsHold(n: H.Node?, s: H.Shape)
    requires H.Repr(n, s)
    ensures Holding(Refs(InOrder(s)), InOrder(H.Erase(s)))
    decreases s
  {
    if n != null {
      RefsHold(n.left, s.left);
      RefsHold(n.right, s.right);
      RefsConcat(InOrder(s.left), s.elem, InOrder(s.right));
    }
  }

  // ----- the tree -----

  class Tree {
    var root: H.Node?
    var count: int
    ghost var shape: H.Shape

    ghost predicate Valid()
      reads this, H.Footprint(shape)
    {
      && H.Repr(root, shape) && H.Distinct(InOrder(shape))
      && TreeOps.Valid(H.Erase(shape))
      && count == |InOrder(H.Erase(shape))|
    }

    /** The elements in tree order. */
    ghost function Listing(): (s: Elems)
      reads this
    {
      InOrder(H.Erase(shape))
    }

    constructor ()
      ensures Valid() && Listing() == [] && fresh(H.Footprint(shape))
    {
      root, count, shape := null, 0, Nil;
    }

    /** The invariant, read off the listing: strictly increasing names, each element
        with records of its own name, and logarithmic height. */
    lemma Invariant()
      requires Valid()
      ensures Sorted(Listing()) && ElemsValid(Listing()) && count == |Listing()|
      ensures Pow2(Height(H.Erase(shape))) <= (count + 1) * (count + 1)
    {
      hide Sorted, ElemsValid, Balanced, InOrder, H.Erase, Pow2, Height, H.Repr, H.Distinct;
      HeightLogarithmic(H.Erase(shape));
    }

    /** The tree object is not one of its nodes or elements. */
    lemma Outside(s: H.Shape)
      ensures this !in H.Footprint(s)
    {}

    /** Tree.Insert */
    method Insert(rr: RR)
      requires Valid() && ValidName(rr.owner)
      modifies this, H.Footprint(shape)
      ensures Valid() && Listing() == Put(old(Listing()), rr)
      ensures fresh(H.Footprint(shape) - old(H.Footprint(shape)))
    {
      hide InOrder, Sorted, Balanced, H.Distinct, H.NodesOf, H.ObjectsOf, TreeOps.Valid, Put, TreeOps.Insert;
      TreeOps.InsertValid(H.Erase(shape), rr);
      Outside(shape);
      var n, d;
      ghost var s';
      n, d, s' := H.Insert(root, rr, shape);
      H.Ready(n, s');
      Paint(n, s');
      Outside(s');
      root := n;
      shape := s'.(color := Black);
      count := count + d;
    }

    /** Painting the root black touches nothing else. */
    static method Paint(n: H.Node, ghost s: H.Shape)
      requires s.Node? && H.Repr(n, s) && H.Distinct(InOrder(s))
      modifies n`color
      ensures H.Repr(n, s.(color := Black)) && H.Distinct(InOrder(s.(color := Black)))
      ensures H.Footprint(s.(color := Black)) == H.Footprint(s)
      ensures H.Erase(s.(color := Black)) == Llrb.Paint(H.Erase(s))
    {
      assert InOrder(s.(color := Black)) == InOrder(s);
      hide InOrder, H.Distinct, H.NodesOf, H.ObjectsOf;
      H.Ready(n, s);
      n.color := Black;
    }

    /** Tree.deleteNode: nothing to do on an empty tree. */
    method DeleteNode(k: Name)
      requires Valid() && ValidName(k)
      modifies this, H.Footprint(shape)
      ensures Valid() && Listing() == Drop(old(Listing()), k)
      ensures H.Footprint(shape) <= old(H.Footprint(shape))
    {
      if root == null {
        return;
      }
      hide InOrder, H.Distinct, H.NodesOf, H.ObjectsOf, TreeOps.Valid, Drop, TreeOps.Delete, TreeOps.CanDelete;
      TreeOps.DeleteValid(H.Erase(shape), k);
      Outside(shape);
      H.Ready(root, shape);
      var n, d;
      ghost var s';
      n, d, s' := H.Delete(root, k, shape);
      Finish(n, d, s');
    }

    /** The last steps of the three deletions. */
    method Finish(n: H.Node?, d: int, ghost s': H.Shape)
      requires H.Repr(n, s') && H.Distinct(InOrder(s')) && H.Footprint(s') <= H.Footprint(shape)
      requires TreeOps.Valid(Llrb.Paint(H.Erase(s')))
      requires count + d == |InOrder(Llrb.Paint(H.Erase(s')))|
      modifies this, H.Footprint(shape)
      ensures Valid() && Listing() == InOrder(Llrb.Paint(H.Erase(s')))
      ensures H.Footprint(shape) == H.Footprint(s')
    {
      hide InOrder, H.Distinct, H.NodesOf, H.ObjectsOf, TreeOps.Valid;
      Outside(s');
      H.InMemory(s');
      if n != null {
        H.Ready(n, s');
        Paint(n, s');
      }
      root := n;
      shape := if n == null then s' else s'.(color := Black);
      count := count + d;
    }

    lemma DeleteMinShape()
      requires Valid() && shape.Node?
      ensures Balanced(shape, BlackHeight(shape))
      ensures var s' := Llrb.DeleteMin(shape).0;
        && H.Distinct(InOrder(s')) && H.Footprint(s') <= H.Footprint(shape)
        && TreeOps.Valid(Llrb.Paint(H.Erase(s')))
        && InOrder(Llrb.Paint(H.Erase(s'))) == Listing()[1..]
        && Llrb.DeleteMin(shape).1 == -1 && Listing() != []
    {
      hide TreeOps.Valid, InOrder, H.Distinct, H.Repr, H.NodesOf, H.ObjectsOf, Llrb.DeleteMin, H.Erase;
      TreeOps.ValidRoot(H.Erase(shape));
      H.EraseBalanced(shape, BlackHeight(shape));
      H.EraseDeleteMin(shape);
      TreeOps.DeleteEndsValid(H.Erase(shape));
      H.EraseListing(shape);
      H.Shrunk(shape, Llrb.DeleteMin(shape).0, 1, |InOrder(shape)|);
    }

    method DeleteMin()
      requires Valid()
      modifies this, H.Footprint(shape)
      ensures Valid()
      ensures Listing() == if old(Listing()) == [] then [] else old(Listing())[1..]
      ensures H.Footprint(shape) <= old(H.Footprint(shape))
    {
      if root == null {
        return;
      }
      hide InOrder, H.Distinct, H.NodesOf, H.ObjectsOf, TreeOps.Valid, Llrb.DeleteMin;
      DeleteMinShape();
      Outside(shape);
      H.Ready(root, shape);
      ghost var s' := Llrb.DeleteMin(shape).0;
      var n, d := H.DeleteMin(root, shape);
      Finish(n, d, s');
    }

    lemma DeleteMaxShape()
      requires Valid() && shape.Node?
      ensures Balanced(shape, BlackHeight(shape))
      ensures var s' := Llrb.DeleteMax(shape).0;
        && H.Distinct(InOrder(s')) && H.Footprint(s') <= H.Footprint(shape)
        && TreeOps.Valid(Llrb.Paint(H.Erase(s')))
        && InOrder(Llrb.Paint(H.Erase(s'))) == Listing()[..|Listing()| - 1]
        && Llrb.DeleteMax(shape).1 == -1 && Listing() != []
    {
      hide TreeOps.Valid, InOrder, H.Distinct, H.Repr, H.NodesOf, H.ObjectsOf, Llrb.DeleteMax, H.Erase;
      TreeOps.ValidRoot(H.Erase(shape));
      H.EraseBalanced(shape, BlackHeight(shape));
      H.EraseDeleteMax(shape);
      TreeOps.DeleteEndsValid(H.Erase(shape));
      H.EraseListing(shape);
      H.Shrunk(shape, Llrb.DeleteMax(shape).0, 0, |InOrder(shape)| - 1);
    }

    method DeleteMax()
      requires Valid()
      modifies this, H.Footprint(shape)
      ensures Valid()
      ensures Listing() == if old(Listing()) == [] then [] else old(Listing())[..|old(Listing())| - 1]
      ensures H.Footprint(shape) <= old(H.Footprint(shape))
    {
      if root == null {
        return;
      }
      hide InOrder, Balanced, H.Distinct, H.NodesOf, H.ObjectsOf, TreeOps.Valid, Llrb.DeleteMax;
      DeleteMaxShape();
      Outside(shape);
      H.Ready(root, shape);
      ghost var s' := Llrb.DeleteMax(shape).0;
      var n, d := H.DeleteMax(root, shape);
      Finish(n, d, s');
    }

    lemma NothingFound(q: Name)
      requires Valid() && root == null
      ensures Listing() == [] && Find(Listing(), q).None?
    {
      hide Sorted, ElemsValid, Balanced, H.Distinct;
    }

    lemma SortedTree()
      requires Valid()
      ensures H.Repr(root, shape) && Sorted(InOrder(H.Erase(shape)))
    {}

    /** Tree.Search: the linear scan of the listing, in logarithmically many steps. */
    method Search(q: Name) returns (e: H.Elem?, found: bool, visited: nat)
      requires Valid() && NameOrEmpty(q)
      ensures Valid()
      ensures found == (e != null) == Find(Listing(), q).Some?
      ensures found ==> e.Val() == Find(Listing(), q).value
      ensures visited <= Height(H.Erase(shape))
    {
      hide Sorted, ElemsValid, Find, H.Repr, TreeOps.Search, InOrder, H.Distinct, Height, Balanced;
      H.InMemory(shape);
      if root == null {
        NothingFound(q);
        return null, false, 0;
      }
      SortedTree();
      var n;
      n, visited := SearchFrom(root, q, shape);
      TreeOps.SearchIsFind(H.Erase(shape), q);
      if n == null {
        return null, false, visited;
      }
      return n.elem, true, visited;
    }

    /** Tree.Prev: the greatest owner at or before q. */
    method Prev(q: Name) returns (e: H.Elem?, found: bool)
      requires Valid() && NameOrEmpty(q)
      ensures Valid()
      ensures found == (e != null)
      ensures TreeOps.IsPrev(Listing(), q, if found then Some(e.Val()) else None)
    {
      H.InMemory(shape);
      hide Sorted, ElemsValid, TreeOps.IsPrev, H.Repr, TreeOps.Floor;
      var n := FloorFrom(root, q, shape);
      TreeOps.FloorIsPrev(H.Erase(shape), q);
      if n == null {
        return null, false;
      }
      return n.elem, true;
    }

    /** Tree.Next: the smallest owner at or after q. */
    method Next(q: Name) returns (e: H.Elem?, found: bool)
      requires Valid() && NameOrEmpty(q)
      ensures Valid()
      ensures found == (e != null)
      ensures TreeOps.IsNext(Listing(), q, if found then Some(e.Val()) else None)
    {
      H.InMemory(shape);
      hide Sorted, ElemsValid, TreeOps.IsNext, H.Repr, TreeOps.Ceil;
      var n := CeilFrom(root, q, shape);
      TreeOps.CeilIsNext(H.Erase(shape), q);
      if n == null {
        return null, false;
      }
      return n.elem, true;
    }

    /** Tree.All */
    method All() returns (es: seq<H.Elem>)
      requires Valid()
      ensures Valid()
      ensures Holding(es, Listing())
    {
      H.InMemory(shape);
      if root == null {
        return [];
      }
      es := AllFrom(root, [], shape);
      AllFromIsInOrder(root, [], shape);
      RefsHold(root, shape);
      assert es == Refs(InOrder(shape));
    }
  }
}
