/** The tree of plugin/file/tree as it is in memory: nodes and elements are
    objects, and every operation rewrites links and colours in place.  The ghost
    shape of a tree records which node and which element sits where. */
module HeapTree {
  import opened Names
  import opened Records
  import opened Llrb
  import opened NameTree
  import TreeOps

  /** elem.go: the records of one owner name.  The owner's name, which the program
      reads off a record on first use, is kept from the start. */
  class Elem {
    var name: Name
    var m: map<RRType, seq<RR>>

    function Val(): (v: ElemVal)
      reads this
    {
      ElemVal(name, m)
    }

    constructor (rr: RR)
      ensures Val() == NewElem(rr)
    {
      name := rr.owner;
      m := map[rr.Type() := [rr]];
    }

    /** Elem.Insert: append the record unless one with equal data is there. */
    method Insert(rr: RR)
      modifies this`m
      ensures Val() == AddRecord(old(Val()), rr)
    {
      var t := rr.Type();
      if t !in m {
        assert [] + [rr] == [rr];
        m := m[t := [rr]];
        return;
      }
      var rrs := m[t];
      var i := 0;
      while i < |rrs|
        invariant 0 <= i <= |rrs|
        invariant forall j :: 0 <= j < i ==> !EqualRdata(rrs[j], rr)
      {
        if EqualRdata(rrs[i], rr) {
          assert m[t := m[t]] == m;
          return;
        }
        i := i + 1;
      }
      m := m[t := rrs + [rr]];
    }
  }

  class Node {
    var elem: Elem
    var left: Node?
    var right: Node?
    var color: Color

    constructor (rr: RR)
      ensures left == null && right == null && color == Red
      ensures fresh(elem) && elem.Val() == NewElem(rr)
    {
      elem := new Elem(rr);
      left, right, color := null, null, Red;
    }
  }

  // ----- shapes -----

  datatype Cell = Cell(node: Node, elem: Elem, val: ElemVal)
  type Shape = RBTree<Cell>

  /** The nodes of a listing. */
  ghost function NodesOf(cs: seq<Cell>): set<object> { set c | c in cs :: c.node as object }

  /** The nodes and the elements of a listing. */
  ghost function ObjectsOf(cs: seq<Cell>): set<object> {
    NodesOf(cs) + set c | c in cs :: c.elem as object
  }

  /** No node and no element occurs twice. */
  ghost predicate Distinct(cs: seq<Cell>) {
    forall i, j :: 0 <= i < j < |cs| ==> cs[i].node != cs[j].node && cs[i].elem != cs[j].elem
  }

  ghost function Nodes(s: Shape): set<object> { NodesOf(InOrder(s)) }

  ghost function Footprint(s: Shape): set<object> { ObjectsOf(InOrder(s)) }

  /** The memory below n looks like s. */
  ghost predicate Repr(n: Node?, s: Shape)
    reads Footprint(s)
    decreases s
  {
    match s
    case Nil => n == null
    case Node(c, l, r, color) =>
      assert c in InOrder(s);
      && n == c.node && n.elem == c.elem && n.color == color && c.elem.Val() == c.val
      && Repr(n.left, l) && Repr(n.right, r)
  }

  ghost function Erase(s: Shape): (t: TreeOps.NTree)
    ensures s.Nil? <==> t.Nil?
    ensures t.Node? ==> t.color == s.color
  {
    match s
    case Nil => Nil
    case Node(c, l, r, color) => Llrb.Node(c.val, Erase(l), Erase(r), color)
  }

  lemma DistinctParts(l: seq<Cell>, c: Cell, r: seq<Cell>)
    requires Distinct(l + [c] + r)
    ensures Distinct(l) && Distinct(r)
    ensures ObjectsOf(l) !! ObjectsOf(r)
    ensures {c.node, c.elem} !! ObjectsOf(l) + ObjectsOf(r)
  {
    var cs := l + [c] + r;
    assert forall i :: 0 <= i < |l| ==> cs[i] == l[i];
    assert forall i :: 0 <= i < |r| ==> cs[|l| + 1 + i] == r[i];
    assert cs[|l|] == c;
  }

  lemma SetsOfParts(l: seq<Cell>, c: Cell, r: seq<Cell>)
    ensures NodesOf(l + [c] + r) == NodesOf(l) + {c.node} + NodesOf(r)
    ensures ObjectsOf(l + [c] + r) == ObjectsOf(l) + {c.node, c.elem} + ObjectsOf(r)
  {}

  /** The footprint of a shape is made of disjoint pieces. */
  lemma Parts(s: Shape)
    requires s.Node? && Distinct(InOrder(s))
    ensures Nodes(s) == Nodes(s.left) + {s.elem.node} + Nodes(s.right)
    ensures Footprint(s) == Footprint(s.left) + {s.elem.node, s.elem.elem} + Footprint(s.right)
    ensures Footprint(s.left) !! Footprint(s.right)
    ensures {s.elem.node, s.elem.elem} !! Footprint(s.left) + Footprint(s.right)
    ensures Nodes(s.left) <= Footprint(s.left) && Nodes(s.right) <= Footprint(s.right)
    ensures Distinct(InOrder(s.left)) && Distinct(InOrder(s.right))
  {
    hide Distinct, NodesOf;
    DistinctParts(InOrder(s.left), s.elem, InOrder(s.right));
    SetsOfParts(InOrder(s.left), s.elem, InOrder(s.right));
    hide ObjectsOf;
  }

  // ----- balancing steps -----

  method RotateLeft(n: Node, ghost s: Shape) returns (root: Node)
    requires s.Node? && s.right.Node? && Repr(n, s) && Distinct(InOrder(s))
    modifies n, n.right
    ensures Repr(root, Llrb.RotateLeft(s))
  {
    hide InOrder, NodesOf, ObjectsOf, Distinct;
    Parts(s);
    Parts(s.right);
    root := n.right;
    n.right := root.left;
    root.left := n;
    root.color := n.color;
    n.color := Red;
  }

  method RotateRight(n: Node, ghost s: Shape) returns (root: Node)
    requires s.Node? && s.left.Node? && Repr(n, s) && Distinct(InOrder(s))
    modifies n, n.left
    ensures Repr(root, Llrb.RotateRight(s))
  {
    hide InOrder, NodesOf, ObjectsOf, Distinct;
    Parts(s);
    Parts(s.left);
    root := n.left;
    n.left := root.right;
    root.right := n;
    root.color := n.color;
    n.color := Red;
  }

  method FlipColors(n: Node, ghost s: Shape)
    requires s.Node? && s.left.Node? && s.right.Node? && Repr(n, s) && Distinct(InOrder(s))
    modifies n, n.left, n.right
    ensures Repr(n, Llrb.FlipColors(s))
  {
    hide InOrder, NodesOf, ObjectsOf, Distinct;
    Parts(s);
    Parts(s.left);
    Parts(s.right);
    n.color := n.color.Flip();
    n.left.color := n.left.color.Flip();
    n.right.color := n.right.color.Flip();
  }

  /** color() == red: a missing node counts as black. */
  predicate RedNode(n: Node?)
    reads n
  {
    n != null && n.color.Red?
  }

  /** The children of a node, and the grandchildren on the left, in the footprint. */
  lemma Unfold(n: Node, s: Shape)
    requires s.Node? && Repr(n, s) && Distinct(InOrder(s))
    ensures n in Nodes(s) && Repr(n.left, s.left) && Repr(n.right, s.right)
    ensures Distinct(InOrder(s.left)) && Distinct(InOrder(s.right))
    ensures Nodes(s.left) <= Nodes(s) && Nodes(s.right) <= Nodes(s)
    ensures RedNode(n.left) <==> IsRed(s.left)
    ensures RedNode(n.right) <==> IsRed(s.right)
    ensures n.left == null <==> s.left.Nil?
    ensures n.right == null <==> s.right.Nil?
    ensures n.left != null ==> n.left in Nodes(s)
    ensures n.right != null ==> n.right in Nodes(s)
  {
    hide Distinct, NodesOf, ObjectsOf;
    Parts(s);
    if s.left.Node? { Parts(s.left); }
    if s.right.Node? { Parts(s.right); }
  }

  method FixUp(n: Node, ghost s: Shape) returns (root: Node)
    requires s.Node? && Repr(n, s) && Distinct(InOrder(s))
    modifies Nodes(s)
    ensures Repr(root, Llrb.FixUp(s))
  {
    hide InOrder, NodesOf, ObjectsOf, Distinct, Repr;
    root := n;
    ghost var t := s;
    Unfold(root, t);
    if RedNode(root.right) {
      root := RotateLeft(root, t);
      t := Llrb.RotateLeft(t);
      Unfold(root, t);
    }
    if RedNode(root.left) {
      Unfold(root.left, t.left);
      if RedNode(root.left.left) {
        root := RotateRight(root, t);
        t := Llrb.RotateRight(t);
        Unfold(root, t);
      }
    }
    if RedNode(root.left) && RedNode(root.right) {
      FlipColors(root, t);
    }
  }

  method InsertFix(n: Node, ghost s: Shape) returns (root: Node)
    requires s.Node? && Repr(n, s) && Distinct(InOrder(s))
    modifies Nodes(s)
    ensures Repr(root, Llrb.InsertFix(s))
  {
    hide InOrder, NodesOf, ObjectsOf, Distinct, Repr;
    root := n;
    ghost var t := s;
    Unfold(root, t);
    if RedNode(root.right) && !RedNode(root.left) {
      root := RotateLeft(root, t);
      t := Llrb.RotateLeft(t);
      Unfold(root, t);
    }
    if RedNode(root.left) {
      Unfold(root.left, t.left);
      if RedNode(root.left.left) {
        root := RotateRight(root, t);
        t := Llrb.RotateRight(t);
        Unfold(root, t);
      }
    }
    if RedNode(root.left) && RedNode(root.right) {
      FlipColors(root, t);
    }
  }

  /** The node itself, without what hangs below it. */
  ghost predicate Head(n: Node, s: Shape)
    requires s.Node?
    reads n, s.elem.elem
  {
    n == s.elem.node && n.elem == s.elem.elem && n.color == s.color && s.elem.elem.Val() == s.elem.val
  }

  method SetRight(n: Node, child: Node?, ghost s: Shape, ghost r: Shape)
    requires s.Node? && Head(n, s) && Repr(n.left, s.left) && Repr(child, r)
    requires {n, n.elem} !! Footprint(s.left) + Footprint(r)
    modifies n`right
    ensures Repr(n, s.(right := r))
  {
    hide InOrder, NodesOf, ObjectsOf;
    n.right := child;
  }

  method SetLeft(n: Node, child: Node?, ghost s: Shape, ghost l: Shape)
    requires s.Node? && Head(n, s) && Repr(n.right, s.right) && Repr(child, l)
    requires {n, n.elem} !! Footprint(s.right) + Footprint(l)
    modifies n`left
    ensures Repr(n, s.(left := l))
  {
    hide InOrder, NodesOf, ObjectsOf;
    n.left := child;
  }

  method MoveRedLeft(n: Node, ghost s: Shape) returns (root: Node)
    requires s.Node? && s.left.Node? && s.right.Node? && Repr(n, s) && Distinct(InOrder(s))
    modifies Nodes(s)
    ensures Repr(root, Llrb.MoveRedLeft(s))
  {
    hide InOrder, NodesOf, ObjectsOf, Distinct, Repr;
    Unfold(n, s);
    root := n;
    FlipColors(root, s);
    ghost var t := Llrb.FlipColors(s);
    Unfold(root, t);
    Unfold(root.right, t.right);
    if RedNode(root.right.left) {
      Parts(t);
      Footing(root, t);
      InMemory(t.left);
      var r := RotateRight(root.right, t.right);
      SetRight(root, r, t, Llrb.RotateRight(t.right));
      t := t.(right := Llrb.RotateRight(t.right));
      SameListingRight(Llrb.FlipColors(s), t.right);
      Unfold(root, t);
      root := RotateLeft(root, t);
      t := Llrb.RotateLeft(t);
      Unfold(root, t);
      FlipColors(root, t);
    }
  }

  /** A shape only mentions objects that exist. */
  lemma InMemory(s: Shape)
    ensures forall o :: o in Footprint(s) ==> allocated(o)
  {
    if s.Node? {
      InMemory(s.left);
      InMemory(s.right);
      SetsOfParts(InOrder(s.left), s.elem, InOrder(s.right));
      assert allocated(s.elem.node);
      assert allocated(s.elem.elem);
      forall o | o in Footprint(s) ensures allocated(o) {
        assert o in Footprint(s.left) || o == s.elem.node || o == s.elem.elem || o in Footprint(s.right);
      }
    }
  }

  lemma Footing(n: Node, s: Shape)
    requires s.Node? && Repr(n, s)
    ensures Head(n, s)
  {}

  lemma {:induction false} SameListingRight(s: Shape, r: Shape)
    requires s.Node? && InOrder(r) == InOrder(s.right)
    ensures InOrder(s.(right := r)) == InOrder(s)
  {}

  method MoveRedRight(n: Node, ghost s: Shape) returns (root: Node)
    requires s.Node? && s.left.Node? && s.right.Node? && Repr(n, s) && Distinct(InOrder(s))
    modifies Nodes(s)
    ensures Repr(root, Llrb.MoveRedRight(s))
  {
    hide InOrder, NodesOf, ObjectsOf, Distinct, Repr;
    Unfold(n, s);
    root := n;
    FlipColors(root, s);
    ghost var t := Llrb.FlipColors(s);
    Unfold(root, t);
    Unfold(root.left, t.left);
    if RedNode(root.left.left) {
      root := RotateRight(root, t);
      t := Llrb.RotateRight(t);
      Unfold(root, t);
      FlipColors(root, t);
    }
  }

  // ----- DeleteMin and DeleteMax -----

  method DeleteMin(n: Node, ghost s: Shape) returns (root: Node?, d: int)
    requires s.Node? && Balanced(s, BlackHeight(s)) && Repr(n, s) && Distinct(InOrder(s))
    modifies Nodes(s)
    ensures Repr(root, Llrb.DeleteMin(s).0) && d == Llrb.DeleteMin(s).1
    decreases |InOrder(s)|
  {
    hide InOrder, NodesOf, ObjectsOf, Distinct, Repr, Llrb.MoveRedLeft, Llrb.FixUp, Balanced;
    Unfold(n, s);
    if n.left == null {
      return null, -1;
    }
    StepLeftLoose(s, BlackHeight(s));
    Unfold(n.left, s.left);
    var m := n;
    ghost var t := StepLeft(s);
    if !RedNode(n.left) && !RedNode(n.left.left) {
      m := MoveRedLeft(n, s);
    }
    hide StepLeft;
    ghost var l' := Llrb.DeleteMin(t.left).0;
    Ready(m, t);
    DropFirst(t, l');
    var l;
    l, d := DeleteMin(m.left, t.left);
    Shrunk(t.left, l', 1, |InOrder(t.left)|);
    SetLeft(m, l, t, l');
    Shrunk(t, t.(left := l'), 1, |InOrder(t)|);
    root := FixUp(m, t.(left := l'));
  }

  /** All that is known about a node and what hangs below it, pulled together
      before one of its subtrees is worked on. */
  lemma Ready(n: Node, s: Shape)
    requires s.Node? && Repr(n, s) && Distinct(InOrder(s))
    ensures Head(n, s) && Repr(n.left, s.left) && Repr(n.right, s.right)
    ensures Distinct(InOrder(s.left)) && Distinct(InOrder(s.right))
    ensures Footprint(s.left) !! Footprint(s.right) && {n, n.elem} !! Footprint(s.left) + Footprint(s.right)
    ensures Nodes(s.left) <= Footprint(s.left) && Nodes(s.right) <= Footprint(s.right)
    ensures Nodes(s.left) <= Nodes(s) && Nodes(s.right) <= Nodes(s) && n in Nodes(s)
    ensures s.left.Node? <==> n.left != null
    ensures s.right.Node? <==> n.right != null
    ensures forall o :: o in Footprint(s) ==> allocated(o)
    ensures Footprint(s.left) <= Footprint(s) && Footprint(s.right) <= Footprint(s) && n in Footprint(s)
  {
    hide NodesOf, ObjectsOf, Distinct, InOrder;
    Parts(s);
    InMemory(s);
  }

  lemma {:induction false} Shrunk(s: Shape, s': Shape, i: nat, j: nat)
    requires Distinct(InOrder(s)) && i <= j <= |InOrder(s)| && InOrder(s') == InOrder(s)[i..j]
    ensures Distinct(InOrder(s')) && Nodes(s') <= Nodes(s) && Footprint(s') <= Footprint(s)
  {}

  method DeleteMax(n: Node, ghost s: Shape) returns (root: Node?, d: int)
    requires s.Node? && Repr(n, s) && Distinct(InOrder(s))
    requires Balanced(s, BlackHeight(s)) || LooseRight(s, BlackHeight(s))
    modifies Nodes(s)
    ensures Repr(root, Llrb.DeleteMax(s).0) && d == Llrb.DeleteMax(s).1
    decreases |InOrder(s)|
  {
    hide InOrder, NodesOf, ObjectsOf, Distinct, Repr, Llrb.MoveRedRight, Llrb.FixUp, Balanced;
    Unfold(n, s);
    LeanRightShape(s, BlackHeight(s));
    var m := n;
    ghost var t0 := LeanRight(s);
    if RedNode(n.left) {
      m := RotateRight(n, s);
    }
    Unfold(m, t0);
    if m.right == null {
      return null, -1;
    }
    StepRightLoose(s, BlackHeight(s));
    hide LeanRight;
    Unfold(m.right, t0.right);
    ghost var t := StepRight(t0);
    if !RedNode(m.right) && !RedNode(m.right.left) {
      m := MoveRedRight(m, t0);
    }
    hide StepRight;
    ghost var r' := Llrb.DeleteMax(t.right).0;
    Ready(m, t);
    DropLast(t, r');
    var r;
    r, d := DeleteMax(m.right, t.right);
    Shrunk(t.right, r', 0, |InOrder(t.right)| - 1);
    SetRight(m, r, t, r');
    Shrunk(t, t.(right := r'), 0, |InOrder(t)| - 1);
    root := FixUp(m, t.(right := r'));
  }

  // ----- forgetting where the nodes are -----

  ghost function Vals(cs: seq<Cell>): (v: Elems)
    ensures |v| == |cs|
    ensures forall i :: 0 <= i < |cs| ==> v[i] == cs[i].val
  {
    if cs == [] then [] else [cs[0].val] + Vals(cs[1..])
  }

  lemma EraseListing(s: Shape)
    ensures InOrder(Erase(s)) == Vals(InOrder(s))
  {}

  lemma {:induction false} EraseBalanced(s: Shape, h: nat)
    ensures Balanced(Erase(s), h) <==> Balanced(s, h)
    ensures BlackHeight(Erase(s)) == BlackHeight(s)
  {
    match s
    case Nil =>
    case Node(_, l, r, c) =>
      if c.Red? {
        EraseBalanced(l, h);
        EraseBalanced(r, h);
      } else if h > 0 {
        EraseBalanced(l, h - 1);
        EraseBalanced(r, h - 1);
      } else {
        EraseBalanced(l, h);
      }
  }

  lemma EraseRotateLeft(s: Shape)
    requires s.Node? && s.right.Node?
    ensures Erase(Llrb.RotateLeft(s)) == Llrb.RotateLeft(Erase(s))
  {}

  lemma EraseRotateRight(s: Shape)
    requires s.Node? && s.left.Node?
    ensures Erase(Llrb.RotateRight(s)) == Llrb.RotateRight(Erase(s))
  {}

  lemma EraseFlipColors(s: Shape)
    requires s.Node? && s.left.Node? && s.right.Node?
    ensures Erase(Llrb.FlipColors(s)) == Llrb.FlipColors(Erase(s))
  {}

  lemma EraseChildren(s: Shape)
    requires s.Node?
    ensures Erase(s).left == Erase(s.left) && Erase(s).right == Erase(s.right)
    ensures IsRed(Erase(s.left)) == IsRed(s.left) && IsRed(Erase(s.right)) == IsRed(s.right)
    ensures s.left.Node? ==> IsRed(Erase(s.left).left) == IsRed(s.left.left)
    ensures s.right.Node? ==> IsRed(Erase(s.right).left) == IsRed(s.right.left)
  {}

  /** The last two repairs of FixUp and InsertFix. */
  lemma EraseRepairs(s: Shape)
    requires s.Node?
    ensures var s2 := if IsRed(s.left) && IsRed(s.left.left) then Llrb.RotateRight(s) else s;
            var t := Erase(s);
            var t2 := if IsRed(t.left) && IsRed(t.left.left) then Llrb.RotateRight(t) else t;
            Erase(if IsRed(s2.left) && IsRed(s2.right) then Llrb.FlipColors(s2) else s2)
            == if IsRed(t2.left) && IsRed(t2.right) then Llrb.FlipColors(t2) else t2
  {
    hide Erase, InOrder;
    EraseChildren(s);
    var s2 := if IsRed(s.left) && IsRed(s.left.left) then Llrb.RotateRight(s) else s;
    if IsRed(s.left) && IsRed(s.left.left) {
      EraseRotateRight(s);
    }
    EraseChildren(s2);
    hide Llrb.RotateRight, Llrb.FlipColors;
    if IsRed(s2.left) && IsRed(s2.right) {
      EraseFlipColors(s2);
    }
  }

  lemma EraseFixUp(s: Shape)
    requires s.Node?
    ensures Erase(Llrb.FixUp(s)) == Llrb.FixUp(Erase(s))
    ensures Erase(Llrb.InsertFix(s)) == Llrb.InsertFix(Erase(s))
  {
    hide Erase, InOrder, Llrb.RotateLeft, Llrb.RotateRight, Llrb.FlipColors;
    EraseChildren(s);
    EraseRepairs(s);
    if IsRed(s.right) {
      EraseRotateLeft(s);
      EraseRepairs(Llrb.RotateLeft(s));
    }
  }

  lemma EraseStepLeft(s: Shape)
    requires s.Node? && s.left.Node? && (MovesLeft(s) ==> s.right.Node?)
    ensures MovesLeft(Erase(s)) == MovesLeft(s)
    ensures Erase(StepLeft(s)) == StepLeft(Erase(s))
  {
    EraseChildren(s);
    hide InOrder;
    if MovesLeft(s) {
      EraseFlipColors(s);
      var s1 := Llrb.FlipColors(s);
      EraseChildren(s1);
      hide Erase;
      if IsRed(s1.right.left) {
        var s2 := s1.(right := Llrb.RotateRight(s1.right));
        EraseSetRight(s1, s2.right);
        EraseRotateRight(s1.right);
        EraseRotateLeft(s2);
        EraseFlipColors(Llrb.RotateLeft(s2));
      }
    }
  }

  lemma EraseSetRight(s: Shape, r: Shape)
    requires s.Node?
    ensures Erase(s).Node? && Erase(s.(right := r)) == Erase(s).(right := Erase(r))
    ensures Erase(s.(left := r)) == Erase(s).(left := Erase(r))
  {}

  lemma EraseStepRight(s: Shape)
    requires s.Node?
    ensures Erase(LeanRight(s)) == LeanRight(Erase(s))
    ensures var s0 := LeanRight(s); s0.right.Node? && (MovesRight(s0) ==> s0.left.Node?) ==>
              && MovesRight(Erase(s0)) == MovesRight(s0)
              && Erase(StepRight(s0)) == StepRight(Erase(s0))
  {
    EraseChildren(s);
    hide InOrder;
    if IsRed(s.left) {
      EraseRotateRight(s);
    }
    var s0 := LeanRight(s);
    if s0.right.Node? && MovesRight(s0) && s0.left.Node? {
      EraseChildren(s0);
      EraseFlipColors(s0);
      var s1 := Llrb.FlipColors(s0);
      EraseChildren(s1);
      hide Erase, LeanRight;
      if IsRed(s1.left.left) {
        EraseRotateRight(s1);
        EraseFlipColors(Llrb.RotateRight(s1));
      }
    }
  }

  lemma {:induction false} EraseDeleteMin(s: Shape)
    requires s.Node? && Balanced(s, BlackHeight(s))
    ensures Balanced(Erase(s), BlackHeight(Erase(s)))
    ensures Erase(Llrb.DeleteMin(s).0) == Llrb.DeleteMin(Erase(s)).0
    decreases |InOrder(s)|
  {
    hide Llrb.FixUp, StepLeft;
    EraseBalanced(s, BlackHeight(s));
    if s.left.Node? {
      StepLeftLoose(s, BlackHeight(s));
      StepLeftLoose(Erase(s), BlackHeight(s));
      EraseStepLeft(s);
      var t := StepLeft(s);
      EraseDeleteMin(t.left);
      EraseFixUp(t.(left := Llrb.DeleteMin(t.left).0));
    }
  }

  lemma {:induction false} EraseDeleteMax(s: Shape)
    requires s.Node? && (Balanced(s, BlackHeight(s)) || LooseRight(s, BlackHeight(s)))
    ensures Balanced(Erase(s), BlackHeight(Erase(s))) || LooseRight(Erase(s), BlackHeight(Erase(s)))
    ensures Erase(Llrb.DeleteMax(s).0) == Llrb.DeleteMax(Erase(s)).0
    decreases |InOrder(s)|
  {
    hide Llrb.FixUp, StepRight, LeanRight;
    EraseBalanced(s, BlackHeight(s));
    EraseChildren(s);
    if BlackHeight(s) > 0 {
      EraseBalanced(s.left, BlackHeight(s) - 1);
      EraseBalanced(s.right, BlackHeight(s) - 1);
    }
    LeanRightShape(s, BlackHeight(s));
    EraseStepRight(s);
    var s0 := LeanRight(s);
    EraseChildren(s0);
    if s0.right.Node? {
      StepRightLoose(s, BlackHeight(s));
      StepRightLoose(Erase(s), BlackHeight(s));
      var t := StepRight(s0);
      EraseChildren(t);
      DropLast(t, Llrb.DeleteMax(t.right).0);
      EraseDeleteMax(t.right);
      EraseSetRight(t, Llrb.DeleteMax(t.right).0);
      EraseFixUp(t.(right := Llrb.DeleteMax(t.right).0));
    }
  }

  // ----- delete -----

  lemma DistinctJoin(l: seq<Cell>, c: Cell, r: seq<Cell>)
    requires Distinct(l) && Distinct(r) && ObjectsOf(l) !! ObjectsOf(r)
    requires {c.node, c.elem} !! ObjectsOf(l) + ObjectsOf(r)
    ensures Distinct(l + [c] + r)
  {
    forall x | x in l ensures x.node in ObjectsOf(l) && x.elem in ObjectsOf(l) {}
    forall x | x in r ensures x.node in ObjectsOf(r) && x.elem in ObjectsOf(r) {}
  }

  /** A node put together from a cell and two subtrees with objects of their own. */
  lemma Joined(c: Cell, l: Shape, r: Shape, color: Color)
    requires Distinct(InOrder(l)) && Distinct(InOrder(r)) && Footprint(l) !! Footprint(r)
    requires {c.node, c.elem} !! Footprint(l) + Footprint(r)
    ensures var s := Llrb.Node(c, l, r, color);
      && Distinct(InOrder(s)) && Nodes(s) == Nodes(l) + {c.node} + Nodes(r)
      && Footprint(s) == Footprint(l) + {c.node, c.elem} + Footprint(r)
      && Nodes(s) <= Footprint(s)
  {
    assert ObjectsOf(InOrder(l)) >= NodesOf(InOrder(l)) && ObjectsOf(InOrder(r)) >= NodesOf(InOrder(r));
    hide Distinct, NodesOf, ObjectsOf;
    DistinctJoin(InOrder(l), c, InOrder(r));
    SetsOfParts(InOrder(l), c, InOrder(r));
  }

  /** A subtree is replaced by one that uses no other objects. */
  lemma {:induction false} Replaced(s: Shape, c: Cell, l: Shape, r: Shape)
    requires s.Node? && Distinct(InOrder(s)) && c.node == s.elem.node
    requires Distinct(InOrder(l)) && Nodes(l) <= Nodes(s.left) && Footprint(l) <= Footprint(s.left)
    requires Distinct(InOrder(r)) && Nodes(r) <= Nodes(s.right) && Footprint(r) <= Footprint(s.right)
    requires c.elem == s.elem.elem || (c.elem in Footprint(s.right) && c.elem !in Footprint(r))
    ensures var s' := s.(elem := c, left := l, right := r);
      Distinct(InOrder(s')) && Nodes(s') <= Nodes(s) && Footprint(s') <= Footprint(s)
  {
    hide Distinct, NodesOf, ObjectsOf, InOrder;
    Parts(s);
    Joined(c, l, r, s.color);
  }

  method MinNode(n: Node, ghost s: Shape) returns (m: Node)
    requires s.Node? && Repr(n, s)
    ensures InOrder(s) != [] && m == InOrder(s)[0].node
    ensures m.elem == InOrder(s)[0].elem && m.elem.Val() == InOrder(s)[0].val
  {
    m := n;
    ghost var t := s;
    while m.left != null
      invariant t.Node? && Repr(m, t)
      invariant InOrder(t)[0] == InOrder(s)[0]
      decreases t
    {
      m := m.left;
      t := t.left;
    }
  }

  method DeleteLeft(n: Node, k: Name, ghost s: Shape) returns (root: Node?, d: int, ghost s': Shape)
    requires s.Node? && Repr(n, s) && Distinct(InOrder(s)) && TreeOps.CanDelete(Erase(s), k)
    requires Compare(k, s.elem.val.name) < 0
    modifies Nodes(s)
    ensures Repr(root, s') && Distinct(InOrder(s')) && Nodes(s') <= Nodes(s) && Footprint(s') <= Footprint(s)
    ensures TreeOps.Delete(Erase(s), k) == (Erase(s'), d)
    decreases |InOrder(s)|, 0
  {
    hide InOrder, NodesOf, ObjectsOf, Distinct, Repr, Llrb.MoveRedLeft, Llrb.FixUp, Balanced, Compare;
    Unfold(n, s);
    EraseFixUp(s);
    EraseChildren(s);
    if n.left == null {
      d := 0;
      root := FixUp(n, s);
      s' := Llrb.FixUp(s);
      return;
    }
    TreeOps.DeleteGoesLeft(Erase(s), k);
    EraseStepLeft(s);
    Unfold(n.left, s.left);
    var m := n;
    ghost var t := StepLeft(s);
    if !RedNode(n.left) && !RedNode(n.left.left) {
      m := MoveRedLeft(n, s);
    }
    hide StepLeft;
    Ready(m, t);
    EraseChildren(t);
    EraseListing(s);
    EraseListing(t.left);
    ghost var l';
    var l;
    l, d, l' := Delete(m.left, k, t.left);
    SetLeft(m, l, t, l');
    Replaced(t, t.elem, l', t.right);
    EraseSetRight(t, l');
    EraseFixUp(t.(left := l'));
    root := FixUp(m, t.(left := l'));
    s' := Llrb.FixUp(t.(left := l'));
  }

  /** The element of m is replaced by the least one on its right, whose node goes. */
  method ReplaceByMin(m: Node, ghost t: Shape) returns (root: Node, d: int, ghost s': Shape)
    requires t.Node? && Repr(m, t) && Distinct(InOrder(t))
    requires t.right.Node? && Balanced(t.right, BlackHeight(t.right))
    modifies Nodes(t)
    ensures Repr(root, s') && Distinct(InOrder(s')) && Nodes(s') <= Nodes(t) && Footprint(s') <= Footprint(t)
    ensures Erase(t).right == Erase(t.right)
    ensures Erase(t.right).Node? && Balanced(Erase(t.right), BlackHeight(Erase(t.right)))
    ensures var (r', d') := Llrb.DeleteMin(Erase(t.right));
      d == d' && Erase(s') == Llrb.FixUp(Erase(t).(elem := InOrder(Erase(t.right))[0], right := r'))
  {
    hide InOrder, NodesOf, ObjectsOf, Distinct, Repr, Llrb.FixUp, Balanced;
    Ready(m, t);
    ghost var r' := Llrb.DeleteMin(t.right).0;
    ghost var c := InOrder(t.right)[0];
    ghost var c' := Cell(m, c.elem, c.val);
    FirstOf(t.right, r');
    var least := MinNode(m.right, t.right);
    NotANode(t.right, least.elem);
    m.elem := least.elem;
    var r;
    r, d := DeleteMin(m.right, t.right);
    ghost var t' := t.(elem := c', right := r');
    SetRight(m, r, t.(elem := c'), r');
    Replaced(t, c', t.left, r');
    EraseDeleteMin(t.right);
    EraseListing(t.right);
    EraseFixUp(t');
    root := FixUp(m, t');
    s' := Llrb.FixUp(t');
  }

  /** Elements and nodes are different objects. */
  lemma NotANode(s: Shape, e: Elem)
    ensures e as object !in Nodes(s)
  {}

  lemma Nothing(s: Shape)
    ensures Repr(null, Nil) && Distinct(InOrder<Cell>(Nil)) && Erase(Nil) == Nil
    ensures Nodes(Nil) <= Nodes(s) && Footprint(Nil) <= Footprint(s)
  {}

  /** The first cell of a listing leaves the footprint when it is dropped. */
  lemma {:induction false} FirstOf(s: Shape, s': Shape)
    requires InOrder(s) != [] && InOrder(s') == InOrder(s)[1..] && Distinct(InOrder(s))
    ensures InOrder(s)[0].elem in Footprint(s) && InOrder(s)[0].elem !in Footprint(s')
    ensures Distinct(InOrder(s')) && Nodes(s') <= Nodes(s) && Footprint(s') <= Footprint(s)
  {}

  method DeleteRight(n: Node, k: Name, ghost s: Shape) returns (root: Node?, d: int, ghost s': Shape)
    requires s.Node? && Repr(n, s) && Distinct(InOrder(s)) && TreeOps.CanDelete(Erase(s), k)
    requires Compare(k, s.elem.val.name) >= 0
    modifies Nodes(s)
    ensures Repr(root, s') && Distinct(InOrder(s')) && Nodes(s') <= Nodes(s) && Footprint(s') <= Footprint(s)
    ensures TreeOps.Delete(Erase(s), k) == (Erase(s'), d)
    decreases |InOrder(s)|, 0
  {
    hide InOrder, NodesOf, ObjectsOf, Distinct, Repr, Llrb.MoveRedRight, Llrb.FixUp, Balanced, Compare;
    Unfold(n, s);
    TreeOps.DeleteGoesRight(Erase(s), k);
    EraseStepRight(s);
    EraseChildren(s);
    var m := n;
    ghost var t0 := LeanRight(s);
    if RedNode(n.left) {
      m := RotateRight(n, s);
    }
    hide LeanRight;
    Unfold(m, t0);
    Footing(m, t0);
    EraseChildren(t0);
    var c0 := Compare(k, m.elem.name);
    if m.right == null {
      if c0 == 0 {
        Nothing(s);
        return null, -1, Nil;
      }
      d := 0;
      EraseFixUp(t0);
      root := FixUp(m, t0);
      s' := Llrb.FixUp(t0);
      return;
    }
    Unfold(m.right, t0.right);
    ghost var t := StepRight(t0);
    if !RedNode(m.right) && !RedNode(m.right.left) {
      m := MoveRedRight(m, t0);
    }
    hide StepRight;
    Ready(m, t);
    EraseChildren(t);
    var c := Compare(k, m.elem.name);
    if c == 0 {
      EraseBalanced(t.right, BlackHeight(t.right));
      root, d, s' := ReplaceByMin(m, t);
    } else {
      EraseListing(s);
      EraseListing(t.right);
      ghost var r';
      var r;
      r, d, r' := Delete(m.right, k, t.right);
      SetRight(m, r, t, r');
      Replaced(t, t.elem, t.left, r');
      EraseSetRight(t, r');
      EraseFixUp(t.(right := r'));
      root := FixUp(m, t.(right := r'));
      s' := Llrb.FixUp(t.(right := r'));
    }
  }

  method Delete(n: Node, k: Name, ghost s: Shape) returns (root: Node?, d: int, ghost s': Shape)
    requires s.Node? && Repr(n, s) && Distinct(InOrder(s)) && TreeOps.CanDelete(Erase(s), k)
    modifies Nodes(s)
    ensures Repr(root, s') && Distinct(InOrder(s')) && Nodes(s') <= Nodes(s) && Footprint(s') <= Footprint(s)
    ensures TreeOps.Delete(Erase(s), k) == (Erase(s'), d)
    decreases |InOrder(s)|, 1
  {
    hide InOrder, NodesOf, ObjectsOf, Distinct, Compare, TreeOps.Delete;
    var c := Compare(k, n.elem.name);
    if c < 0 {
      root, d, s' := DeleteLeft(n, k, s);
    } else {
      root, d, s' := DeleteRight(n, k, s);
    }
  }

  // ----- insert -----

  method InsertNew(rr: RR) returns (root: Node, ghost s': Shape)
    ensures Repr(root, s') && Distinct(InOrder(s')) && fresh(Footprint(s'))
    ensures TreeOps.Insert(Nil, rr) == (Erase(s'), 1)
  {
    root := new Node(rr);
    ghost var c := Cell(root, root.elem, NewElem(rr));
    s' := Llrb.Node(c, Nil, Nil, Red);
    Joined(c, Nil, Nil, Red);
    assert Footprint(s') == {root, root.elem};
  }

  method InsertHere(n: Node, rr: RR, ghost s: Shape) returns (root: Node, d: int, ghost s': Shape)
    requires s.Node? && Repr(n, s) && Distinct(InOrder(s))
    requires Compare(rr.owner, s.elem.val.name) == 0
    modifies Footprint(s)
    ensures Repr(root, s') && Distinct(InOrder(s')) && fresh(Footprint(s') - Footprint(s))
    ensures TreeOps.Insert(Erase(s), rr) == (Erase(s'), d)
  {
    hide InOrder, NodesOf, ObjectsOf, Distinct, Repr, Llrb.InsertFix, Compare, NewElem, AddRecord;
    Ready(n, s);
    Parts(s);
    EraseChildren(s);
    n.elem.Insert(rr);
    ghost var t := s.(elem := s.elem.(val := AddRecord(s.elem.val, rr)));
    SetLeft(n, n.left, t, s.left);
    Joined(t.elem, s.left, s.right, s.color);
    EraseElem(s, t.elem);
    EraseFixUp(t);
    root := InsertFix(n, t);
    s' := Llrb.InsertFix(t);
    d := 0;
  }

  method InsertLeft(n: Node, rr: RR, ghost s: Shape) returns (root: Node, d: int, ghost s': Shape)
    requires s.Node? && Repr(n, s) && Distinct(InOrder(s))
    requires Compare(rr.owner, s.elem.val.name) < 0
    modifies Footprint(s)
    ensures Repr(root, s') && Distinct(InOrder(s')) && fresh(Footprint(s') - Footprint(s))
    ensures TreeOps.Insert(Erase(s), rr) == (Erase(s'), d)
    decreases s, 0
  {
    hide InOrder, NodesOf, ObjectsOf, Distinct, Repr, Llrb.InsertFix, Compare, NewElem, AddRecord;
    Ready(n, s);
    Parts(s);
    EraseChildren(s);
    ghost var l';
    var l;
    l, d, l' := Insert(n.left, rr, s.left);
    SetLeft(n, l, s, l');
    Joined(s.elem, l', s.right, s.color);
    EraseSetRight(s, l');
    ghost var t := s.(left := l');
    EraseFixUp(t);
    root := InsertFix(n, t);
    s' := Llrb.InsertFix(t);
  }

  method InsertRight(n: Node, rr: RR, ghost s: Shape) returns (root: Node, d: int, ghost s': Shape)
    requires s.Node? && Repr(n, s) && Distinct(InOrder(s))
    requires Compare(rr.owner, s.elem.val.name) > 0
    modifies Footprint(s)
    ensures Repr(root, s') && Distinct(InOrder(s')) && fresh(Footprint(s') - Footprint(s))
    ensures TreeOps.Insert(Erase(s), rr) == (Erase(s'), d)
    decreases s, 0
  {
    hide InOrder, NodesOf, ObjectsOf, Distinct, Repr, Llrb.InsertFix, Compare, NewElem, AddRecord;
    Ready(n, s);
    Parts(s);
    EraseChildren(s);
    ghost var r';
    var r;
    r, d, r' := Insert(n.right, rr, s.right);
    SetRight(n, r, s, r');
    Joined(s.elem, s.left, r', s.color);
    EraseSetRight(s, r');
    ghost var t := s.(right := r');
    EraseFixUp(t);
    root := InsertFix(n, t);
    s' := Llrb.InsertFix(t);
  }

  method Insert(n: Node?, rr: RR, ghost s: Shape) returns (root: Node, d: int, ghost s': Shape)
    requires Repr(n, s) && Distinct(InOrder(s))
    modifies Footprint(s)
    ensures Repr(root, s') && Distinct(InOrder(s')) && fresh(Footprint(s') - Footprint(s))
    ensures TreeOps.Insert(Erase(s), rr) == (Erase(s'), d)
    decreases s, 1
  {
    if n == null {
      d := 1;
      root, s' := InsertNew(rr);
      return;
    }
    hide InOrder, NodesOf, ObjectsOf, Distinct, Compare, TreeOps.Insert;
    var c := Compare(rr.owner, n.elem.name);
    if c == 0 {
      root, d, s' := InsertHere(n, rr, s);
    } else if c < 0 {
      root, d, s' := InsertLeft(n, rr, s);
    } else {
      root, d, s' := InsertRight(n, rr, s);
    }
  }

  lemma EraseElem(s: Shape, c: Cell)
    requires s.Node?
    ensures Erase(s).Node? && Erase(s.(elem := c)) == Erase(s).(elem := c.val)
  {}
}
