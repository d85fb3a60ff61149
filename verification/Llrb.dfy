/** The left-leaning red-black tree of plugin/file/tree/tree.go (mode BU23) on
    values: the balancing steps, their effect on colours and black heights, and
    the fact that none of them changes the in-order listing. */
module Llrb {

  datatype Color = Red | Black
  {
    function Flip(): Color { if Red? then Black else Red }
  }

  datatype RBTree<+X> = Nil | Node(elem: X, left: RBTree<X>, right: RBTree<X>, color: Color)

  /** Node.color() == red; a nil node is black. */
  predicate IsRed<X>(t: RBTree<X>) {
    t.Node? && t.color.Red?
  }

  /** Node.all: the elements from left to right. */
  function InOrder<X>(t: RBTree<X>): seq<X> {
    if t.Nil? then [] else InOrder(t.left) + [t.elem] + InOrder(t.right)
  }

  // ----- balancing steps -----

  function RotateLeft<X>(t: RBTree<X>): (r: RBTree<X>)
    requires t.Node? && t.right.Node?
    ensures r.Node? && InOrder(r) == InOrder(t)
  {
    assert InOrder(t) == InOrder(t.left) + [t.elem] + (InOrder(t.right.left) + [t.right.elem] + InOrder(t.right.right));
    Node(t.right.elem, Node(t.elem, t.left, t.right.left, Red), t.right.right, t.color)
  }

  function RotateRight<X>(t: RBTree<X>): (r: RBTree<X>)
    requires t.Node? && t.left.Node?
    ensures r.Node? && InOrder(r) == InOrder(t)
  {
    assert InOrder(t) == (InOrder(t.left.left) + [t.left.elem] + InOrder(t.left.right)) + [t.elem] + InOrder(t.right);
    Node(t.left.elem, t.left.left, Node(t.elem, t.left.right, t.right, Red), t.color)
  }

  function FlipColors<X>(t: RBTree<X>): (r: RBTree<X>)
    requires t.Node? && t.left.Node? && t.right.Node?
    ensures r.Node? && InOrder(r) == InOrder(t)
  {
    var l := t.left.(color := t.left.color.Flip());
    var r := t.right.(color := t.right.color.Flip());
    assert InOrder(l) == InOrder(t.left) && InOrder(r) == InOrder(t.right);
    Node(t.elem, l, r, t.color.Flip())
  }

  function FixUp<X>(t: RBTree<X>): (r: RBTree<X>)
    requires t.Node?
    ensures r.Node? && InOrder(r) == InOrder(t)
  {
    var t1 := if IsRed(t.right) then RotateLeft(t) else t;
    var t2 := if IsRed(t1.left) && IsRed(t1.left.left) then RotateRight(t1) else t1;
    if IsRed(t2.left) && IsRed(t2.right) then FlipColors(t2) else t2
  }

  /** The repairs at the end of insert; unlike FixUp a red right child is only
      rotated when the left one is black. */
  function InsertFix<X>(t: RBTree<X>): (r: RBTree<X>)
    requires t.Node?
    ensures r.Node? && InOrder(r) == InOrder(t)
  {
    var t1 := if IsRed(t.right) && !IsRed(t.left) then RotateLeft(t) else t;
    var t2 := if IsRed(t1.left) && IsRed(t1.left.left) then RotateRight(t1) else t1;
    if IsRed(t2.left) && IsRed(t2.right) then FlipColors(t2) else t2
  }

  function MoveRedLeft<X>(t: RBTree<X>): (r: RBTree<X>)
    requires t.Node? && t.left.Node? && t.right.Node?
    ensures r.Node? && r.left.Node? && InOrder(r) == InOrder(t)
  {
    var t1 := FlipColors(t);
    if IsRed(t1.right.left) then
      var t2 := t1.(right := RotateRight(t1.right));
      assert InOrder(t2) == InOrder(t1);
      FlipColors(RotateLeft(t2))
    else t1
  }

  function MoveRedRight<X>(t: RBTree<X>): (r: RBTree<X>)
    requires t.Node? && t.left.Node? && t.right.Node?
    ensures r.Node? && r.right.Node? && InOrder(r) == InOrder(t)
  {
    var t1 := FlipColors(t);
    if IsRed(t1.left.left) then FlipColors(RotateRight(t1)) else t1
  }

  // ----- the invariant -----

  /** Every path down t meets h black nodes, no red node is a right child and no
      red node has a red child. */
  predicate Balanced<X>(t: RBTree<X>, h: nat) {
    match t
    case Nil => h == 0
    case Node(_, l, r, c) =>
      && !IsRed(r)
      && !(c.Red? && IsRed(l))
      && (c.Black? ==> h > 0)
      && Balanced(l, if c.Red? then h else h - 1)
      && Balanced(r, if c.Red? then h else h - 1)
  }

  // ----- insertion keeps the invariant -----

  /** A red root with a red left child, otherwise balanced: the one defect insert
      may hand to its caller. */
  predicate LeftDoubleRed<X>(t: RBTree<X>, h: nat) {
    && t.Node? && t.color.Red?
    && IsRed(t.left) && !IsRed(t.right)
    && Balanced(t.left, h) && Balanced(t.right, h)
  }

  /** What insert makes of a balanced subtree; wasRed is the subtree's old colour. */
  predicate Inserted<X>(t: RBTree<X>, h: nat, wasRed: bool) {
    Balanced(t, h) || (wasRed && LeftDoubleRed(t, h))
  }

  lemma InsertFixLeft<X>(e: X, l: RBTree<X>, r: RBTree<X>, c: Color, h: nat, l': RBTree<X>)
    requires Balanced(Node(e, l, r, c), h)
    requires Inserted(l', if c.Red? then h else h - 1, IsRed(l))
    ensures Inserted(InsertFix(Node(e, l', r, c)), h, c.Red?)
  {}

  lemma InsertFixRight<X>(e: X, l: RBTree<X>, r: RBTree<X>, c: Color, h: nat, r': RBTree<X>)
    requires Balanced(Node(e, l, r, c), h)
    requires Balanced(r', if c.Red? then h else h - 1)
    ensures Inserted(InsertFix(Node(e, l, r', c)), h, c.Red?)
  {}

  lemma PaintRoot<X>(t: RBTree<X>, h: nat)
    requires t.Node?
    requires Balanced(t, h) || LeftDoubleRed(t, h)
    ensures Balanced(t.(color := Black), if t.color.Red? then h + 1 else h)
  {}

  // ----- deletion keeps the invariant -----

  /** The number of black nodes on the leftmost path. */
  function BlackHeight<X>(t: RBTree<X>): nat {
    match t
    case Nil => 0
    case Node(_, l, _, c) => BlackHeight(l) + if c.Black? then 1 else 0
  }

  /** What a deletion step may descend into: the node or its left child is red, so
      a node can be taken out without changing black heights. */
  predicate Loose<X>(t: RBTree<X>, h: nat) {
    t.Node? && Balanced(t, h) && (IsRed(t) || IsRed(t.left))
  }

  /** What MoveRedRight may leave on the right: a black node whose only red child
      is the right one. */
  predicate LooseRight<X>(t: RBTree<X>, h: nat) {
    && t.Node? && t.color.Black? && h > 0
    && !IsRed(t.left) && IsRed(t.right)
    && Balanced(t.left, h - 1) && Balanced(t.right, h - 1)
  }

  lemma {:induction false} BlackHeightUnique<X>(t: RBTree<X>, h: nat)
    requires Balanced(t, h) || LooseRight(t, h)
    ensures BlackHeight(t) == h
  {
    if t.Node? {
      BlackHeightUnique(t.left, if t.color.Red? then h else h - 1);
    }
  }

  /** What a deletion step makes of such a subtree. */
  predicate Deleted<X>(t: RBTree<X>, h: nat, wasRed: bool) {
    Balanced(t, h) && (wasRed || !IsRed(t))
  }

  /** The subtree seen from its parent during a deletion, between the step down
      and FixUp: both sides are balanced to the same height, and FixUp may turn
      the root red only if it was red to begin with. */
  predicate Unfixed<X>(t: RBTree<X>, h: nat, wasRed: bool) {
    && t.Node?
    && (t.color.Red? ==>
          wasRed && !IsRed(t.left) && !IsRed(t.right) && Balanced(t.left, h) && Balanced(t.right, h))
    && (t.color.Black? ==>
          && h > 0 && Balanced(t.left, h - 1) && Balanced(t.right, h - 1)
          && (wasRed || !IsRed(t.left) || !IsRed(t.right)))
  }

  lemma FixUpDeleted<X>(t: RBTree<X>, h: nat, wasRed: bool)
    requires Unfixed(t, h, wasRed)
    ensures Deleted(FixUp(t), h, wasRed)
  {}

  predicate MovesLeft<X>(t: RBTree<X>)
    requires t.Node?
  {
    !IsRed(t.left) && t.left.Node? && !IsRed(t.left.left)
  }

  predicate MovesRight<X>(t: RBTree<X>)
    requires t.Node?
  {
    !IsRed(t.right) && t.right.Node? && !IsRed(t.right.left)
  }

  /** In a balanced tree the moves find the two children they assume. */
  lemma MovesHaveChildren<X>(t: RBTree<X>, h: nat)
    requires t.Node? && (Balanced(t, h) || LooseRight(t, h))
    ensures MovesLeft(t) ==> t.right.Node?
    ensures MovesRight(t) ==> t.left.Node?
    ensures t.left.Nil? && !IsRed(t.right) ==> t.right.Nil?
    ensures t.right.Nil? && !IsRed(t.left) ==> t.left.Nil?
  {}

  /** The step to the left: borrow a red node for the left child if it has none. */
  function StepLeft<X>(t: RBTree<X>): (r: RBTree<X>)
    requires t.Node? && t.left.Node?
    requires MovesLeft(t) ==> t.right.Node?
    ensures r.Node? && r.left.Node? && InOrder(r) == InOrder(t)
  {
    if MovesLeft(t) then MoveRedLeft(t) else t
  }

  /** The step to the right. */
  function StepRight<X>(t: RBTree<X>): (r: RBTree<X>)
    requires t.Node? && t.right.Node?
    requires MovesRight(t) ==> t.left.Node?
    ensures r.Node? && r.right.Node? && InOrder(r) == InOrder(t)
  {
    if MovesRight(t) then MoveRedRight(t) else t
  }

  /** Before a step to the right a red left child is rotated over. */
  function LeanRight<X>(t: RBTree<X>): (r: RBTree<X>)
    requires t.Node?
    ensures r.Node? && InOrder(r) == InOrder(t)
  {
    if IsRed(t.left) then RotateRight(t) else t
  }

  /** MoveRedLeft on two black children of black height h: either the red node is
      borrowed from the right side, or the two children join the root. */
  lemma MoveRedLeftShape<X>(t: RBTree<X>, h: nat)
    requires t.Node? && MovesLeft(t) && t.right.Node? && !IsRed(t.right)
    requires Balanced(t.left, h) && Balanced(t.right, h)
    ensures var t1 := MoveRedLeft(t);
      if IsRed(t.right.left) then
        && t1.color == t.color
        && !IsRed(t1.left) && Loose(t1.left, h)
        && !IsRed(t1.right) && Balanced(t1.right, h)
      else
        && t1.color == t.color.Flip() && h > 0
        && IsRed(t1.left) && Loose(t1.left, h - 1)
        && IsRed(t1.right) && Balanced(t1.right, h - 1)
  {}

  /** MoveRedRight on two black children of black height h. */
  lemma MoveRedRightShape<X>(t: RBTree<X>, h: nat)
    requires t.Node? && MovesRight(t) && t.left.Node? && !IsRed(t.left)
    requires Balanced(t.left, h) && Balanced(t.right, h)
    ensures var t1 := MoveRedRight(t);
      if IsRed(t.left.left) then
        && t1.color == t.color
        && !IsRed(t1.left) && Balanced(t1.left, h)
        && LooseRight(t1.right, h) && t1.right.elem == t.elem && t1.elem == t.left.elem
      else
        && t1.color == t.color.Flip() && h > 0
        && IsRed(t1.left) && Balanced(t1.left, h - 1)
        && IsRed(t1.right) && Loose(t1.right, h - 1) && t1.elem == t.elem
  {}

  /** After the step to the left the left child can give up a node. */
  lemma StepLeftLoose<X>(t: RBTree<X>, h: nat)
    requires t.Node? && Balanced(t, h) && t.left.Node?
    ensures MovesLeft(t) ==> t.right.Node?
    ensures Loose(StepLeft(t).left, BlackHeight(StepLeft(t).left))
  {
    MovesHaveChildren(t, h);
    var h' := if t.color.Red? then h else h - 1;
    if MovesLeft(t) {
      MoveRedLeftShape(t, h');
      BlackHeightUnique(StepLeft(t).left, if IsRed(t.right.left) then h' else h' - 1);
    } else {
      BlackHeightUnique(t.left, h');
    }
  }

  /** Whatever a deletion makes of the left child, FixUp repairs the node. */
  lemma StepLeftDone<X>(t: RBTree<X>, h: nat, l': RBTree<X>)
    requires t.Node? && t.left.Node?
    requires MovesLeft(t) ==> t.right.Node?
    requires var l := StepLeft(t).left; Deleted(l', BlackHeight(l), IsRed(l))
    ensures Loose(t, h) ==> Deleted(FixUp(StepLeft(t).(left := l')), h, IsRed(t))
  {
    if !Loose(t, h) { return; }
    var t1 := StepLeft(t);
    var h' := if t.color.Red? then h else h - 1;
    if MovesLeft(t) {
      MoveRedLeftShape(t, h');
      BlackHeightUnique(t1.left, if IsRed(t.right.left) then h' else h' - 1);
    } else {
      BlackHeightUnique(t.left, h');
    }
    FixUpDeleted(t1.(left := l'), h, IsRed(t));
  }

  /** Where a step to the right ends up: at a subtree that can give up a node. */
  predicate CanGiveUp<X>(t: RBTree<X>) {
    Loose(t, BlackHeight(t)) || LooseRight(t, BlackHeight(t))
  }

  lemma LeanRightShape<X>(t: RBTree<X>, h: nat)
    requires t.Node? && (Balanced(t, h) || LooseRight(t, h))
    ensures var t0 := LeanRight(t);
      && t0.color == t.color && !IsRed(t0.left)
      && (MovesRight(t0) ==> t0.left.Node?)
      && (var h' := if t.color.Red? then h else h - 1;
          && Balanced(t0.left, h') && Balanced(t0.right, h')
          && (IsRed(t0.right) ==> t.color.Black?)
          && (Loose(t, h) && !IsRed(t0.right) ==> t.color.Red?))
  {}

  lemma StepRightLoose<X>(t: RBTree<X>, h: nat)
    requires t.Node? && (Balanced(t, h) || LooseRight(t, h)) && LeanRight(t).right.Node?
    ensures MovesRight(LeanRight(t)) ==> LeanRight(t).left.Node?
    ensures CanGiveUp(StepRight(LeanRight(t)).right)
  {
    LeanRightShape(t, h);
    var t0 := LeanRight(t);
    var h' := if t.color.Red? then h else h - 1;
    if MovesRight(t0) {
      MoveRedRightShape(t0, h');
      BlackHeightUnique(StepRight(t0).right, if IsRed(t0.left.left) then h' else h' - 1);
    } else {
      BlackHeightUnique(t0.right, h');
    }
  }

  lemma StepRightDone<X>(t: RBTree<X>, h: nat, x: X, r': RBTree<X>)
    requires t.Node? && LeanRight(t).right.Node?
    requires MovesRight(LeanRight(t)) ==> LeanRight(t).left.Node?
    requires var r := StepRight(LeanRight(t)).right; Deleted(r', BlackHeight(r), IsRed(r))
    ensures Loose(t, h) || LooseRight(t, h) ==>
              Deleted(FixUp(StepRight(LeanRight(t)).(elem := x, right := r')), h, IsRed(t))
  {
    if !Loose(t, h) && !LooseRight(t, h) { return; }
    LeanRightShape(t, h);
    var t0 := LeanRight(t);
    var t1 := StepRight(t0);
    var h' := if t.color.Red? then h else h - 1;
    if MovesRight(t0) {
      MoveRedRightShape(t0, h');
      BlackHeightUnique(t1.right, if IsRed(t0.left.left) then h' else h' - 1);
    } else {
      BlackHeightUnique(t0.right, h');
    }
    FixUpDeleted(t1.(elem := x, right := r'), h, IsRed(t));
  }

  // ----- DeleteMin and DeleteMax -----

  lemma {:induction false} DropFirst<X>(t: RBTree<X>, l': RBTree<X>)
    requires t.Node? && InOrder(t.left) != [] && InOrder(l') == InOrder(t.left)[1..]
    ensures InOrder(t.(left := l')) == InOrder(t)[1..]
    ensures |InOrder(t.left)| < |InOrder(t)|
  {}

  lemma {:induction false} DropLast<X>(t: RBTree<X>, r': RBTree<X>)
    requires t.Node? && InOrder(t.right) != [] && InOrder(r') == InOrder(t.right)[..|InOrder(t.right)| - 1]
    ensures InOrder(t.(right := r')) == InOrder(t)[..|InOrder(t)| - 1]
    ensures |InOrder(t.right)| < |InOrder(t)|
  {}

  function DeleteMin<X>(t: RBTree<X>): (r: (RBTree<X>, int))
    requires t.Node? && Balanced(t, BlackHeight(t))
    ensures InOrder(t) != [] && InOrder(r.0) == InOrder(t)[1..] && r.1 == -1
    ensures Loose(t, BlackHeight(t)) ==> Deleted(r.0, BlackHeight(t), IsRed(t))
    decreases |InOrder(t)|
  {
    MovesHaveChildren(t, BlackHeight(t));
    if t.left.Nil? then
      (Nil, -1)
    else
      StepLeftLoose(t, BlackHeight(t));
      var t1 := StepLeft(t);
      var (l', d) := DeleteMin(t1.left);
      DropFirst(t1, l');
      StepLeftDone(t, BlackHeight(t), l');
      (FixUp(t1.(left := l')), d)
  }

  /** Where DeleteMax stops: at a node without children. */
  lemma DeleteMaxStops<X>(t: RBTree<X>)
    requires t.Node? && (Balanced(t, BlackHeight(t)) || LooseRight(t, BlackHeight(t)))
    requires LeanRight(t).right.Nil?
    ensures LeanRight(t) == t && InOrder(t) == [t.elem]
    ensures CanGiveUp(t) ==> Deleted(RBTree<X>.Nil, BlackHeight(t), IsRed(t))
  {
    LeanRightShape(t, BlackHeight(t));
  }

  /** Where it goes on: into a right child that can give up a node. */
  lemma DeleteMaxGoes<X>(t: RBTree<X>)
    requires t.Node? && (Balanced(t, BlackHeight(t)) || LooseRight(t, BlackHeight(t)))
    requires LeanRight(t).right.Node?
    ensures MovesRight(LeanRight(t)) ==> LeanRight(t).left.Node?
    ensures var r := StepRight(LeanRight(t)).right;
      && r.Node? && (Balanced(r, BlackHeight(r)) || LooseRight(r, BlackHeight(r)))
      && CanGiveUp(r) && |InOrder(r)| < |InOrder(t)|
  {
    StepRightLoose(t, BlackHeight(t));
  }

  /** What the fixed-up node is like. */
  lemma {:induction false} DeleteMaxDone<X>(t: RBTree<X>, r': RBTree<X>)
    requires t.Node? && LeanRight(t).right.Node? && (MovesRight(LeanRight(t)) ==> LeanRight(t).left.Node?)
    requires var r := StepRight(LeanRight(t)).right;
      && InOrder(r) != [] && InOrder(r') == InOrder(r)[..|InOrder(r)| - 1] && Deleted(r', BlackHeight(r), IsRed(r))
    ensures var t1 := StepRight(LeanRight(t)).(right := r');
      && InOrder(t) != [] && InOrder(FixUp(t1)) == InOrder(t)[..|InOrder(t)| - 1]
      && (CanGiveUp(t) ==> Deleted(FixUp(t1), BlackHeight(t), IsRed(t)))
  {
    var t1 := StepRight(LeanRight(t));
    DropLast(t1, r');
    StepRightDone(t, BlackHeight(t), t1.elem, r');
    assert t1.(elem := t1.elem, right := r') == t1.(right := r');
    hide Deleted, FixUp, StepRight, LeanRight, InOrder, BlackHeight;
  }

  function DeleteMax<X>(t: RBTree<X>): (r: (RBTree<X>, int))
    requires t.Node? && (Balanced(t, BlackHeight(t)) || LooseRight(t, BlackHeight(t)))
    ensures InOrder(t) != [] && InOrder(r.0) == InOrder(t)[..|InOrder(t)| - 1] && r.1 == -1
    ensures CanGiveUp(t) ==> Deleted(r.0, BlackHeight(t), IsRed(t))
    decreases |InOrder(t)|
  {
    var t0 := LeanRight(t);
    if t0.right.Nil? then
      DeleteMaxStops(t);
      (Nil, -1)
    else
      DeleteMaxGoes(t);
      var t1 := StepRight(t0);
      var (r', d) := DeleteMax(t1.right);
      DeleteMaxDone(t, r');
      (FixUp(t1.(right := r')), d)
  }

  // ----- the root -----

  function Paint<X>(t: RBTree<X>): (r: RBTree<X>)
    ensures InOrder(r) == InOrder(t)
  {
    if t.Nil? then t else t.(color := Black)
  }

  /** The balancing steps look at the colours of children only, so the colour of
      the root does not influence what they do. */
  lemma {:induction false} FixUpIgnoresRootColor<X>(t: RBTree<X>, u: RBTree<X>)
    requires t.Node? && u.Node? && Paint(t) == Paint(u)
    ensures Paint(FixUp(t)) == Paint(FixUp(u))
  {}

  lemma {:induction false} StepsIgnoreRootColor<X>(t: RBTree<X>, u: RBTree<X>)
    requires t.Node? && u.Node? && Paint(t) == Paint(u)
    requires t.left.Node? && t.right.Node?
    ensures Paint(StepLeft(t)) == Paint(StepLeft(u))
    ensures Paint(StepRight(t)) == Paint(StepRight(u))
  {}

  /** A black root whose children are both black is not Loose; painting it red
      makes it so. */
  lemma RedRootLoose<X>(t: RBTree<X>, h: nat)
    requires t.Node? && t.color.Black? && Balanced(t, h) && !IsRed(t.left)
    ensures h > 0 && Loose(t.(color := Red), h - 1) && BlackHeight(t.(color := Red)) == h - 1
  {
    BlackHeightUnique(t.(color := Red), h - 1);
  }

  function Height<X>(t: RBTree<X>): nat {
    if t.Nil? then 0
    else 1 + if Height(t.left) > Height(t.right) then Height(t.left) else Height(t.right)
  }

  function Pow2(n: nat): (r: nat)
    ensures r > 0
  {
    if n == 0 then 1 else 2 * Pow2(n - 1)
  }

  /** A path alternates at worst, and a tree of black height h is at least full to depth h. */
  lemma {:induction false} BalancedSize<X>(t: RBTree<X>, h: nat)
    requires Balanced(t, h)
    ensures |InOrder(t)| + 1 >= Pow2(h)
    ensures Height(t) <= 2 * h + if IsRed(t) then 1 else 0
  {
    if t.Node? {
      var h' := if t.color.Red? then h else h - 1;
      BalancedSize(t.left, h');
      BalancedSize(t.right, h');
    }
  }

  lemma {:induction false} Pow2Monotone(a: nat, b: nat)
    requires a <= b
    ensures Pow2(a) <= Pow2(b)
  {
    if a < b { Pow2Monotone(a, b - 1); }
  }

  lemma {:induction false} Pow2Double(h: nat)
    ensures Pow2(2 * h) == Pow2(h) * Pow2(h)
  {
    if h > 0 {
      Pow2Double(h - 1);
      assert Pow2(2 * h) == 2 * Pow2(2 * h - 1) == 4 * Pow2(2 * (h - 1));
      assert Pow2(h) * Pow2(h) == 4 * (Pow2(h - 1) * Pow2(h - 1));
    }
  }

  /** Height at most 2 * log2(n + 1), said without logarithms. */
  lemma HeightLogarithmic<X>(t: RBTree<X>)
    requires !IsRed(t) && Balanced(t, BlackHeight(t))
    ensures Pow2(Height(t)) <= (|InOrder(t)| + 1) * (|InOrder(t)| + 1)
  {
    var h := BlackHeight(t);
    BalancedSize(t, h);
    Pow2Monotone(Height(t), 2 * h);
    Pow2Double(h);
    var n := |InOrder(t)| + 1;
    assert Pow2(h) * Pow2(h) <= n * n by {
      MulMonotone(Pow2(h), n);
    }
  }

  lemma MulMonotone(a: nat, b: nat)
    requires a <= b
    ensures a * a <= b * b
  {}
}
