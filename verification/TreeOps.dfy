/** insert, delete, search, floor and ceil of plugin/file/tree/tree.go on values. */
module TreeOps {
  import opened Wrappers
  import opened Names
  import opened Records
  import opened Llrb
  import opened NameTree

  type NTree = RBTree<ElemVal>

  lemma SortedSubtrees(t: NTree)
    requires t.Node? && Sorted(InOrder(t))
    ensures Sorted(InOrder(t.left)) && Sorted(InOrder(t.right)) && ValidName(t.elem.name)
    ensures Below(InOrder(t.left), t.elem.name) && Above(InOrder(t.right), t.elem.name)
  {
    hide Sorted, Below, Above;
    SortedParts(InOrder(t.left), t.elem, InOrder(t.right));
  }

  // ----- insert -----

  /** Node.insert; the number says how many names were added. */
  function Insert(t: NTree, rr: RR): (r: (NTree, int))
    ensures r.0.Node?
  {
    if t.Nil? then
      (Node(NewElem(rr), Nil, Nil, Red), 1)
    else
      var c := Compare(rr.owner, t.elem.name);
      if c == 0 then
        (InsertFix(t.(elem := AddRecord(t.elem, rr))), 0)
      else if c < 0 then
        var (l', d) := Insert(t.left, rr);
        (InsertFix(t.(left := l')), d)
      else
        var (r', d) := Insert(t.right, rr);
        (InsertFix(t.(right := r')), d)
  }

  lemma {:induction false} InsertBalanced(t: NTree, h: nat, rr: RR)
    requires Balanced(t, h)
    ensures Inserted(Insert(t, rr).0, h, IsRed(t))
  {
    hide Compare, InsertFix, NewElem, AddRecord;
    if t.Node? {
      var h' := if t.color.Red? then h else h - 1;
      var c := Compare(rr.owner, t.elem.name);
      if c == 0 {
        InsertFixLeft(AddRecord(t.elem, rr), t.left, t.right, t.color, h, t.left);
      } else if c < 0 {
        InsertBalanced(t.left, h', rr);
        InsertFixLeft(t.elem, t.left, t.right, t.color, h, Insert(t.left, rr).0);
      } else {
        InsertBalanced(t.right, h', rr);
        InsertFixRight(t.elem, t.left, t.right, t.color, h, Insert(t.right, rr).0);
      }
    }
  }

  lemma {:induction false} InsertListing(t: NTree, rr: RR)
    requires Sorted(InOrder(t)) && ValidName(rr.owner)
    ensures InOrder(Insert(t, rr).0) == Put(InOrder(t), rr)
    ensures Insert(t, rr).1 == |Put(InOrder(t), rr)| - |InOrder(t)|
  {
    hide Compare, InsertFix, NewElem, AddRecord, Sorted;
    if t.Node? {
      SortedSubtrees(t);
      PutSplit(InOrder(t.left), t.elem, InOrder(t.right), rr);
      var c := Compare(rr.owner, t.elem.name);
      if c < 0 {
        InsertListing(t.left, rr);
      } else if c > 0 {
        InsertListing(t.right, rr);
      }
    }
  }

  // ----- delete -----

  /** What delete may be called on: a whole balanced subtree, or what MoveRedRight
      left on the right, in which the search goes further right. */
  predicate CanDelete(t: NTree, k: Name) {
    && t.Node? && Sorted(InOrder(t)) && ValidName(k)
    && (Balanced(t, BlackHeight(t)) ||
        (LooseRight(t, BlackHeight(t)) && Compare(k, t.elem.name) >= 0))
  }

  /** The step to the left leads to a place delete may continue from. */
  lemma DeleteGoesLeft(t: NTree, k: Name)
    requires CanDelete(t, k) && Compare(k, t.elem.name) < 0 && t.left.Node?
    ensures MovesLeft(t) ==> t.right.Node?
    ensures CanDelete(StepLeft(t).left, k)
    ensures Loose(StepLeft(t).left, BlackHeight(StepLeft(t).left))
    ensures |InOrder(StepLeft(t).left)| < |InOrder(t)|
  {
    hide Compare, Sorted, StepLeft, InOrder;
    StepLeftLoose(t, BlackHeight(t));
    SortedSubtrees(StepLeft(t));
    SmallerParts(StepLeft(t));
  }

  lemma SmallerParts<X>(t: RBTree<X>)
    requires t.Node?
    ensures |InOrder(t.left)| < |InOrder(t)| && |InOrder(t.right)| < |InOrder(t)|
  {}

  /** So does the step to the right; a node that has just been rotated up is not
      the one looked for. */
  lemma DeleteGoesRight(t: NTree, k: Name)
    requires CanDelete(t, k) && Compare(k, t.elem.name) >= 0
    ensures LeanRight(t).right.Nil? ==> LeanRight(t).left.Nil? && LeanRight(t) == t
    ensures LeanRight(t).right.Node? ==>
              && (MovesRight(LeanRight(t)) ==> LeanRight(t).left.Node?)
              && var t1 := StepRight(LeanRight(t));
                 && CanGiveUp(t1.right)
                 && CanDelete(t1.right, k)
                 && (Compare(k, t1.elem.name) == 0 ==> Loose(t1.right, BlackHeight(t1.right)))
                 && Compare(k, t1.elem.name) >= 0
                 && |InOrder(t1.right)| < |InOrder(t)|
  {
    hide Compare, Sorted, InOrder;
    var h := BlackHeight(t);
    LeanRightShape(t, h);
    SortedSubtrees(t);
    if t.left.Node? {
      LeftRootBelow(t);
      CompareTotalOrder(t.elem.name, k, k);
      CompareTotalOrder(t.left.elem.name, t.elem.name, k);
      CompareTotalOrder(k, t.left.elem.name, k);
    }
    if LeanRight(t).right.Node? {
      StepRightLoose(t, h);
      var t1 := StepRight(LeanRight(t));
      SortedSubtrees(t1);
      SmallerParts(t1);
    }
  }

  lemma LeftRootBelow(t: NTree)
    requires t.Node? && t.left.Node? && Sorted(InOrder(t))
    ensures ValidName(t.left.elem.name) && ValidName(t.elem.name)
    ensures Compare(t.left.elem.name, t.elem.name) < 0
  {
    hide Compare;
    var l := InOrder(t.left);
    assert l[|InOrder(t.left.left)|] == t.left.elem;
    assert InOrder(t)[|InOrder(t.left.left)|] == t.left.elem;
    assert InOrder(t)[|l|] == t.elem;
  }

  /** Node.delete; the number says how many names were removed, negated. */
  function Delete(t: NTree, k: Name): (r: (NTree, int))
    requires CanDelete(t, k)
    ensures CanGiveUp(t) ==> Deleted(r.0, BlackHeight(t), IsRed(t))
    decreases |InOrder(t)|
  {
    if Compare(k, t.elem.name) < 0 then
      if t.left.Nil? then (FixUp(t), 0)
      else
        DeleteGoesLeft(t, k);
        var t1 := StepLeft(t);
        var (l', d) := Delete(t1.left, k);
        StepLeftDone(t, BlackHeight(t), l');
        (FixUp(t1.(left := l')), d)
    else
      DeleteGoesRight(t, k);
      var t0 := LeanRight(t);
      if t0.right.Nil? then
        if Compare(k, t0.elem.name) == 0 then (Nil, -1) else (FixUp(t0), 0)
      else
        var t1 := StepRight(t0);
        if Compare(k, t1.elem.name) == 0 then
          var (r', d) := DeleteMin(t1.right);
          StepRightDone(t, BlackHeight(t), InOrder(t1.right)[0], r');
          (FixUp(t1.(elem := InOrder(t1.right)[0], right := r')), d)
        else
          var (r', d) := Delete(t1.right, k);
          StepRightDone(t, BlackHeight(t), t1.elem, r');
          (FixUp(t1.(right := r')), d)
  }

  /** A node that comes up in a step to the left sorts after the name looked for. */
  lemma StepLeftElem(t: NTree, k: Name)
    requires t.Node? && t.left.Node? && (MovesLeft(t) ==> t.right.Node?)
    requires Sorted(InOrder(t)) && ValidName(k) && Compare(k, t.elem.name) < 0
    ensures Compare(k, StepLeft(t).elem.name) < 0
  {
    hide Compare, Sorted;
    BelowAbove(InOrder(t.left), t.elem, InOrder(t.right), k);
    if StepLeft(t).elem != t.elem {
      assert StepLeft(t).elem == t.right.left.elem;
      hide StepLeft, MovesLeft;
      Contains(t.right);
      hide InOrder;
      var r := InOrder(t.right);
      var i :| 0 <= i < |r| && r[i] == t.right.left.elem;
    }
  }

  /** A node's left child is listed. */
  lemma Contains<X>(t: RBTree<X>)
    requires t.Node? && t.left.Node?
    ensures t.left.elem in InOrder(t)
  {}

  lemma {:induction false} DeletedLeft(t: NTree, l': NTree, k: Name)
    requires t.Node? && Sorted(InOrder(t)) && ValidName(k) && Compare(k, t.elem.name) < 0
    requires InOrder(l') == Drop(InOrder(t.left), k)
    ensures InOrder(t.(left := l')) == Drop(InOrder(t), k)
  {
    hide Compare, Sorted, Drop;
    DropSplit(InOrder(t.left), t.elem, InOrder(t.right), k);
  }

  lemma {:induction false} DeletedRight(t: NTree, r': NTree, k: Name)
    requires t.Node? && Sorted(InOrder(t)) && ValidName(k) && Compare(k, t.elem.name) > 0
    requires InOrder(r') == Drop(InOrder(t.right), k)
    ensures InOrder(t.(right := r')) == Drop(InOrder(t), k)
  {
    hide Compare, Sorted, Drop;
    DropSplit(InOrder(t.left), t.elem, InOrder(t.right), k);
  }

  /** The deleted element is replaced by the least one on its right. */
  lemma {:induction false} DeletedHere(t: NTree, r': NTree, k: Name)
    requires t.Node? && Sorted(InOrder(t)) && ValidName(k) && Compare(k, t.elem.name) == 0
    requires InOrder(t.right) != [] && InOrder(r') == InOrder(t.right)[1..]
    ensures InOrder(t.(elem := InOrder(t.right)[0], right := r')) == Drop(InOrder(t), k)
    ensures |Drop(InOrder(t), k)| == |InOrder(t)| - 1
  {
    hide Compare, Sorted, Drop;
    DropSplit(InOrder(t.left), t.elem, InOrder(t.right), k);
    assert InOrder(t.right) == [InOrder(t.right)[0]] + InOrder(r');
  }

  /** Deleting takes the name out of the listing and nothing else. */
  lemma {:induction false} DeleteListing(t: NTree, k: Name)
    requires CanDelete(t, k)
    ensures InOrder(Delete(t, k).0) == Drop(InOrder(t), k)
    ensures Delete(t, k).1 == |Drop(InOrder(t), k)| - |InOrder(t)|
    decreases |InOrder(t)|
  {
    hide Compare, Sorted, FixUp, StepLeft, StepRight, LeanRight, Drop;
    if Compare(k, t.elem.name) < 0 {
      if t.left.Nil? {
        DropAbsent([], k);
        DeletedLeft(t, t.left, k);
      } else {
        DeleteGoesLeft(t, k);
        DeleteListing(StepLeft(t).left, k);
        StepLeftElem(t, k);
        DeletedLeft(StepLeft(t), Delete(StepLeft(t).left, k).0, k);
      }
    } else {
      DeleteGoesRight(t, k);
      var t0 := LeanRight(t);
      if t0.right.Nil? {
        DropAbsent([], k);
        assert InOrder(t) == [] + [t.elem] + [];
        DropSplit([], t.elem, [], k);
      } else {
        var t1 := StepRight(t0);
        if Compare(k, t1.elem.name) == 0 {
          DeletedHere(t1, DeleteMin(t1.right).0, k);
        } else {
          DeleteListing(t1.right, k);
          DeletedRight(t1, Delete(t1.right, k).0, k);
        }
      }
    }
  }

  // ----- the root -----

  /** The invariant of a whole tree. */
  predicate Valid(t: NTree) {
    && !IsRed(t) && Balanced(t, BlackHeight(t))
    && Sorted(InOrder(t))
    && ElemsValid(InOrder(t))
  }

  lemma ValidRoot(t: NTree)
    requires Valid(t)
    ensures !IsRed(t) && Balanced(t, BlackHeight(t))
  {}

  /** Deleting at a black root with two black children does what deleting at the
      same root painted red does, up to the colour of the new root. */
  lemma DeleteIgnoresRootColor(t: NTree, k: Name)
    requires CanDelete(t, k) && Balanced(t, BlackHeight(t)) && t.color.Black? && !IsRed(t.left)
    ensures CanDelete(t.(color := Red), k)
    ensures Paint(Delete(t, k).0) == Paint(Delete(t.(color := Red), k).0)
  {
    hide Compare, Sorted, InOrder;
    var u := t.(color := Red);
    assert InOrder(u) == InOrder(t) by { SameListing(t, u); }
    RedRootLoose(t, BlackHeight(t));
    MovesHaveChildren(t, BlackHeight(t));
    if t.left.Node? {
      StepsIgnoreRootColor(t, u);
    }
    if Compare(k, t.elem.name) < 0 {
      if t.left.Nil? {
        FixUpIgnoresRootColor(t, u);
      } else {
        DeleteGoesLeft(t, k);
        DeleteGoesLeft(u, k);
        var l' := Delete(StepLeft(t).left, k).0;
        FixUpIgnoresRootColor(StepLeft(t).(left := l'), StepLeft(u).(left := l'));
      }
    } else {
      DeleteGoesRight(t, k);
      DeleteGoesRight(u, k);
      if t.right.Nil? {
        FixUpIgnoresRootColor(t, u);
      } else {
        var t1, u1 := StepRight(t), StepRight(u);
        if Compare(k, t1.elem.name) == 0 {
          var r' := DeleteMin(t1.right).0;
          var x := InOrder(t1.right)[0];
          FixUpIgnoresRootColor(t1.(elem := x, right := r'), u1.(elem := x, right := r'));
        } else {
          var r' := Delete(t1.right, k).0;
          FixUpIgnoresRootColor(t1.(right := r'), u1.(right := r'));
        }
      }
    }
  }

  lemma {:induction false} SameListing<X>(t: RBTree<X>, u: RBTree<X>)
    requires Paint(t) == Paint(u)
    ensures InOrder(t) == InOrder(u)
  {}

  lemma DeleteMinIgnoresRootColor<X>(t: RBTree<X>)
    requires t.Node? && Balanced(t, BlackHeight(t)) && t.color.Black? && !IsRed(t.left)
    ensures Loose(t.(color := Red), BlackHeight(t.(color := Red)))
    ensures Paint(DeleteMin(t).0) == Paint(DeleteMin(t.(color := Red)).0)
    ensures Paint(DeleteMax(t).0) == Paint(DeleteMax(t.(color := Red)).0)
  {
    var u := t.(color := Red);
    RedRootLoose(t, BlackHeight(t));
    MovesHaveChildren(t, BlackHeight(t));
    if t.left.Node? {
      StepsIgnoreRootColor(t, u);
      StepLeftLoose(t, BlackHeight(t));
      StepRightLoose(t, BlackHeight(t));
      hide InOrder, StepLeft, StepRight, FixUp;
      var l' := DeleteMin(StepLeft(t).left).0;
      FixUpIgnoresRootColor(StepLeft(t).(left := l'), StepLeft(u).(left := l'));
      var r' := DeleteMax(StepRight(t).right).0;
      FixUpIgnoresRootColor(StepRight(t).(right := r'), StepRight(u).(right := r'));
    }
  }

  /** A deletion that is balanced on the red root is balanced once painted. */
  lemma PaintDeleted<X>(t: RBTree<X>, h: nat, wasRed: bool)
    requires Deleted(t, h, wasRed)
    ensures !IsRed(Paint(t)) && Balanced(Paint(t), BlackHeight(Paint(t)))
  {
    if t.Node? {
      PaintRoot(t, h);
      BlackHeightUnique(Paint(t), if t.color.Red? then h + 1 else h);
    }
  }

  lemma {:induction false} PutElems(s: Elems, rr: RR)
    requires ElemsValid(s) && ValidName(rr.owner)
    ensures ElemsValid(Put(s, rr))
  {
    assert s != [] ==> s[0].Valid() && ValidName(s[0].name);
    hide Compare, AddRecord, NewElem, ElemVal.Valid;
    if s != [] {
      PutElems(s[1..], rr);
      CompareTotalOrder(rr.owner, s[0].name, rr.owner);
    }
  }

  lemma {:induction false} DropElems(s: Elems, k: Name)
    requires ElemsValid(s)
    ensures ElemsValid(Drop(s, k))
  {
    if s != [] {
      DropElems(s[1..], k);
    }
  }

  /** Tree.Insert keeps the invariant and puts the record into the listing. */
  lemma InsertValid(t: NTree, rr: RR)
    requires Valid(t) && ValidName(rr.owner)
    ensures Valid(Paint(Insert(t, rr).0))
    ensures InOrder(Paint(Insert(t, rr).0)) == Put(InOrder(t), rr)
    ensures Insert(t, rr).1 == |Put(InOrder(t), rr)| - |InOrder(t)|
  {
    var h, r := BlackHeight(t), Insert(t, rr).0;
    InsertBalanced(t, h, rr);
    InsertListing(t, rr);
    PutSorted(InOrder(t), rr);
    PutElems(InOrder(t), rr);
    PaintRoot(r, h);
    BlackHeightUnique(Paint(r), if r.color.Red? then h + 1 else h);
  }

  /** Tree.deleteNode keeps the invariant and takes the name out of the listing. */
  lemma DeleteValid(t: NTree, k: Name)
    requires Valid(t) && t.Node? && ValidName(k)
    ensures CanDelete(t, k) && Valid(Paint(Delete(t, k).0))
    ensures InOrder(Paint(Delete(t, k).0)) == Drop(InOrder(t), k)
    ensures Delete(t, k).1 == |Drop(InOrder(t), k)| - |InOrder(t)|
  {
    hide Compare, Sorted, Drop;
    DeleteListing(t, k);
    DropSorted(InOrder(t), k);
    DropElems(InOrder(t), k);
    if IsRed(t.left) {
      PaintDeleted(Delete(t, k).0, BlackHeight(t), false);
    } else {
      DeleteIgnoresRootColor(t, k);
      var u := t.(color := Red);
      RedRootLoose(t, BlackHeight(t));
      PaintDeleted(Delete(u, k).0, BlackHeight(u), true);
    }
  }

  lemma SortedSlices(s: Elems)
    requires s != [] && Sorted(s) && ElemsValid(s)
    ensures Sorted(s[1..]) && Sorted(s[..|s| - 1])
    ensures ElemsValid(s[1..]) && ElemsValid(s[..|s| - 1])
  {}

  /** The colour of the root aside, the deleted tree is balanced. */
  lemma DeleteMinBalanced(t: NTree)
    requires Valid(t) && t.Node?
    ensures var r := Paint(DeleteMin(t).0); !IsRed(r) && Balanced(r, BlackHeight(r))
  {
    hide Sorted, DeleteMin, InOrder;
    var u := if IsRed(t.left) then t else t.(color := Red);
    if !IsRed(t.left) {
      RedRootLoose(t, BlackHeight(t));
      DeleteMinIgnoresRootColor(t);
    }
    PaintDeleted(DeleteMin(u).0, BlackHeight(u), IsRed(u));
  }

  lemma DeleteMaxBalanced(t: NTree)
    requires Valid(t) && t.Node?
    ensures var r := Paint(DeleteMax(t).0); !IsRed(r) && Balanced(r, BlackHeight(r))
  {
    hide Sorted, DeleteMax, InOrder;
    var u := if IsRed(t.left) then t else t.(color := Red);
    if !IsRed(t.left) {
      RedRootLoose(t, BlackHeight(t));
      DeleteMinIgnoresRootColor(t);
    }
    PaintDeleted(DeleteMax(u).0, BlackHeight(u), IsRed(u));
  }

  /** Tree.DeleteMin and Tree.DeleteMax keep the invariant and drop the first and
      the last name of the listing. */
  lemma DeleteEndsValid(t: NTree)
    requires Valid(t) && t.Node?
    ensures Valid(Paint(DeleteMin(t).0)) && Valid(Paint(DeleteMax(t).0))
    ensures InOrder(Paint(DeleteMin(t).0)) == InOrder(t)[1..]
    ensures InOrder(Paint(DeleteMax(t).0)) == InOrder(t)[..|InOrder(t)| - 1]
  {
    hide Sorted, DeleteMin, DeleteMax, Balanced, InOrder, ElemsValid;
    DeleteMinBalanced(t);
    DeleteMaxBalanced(t);
    SortedSlices(InOrder(t));
  }

  // ----- search, floor and ceil -----

  function Search(t: NTree, q: Name): (r: Option<ElemVal>) {
    if t.Nil? then None
    else
      var c := Compare(q, t.elem.name);
      if c == 0 then Some(t.elem)
      else if c < 0 then Search(t.left, q)
      else Search(t.right, q)
  }

  function Floor(t: NTree, q: Name): (r: Option<ElemVal>) {
    if t.Nil? then None
    else
      var c := Compare(q, t.elem.name);
      if c == 0 then Some(t.elem)
      else if c < 0 then Floor(t.left, q)
      else
        var r := Floor(t.right, q);
        if r.Some? then r else Some(t.elem)
  }

  function Ceil(t: NTree, q: Name): (r: Option<ElemVal>) {
    if t.Nil? then None
    else
      var c := Compare(q, t.elem.name);
      if c == 0 then Some(t.elem)
      else if c > 0 then Ceil(t.right, q)
      else
        var r := Ceil(t.left, q);
        if r.Some? then r else Some(t.elem)
  }

  /** The greatest element at or before q: everything after it is after q. */
  ghost predicate IsPrev(s: Elems, q: Name, r: Option<ElemVal>) {
    match r
    case None => Above(s, q)
    case Some(e) =>
      exists i :: 0 <= i < |s| && s[i] == e && Compare(e.name, q) <= 0 && Above(s[i + 1..], q)
  }

  /** The smallest element at or after q: everything before it is before q. */
  ghost predicate IsNext(s: Elems, q: Name, r: Option<ElemVal>) {
    match r
    case None => Below(s, q)
    case Some(e) =>
      exists i :: 0 <= i < |s| && s[i] == e && Compare(q, e.name) <= 0 && Below(s[..i], q)
  }

  /** Search agrees with the linear scan. */
  lemma {:induction false} SearchIsFind(t: NTree, q: Name)
    requires Sorted(InOrder(t)) && NameOrEmpty(q)
    ensures Search(t, q) == Find(InOrder(t), q)
  {
    hide Compare, Sorted;
    if t.Node? {
      var l, r := InOrder(t.left), InOrder(t.right);
      SortedSubtrees(t);
      BelowAbove(l, t.elem, r, q);
      FindMiddle(l, t.elem, r, q);
      if Compare(q, t.elem.name) < 0 {
        SearchIsFind(t.left, q);
        NotFound(r, q);
      } else if Compare(q, t.elem.name) > 0 {
        SearchIsFind(t.right, q);
        NotFound(l, q);
      } else {
        NotFound(l, q);
      }
    }
  }

  lemma NotFound(s: Elems, q: Name)
    requires Above(s, q) || Below(s, q)
    requires NameOrEmpty(q)
    ensures Find(s, q).None?
  {
    CompareTotalOrder(q, q, q);
  }

  lemma {:induction false} FindMiddle(l: Elems, e: ElemVal, r: Elems, q: Name)
    ensures Find(l + [e] + r, q) ==
            if Find(l, q).Some? then Find(l, q) else if e.name == q then Some(e) else Find(r, q)
  {
    if l == [] {
      assert l + [e] + r == [e] + r;
      FindCons(e, r, q);
    } else {
      assert l + [e] + r == [l[0]] + (l[1..] + [e] + r);
      FindCons(l[0], l[1..] + [e] + r, q);
      FindMiddle(l[1..], e, r, q);
    }
  }

  lemma PrevInLeft(l: Elems, s: Elems, q: Name, f: Option<ElemVal>)
    requires IsPrev(l, q, f) && Above(s, q)
    ensures IsPrev(l + s, q, f)
  {
    hide Compare, Above;
    if f.Some? {
      var i :| 0 <= i < |l| && l[i] == f.value && Compare(f.value.name, q) <= 0 && Above(l[i + 1..], q);
      assert (l + s)[i] == f.value && (l + s)[i + 1..] == l[i + 1..] + s;
      AboveConcat(l[i + 1..], s, q);
    } else {
      AboveConcat(l, s, q);
    }
  }

  lemma AboveConcat(a: Elems, b: Elems, q: Name)
    requires Above(a, q) && Above(b, q)
    ensures Above(a + b, q)
  {
    hide Compare;
  }

  lemma PrevInRight(l: Elems, r: Elems, q: Name, f: Option<ElemVal>)
    requires f.Some? && IsPrev(r, q, f)
    ensures IsPrev(l + r, q, f)
  {
    hide Compare;
    var i :| 0 <= i < |r| && r[i] == f.value && Compare(f.value.name, q) <= 0 && Above(r[i + 1..], q);
    assert (l + r)[|l| + i] == f.value && (l + r)[|l| + i + 1..] == r[i + 1..];
  }

  lemma PrevHere(l: Elems, e: ElemVal, r: Elems, q: Name)
    requires Compare(e.name, q) <= 0 && Above(r, q)
    ensures IsPrev(l + [e] + r, q, Some(e))
  {
    hide Compare;
    assert (l + [e] + r)[|l|] == e && (l + [e] + r)[|l| + 1..] == r;
  }

  /** Tree.Prev: floor is the greatest owner at or before q. */
  lemma {:induction false} FloorIsPrev(t: NTree, q: Name)
    requires Sorted(InOrder(t)) && NameOrEmpty(q)
    ensures IsPrev(InOrder(t), q, Floor(t, q))
  {
    hide Compare, Sorted;
    if t.Node? {
      var l, e, r := InOrder(t.left), t.elem, InOrder(t.right);
      SortedSubtrees(t);
      BelowAbove(l, e, r, q);
      var f := Floor(t, q);
      hide IsPrev;
      if Compare(q, e.name) < 0 {
        FloorIsPrev(t.left, q);
        assert Above([e] + r, q);
        PrevInLeft(l, [e] + r, q, f);
        assert l + [e] + r == l + ([e] + r);
      } else {
        FloorIsPrev(t.right, q);
        if Compare(q, e.name) > 0 && Floor(t.right, q).Some? {
          PrevInRight(l + [e], r, q, f);
        } else {
          FloorNoneAbove(t.right, q);
          PrevHere(l, e, r, q);
        }
      }
    }
  }

  lemma FloorNoneAbove(t: NTree, q: Name)
    requires IsPrev(InOrder(t), q, Floor(t, q))
    ensures Floor(t, q).None? ==> Above(InOrder(t), q)
  {}

  lemma NextInRight(s: Elems, r: Elems, q: Name, f: Option<ElemVal>)
    requires IsNext(r, q, f) && Below(s, q)
    ensures IsNext(s + r, q, f)
  {
    hide Compare;
    if f.Some? {
      var i :| 0 <= i < |r| && r[i] == f.value && Compare(q, f.value.name) <= 0 && Below(r[..i], q);
      assert (s + r)[|s| + i] == f.value && (s + r)[..|s| + i] == s + r[..i];
    }
  }

  lemma NextInLeft(l: Elems, r: Elems, q: Name, f: Option<ElemVal>)
    requires f.Some? && IsNext(l, q, f)
    ensures IsNext(l + r, q, f)
  {
    hide Compare;
    var i :| 0 <= i < |l| && l[i] == f.value && Compare(q, f.value.name) <= 0 && Below(l[..i], q);
    assert (l + r)[i] == f.value && (l + r)[..i] == l[..i];
  }

  lemma NextHere(l: Elems, e: ElemVal, r: Elems, q: Name)
    requires Compare(q, e.name) <= 0 && Below(l, q)
    ensures IsNext(l + [e] + r, q, Some(e))
  {
    hide Compare;
    assert (l + [e] + r)[|l|] == e && (l + [e] + r)[..|l|] == l;
  }

  lemma CeilNoneBelow(t: NTree, q: Name)
    requires IsNext(InOrder(t), q, Ceil(t, q))
    ensures Ceil(t, q).None? ==> Below(InOrder(t), q)
  {}

  /** Tree.Next: ceil is the smallest owner at or after q. */
  lemma {:induction false} CeilIsNext(t: NTree, q: Name)
    requires Sorted(InOrder(t)) && NameOrEmpty(q)
    ensures IsNext(InOrder(t), q, Ceil(t, q))
  {
    hide Compare, Sorted;
    if t.Node? {
      var l, e, r := InOrder(t.left), t.elem, InOrder(t.right);
      SortedSubtrees(t);
      BelowAbove(l, e, r, q);
      var f := Ceil(t, q);
      hide IsNext;
      if Compare(q, e.name) > 0 {
        CeilIsNext(t.right, q);
        assert Below(l + [e], q);
        NextInRight(l + [e], r, q, f);
      } else {
        CeilIsNext(t.left, q);
        if Compare(q, e.name) < 0 && Ceil(t.left, q).Some? {
          NextInLeft(l, [e] + r, q, f);
          assert l + [e] + r == l + ([e] + r);
        } else {
          CeilNoneBelow(t.left, q);
          NextHere(l, e, r, q);
        }
      }
    }
  }
}
