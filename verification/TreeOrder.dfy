/** The order that items are meant to have. It depends only on what was inserted between what, and on
    IDs: everything inserted to the right of an item follows it before anything else does, what was
    inserted in front of another item of that kind goes before it, and what is left is ordered by ID. */
module TreeOrder {
  import opened RleGraph
  import opened ListLog
  import opened Replay

  /** Where an item was inserted: after `left`, and in front of `right`; -1 stands for nothing. */
  datatype Origins = Origins(left: int, right: int)

  type Tree = map<nat, Origins>

  ghost predicate Below(t: Tree, x: int, id: int) {
    x == -1 || (0 <= x < id && x in t)
  }

  /** Items refer to earlier items. */
  ghost predicate ValidTree(ids: seq<RawVersion>, t: Tree) {
    forall x | x in t :: x < |ids| && Below(t, t[x].left, x) && Below(t, t[x].right, x)
  }

  /** Item `x` comes before item `y`. */
  ghost predicate TreeLess(ids: seq<RawVersion>, t: Tree, x: nat, y: nat)
    requires ValidTree(ids, t) && x in t && y in t
    decreases x + y
  {
    var lx, ly, rx, ry := t[x].left, t[y].left, t[x].right, t[y].right;
    if x == y then false
    else if lx != ly then
      // The one further left comes first, unless it is itself to the right of the other one's left origin.
      if lx == -1 || (ly != -1 && TreeLess(ids, t, lx, ly)) then x == ly || TreeLess(ids, t, x, ly)
      else !(y == lx || TreeLess(ids, t, y, lx))
    else if rx != ry then
      if ry == -1 || (rx != -1 && TreeLess(ids, t, rx, ry)) then rx == y || TreeLess(ids, t, rx, y)
      else !(ry == x || TreeLess(ids, t, ry, x))
    else RawLess(ids[x], ids[y])
  }

  // ---- Orders ----

  /** The index of the item with ID `id`, or the length of the list. */
  ghost function At(order: seq<Placed>, id: int): (r: nat)
    ensures r <= |order|
    ensures r < |order| ==> order[r].opId == id
    ensures forall i | 0 <= i < r :: order[i].opId != id
  {
    if order == [] || order[0].opId == id then 0 else 1 + At(order[1..], id)
  }

  ghost function LeftAt(order: seq<Placed>, i: nat): int
    requires i < |order|
  {
    if order[i].originLeft == -1 then -1 else At(order, order[i].originLeft)
  }

  ghost function RightAt(order: seq<Placed>, i: nat): nat
    requires i < |order|
  {
    if order[i].rightParent == -1 then |order| else At(order, order[i].rightParent)
  }

  /** The tree of a list of items. */
  ghost function TreeOf(order: seq<Placed>): (t: Tree)
    ensures forall id: nat :: id in t <==> InOrder(order, id)
    ensures forall i | 0 <= i < |order| :: order[i].opId in t
  {
    map i | 0 <= i < |order| && At(order, order[i].opId) == i :: order[i].opId := Origins(order[i].originLeft, order[i].rightParent)
  }

  /** Left origins lie to the left and right parents to the right. */
  ghost predicate Inside(order: seq<Placed>) {
    && DistinctOrder(order)
    && (forall i | 0 <= i < |order| :: -1 <= order[i].originLeft && LeftAt(order, i) < i)
    && (forall i | 0 <= i < |order| :: -1 <= order[i].rightParent && i < RightAt(order, i))
    && (forall i | 0 <= i < |order| && order[i].rightParent != -1 :: RightAt(order, i) < |order|)
  }

  /** Between an item and its left origin there is only what hangs off that. */
  ghost predicate LeftNested(order: seq<Placed>) {
    forall i, j | 0 <= j < i < |order| && LeftAt(order, i) < j :: LeftAt(order, i) <= LeftAt(order, j)
  }

  /** Between an item and its right parent, what has the same left origin has a right parent no further right. */
  ghost predicate RightNested(order: seq<Placed>) {
    forall i, j | 0 <= i < j < |order| && j < RightAt(order, i) && LeftAt(order, i) == LeftAt(order, j) :: RightAt(order, j) <= RightAt(order, i)
  }

  /** Items with the same origins are ordered by ID. */
  ghost predicate TiesById(ids: seq<RawVersion>, order: seq<Placed>) {
    forall i, j | 0 <= i < j < |order| && LeftAt(order, i) == LeftAt(order, j) && RightAt(order, i) == RightAt(order, j) ::
      order[i].opId < |ids| && order[j].opId < |ids| && RawLess(ids[order[i].opId], ids[order[j].opId])
  }

  ghost predicate Nested(ids: seq<RawVersion>, order: seq<Placed>) {
    Inside(order) && LeftNested(order) && RightNested(order) && TiesById(ids, order)
  }

  /** The list is in the order of its tree. */
  ghost predicate InTreeOrder(ids: seq<RawVersion>, order: seq<Placed>) {
    ValidTree(ids, TreeOf(order)) &&
    forall i, j | 0 <= i < |order| && 0 <= j < |order| :: TreeLess(ids, TreeOf(order), order[i].opId, order[j].opId) <==> i < j
  }

  lemma {:induction false} AtIs(order: seq<Placed>, i: nat)
    requires DistinctOrder(order) && i < |order|
    ensures At(order, order[i].opId) == i
  {
  }

  lemma {:induction false} TreeAt(order: seq<Placed>, i: nat)
    requires DistinctOrder(order) && i < |order|
    ensures order[i].opId in TreeOf(order) && TreeOf(order)[order[i].opId] == Origins(order[i].originLeft, order[i].rightParent)
  {
    AtIs(order, i);
  }

  /** An item with the same left origin index has the same left origin, and so for right parents. */
  lemma {:induction false} SameOrigins(order: seq<Placed>, i: nat, j: nat)
    requires Inside(order) && i < |order| && j < |order|
    ensures LeftAt(order, i) == LeftAt(order, j) <==> order[i].originLeft == order[j].originLeft
    ensures RightAt(order, i) == RightAt(order, j) <==> order[i].rightParent == order[j].rightParent
    ensures order[i].originLeft != -1 ==> 0 <= LeftAt(order, i) < |order| && order[LeftAt(order, i)].opId == order[i].originLeft
    ensures order[i].rightParent != -1 ==> RightAt(order, i) < |order| && order[RightAt(order, i)].opId == order[i].rightParent
    ensures LeftAt(order, i) == -1 <==> order[i].originLeft == -1
    ensures RightAt(order, i) == |order| <==> order[i].rightParent == -1
  {
  }

  lemma {:induction false} LeftsDecide(order: seq<Placed>, i: nat, j: nat)
    requires Inside(order) && LeftNested(order) && i < |order| && j < |order| && LeftAt(order, i) < LeftAt(order, j)
    ensures i < j <==> i <= LeftAt(order, j)
  {
    hide LeftAt, RightAt, DistinctOrder;
  }

  lemma {:induction false} RightsDecide(order: seq<Placed>, i: nat, j: nat)
    requires Inside(order) && RightNested(order) && i < |order| && j < |order|
    requires LeftAt(order, i) == LeftAt(order, j) && RightAt(order, i) < RightAt(order, j)
    ensures i < j <==> RightAt(order, i) <= j
  {
    hide LeftAt, RightAt, DistinctOrder;
  }

  lemma {:induction false} TiesDecide(ids: seq<RawVersion>, order: seq<Placed>, i: nat, j: nat)
    requires Inside(order) && TiesById(ids, order) && i < |order| && j < |order| && i != j
    requires LeftAt(order, i) == LeftAt(order, j) && RightAt(order, i) == RightAt(order, j) && order[i].opId < |ids| && order[j].opId < |ids|
    ensures i < j <==> RawLess(ids[order[i].opId], ids[order[j].opId])
  {
    hide LeftAt, RightAt, DistinctOrder, RawLess;
    RawLessTotal(ids[order[i].opId], ids[order[j].opId]);
  }

  lemma {:induction false} ItemFacts(ids: seq<RawVersion>, order: seq<Placed>, i: nat)
    requires Inside(order) && ValidTree(ids, TreeOf(order)) && i < |order|
    ensures order[i].opId in TreeOf(order) && order[i].opId < |ids|
    ensures var a, c := LeftAt(order, i), RightAt(order, i); var o := TreeOf(order)[order[i].opId];
            && -1 <= a < i < c <= |order|
            && (if a == -1 then o.left == -1 else order[a].opId == o.left < order[i].opId)
            && (if c == |order| then o.right == -1 else order[c].opId == o.right < order[i].opId)
  {
    hide LeftAt, RightAt;
    TreeAt(order, i);
    SameOrigins(order, i, i);
  }

  lemma {:induction false} ApartIds(order: seq<Placed>, i: nat, j: nat)
    requires Inside(order) && i < |order| && j < |order|
    ensures order[i].opId == order[j].opId <==> i == j
  {
  }

  /** The tree puts the items in the order they are in. */
  lemma {:induction false} NestedCompares(ids: seq<RawVersion>, order: seq<Placed>, i: nat, j: nat)
    requires Nested(ids, order) && ValidTree(ids, TreeOf(order)) && i < |order| && j < |order|
    ensures order[i].opId in TreeOf(order) && order[j].opId in TreeOf(order)
    ensures TreeLess(ids, TreeOf(order), order[i].opId, order[j].opId) <==> i < j
    decreases order[i].opId + order[j].opId, 1
  {
    hide LeftNested, RightNested, TiesById, LeftAt, RightAt, RawLess, TreeOf, Inside, ValidTree;
    ItemFacts(ids, order, i);
    ItemFacts(ids, order, j);
    ApartIds(order, i, j);
    var a, b, c, d := LeftAt(order, i), LeftAt(order, j), RightAt(order, i), RightAt(order, j);
    if i == j {
    } else if a != b {
      NestedLefts(ids, order, i, j);
    } else if c != d {
      NestedRights(ids, order, i, j);
    } else {
      TiesDecide(ids, order, i, j);
    }
  }

  lemma {:induction false} NestedLefts(ids: seq<RawVersion>, order: seq<Placed>, i: nat, j: nat)
    requires Nested(ids, order) && ValidTree(ids, TreeOf(order)) && i < |order| && j < |order| && i != j && LeftAt(order, i) != LeftAt(order, j)
    ensures order[i].opId in TreeOf(order) && order[j].opId in TreeOf(order)
    ensures TreeLess(ids, TreeOf(order), order[i].opId, order[j].opId) <==> i < j
    decreases order[i].opId + order[j].opId, 0
  {
    hide LeftNested, RightNested, TiesById, LeftAt, RightAt, RawLess, TreeOf, Inside, ValidTree;
    ItemFacts(ids, order, i);
    ItemFacts(ids, order, j);
    var a, b := LeftAt(order, i), LeftAt(order, j);
    ApartIds(order, i, j);
    if a != -1 && b != -1 {
      NestedCompares(ids, order, a, b);
      ApartIds(order, a, b);
    }
    if a < b {
      LeftsDecide(order, i, j);
      NestedCompares(ids, order, i, b);
      ApartIds(order, i, b);
    } else {
      LeftsDecide(order, j, i);
      NestedCompares(ids, order, j, a);
      ApartIds(order, j, a);
    }
  }

  lemma {:induction false} NestedRights(ids: seq<RawVersion>, order: seq<Placed>, i: nat, j: nat)
    requires Nested(ids, order) && ValidTree(ids, TreeOf(order)) && i < |order| && j < |order| && i != j
    requires LeftAt(order, i) == LeftAt(order, j) && RightAt(order, i) != RightAt(order, j)
    ensures order[i].opId in TreeOf(order) && order[j].opId in TreeOf(order)
    ensures TreeLess(ids, TreeOf(order), order[i].opId, order[j].opId) <==> i < j
    decreases order[i].opId + order[j].opId, 0
  {
    hide LeftNested, RightNested, TiesById, LeftAt, RightAt, RawLess, TreeOf, Inside, ValidTree;
    ItemFacts(ids, order, i);
    ItemFacts(ids, order, j);
    var c, d := RightAt(order, i), RightAt(order, j);
    ApartIds(order, i, j);
    if c < |order| && d < |order| {
      NestedCompares(ids, order, c, d);
      ApartIds(order, c, d);
    }
    if c < d {
      RightsDecide(order, i, j);
      NestedCompares(ids, order, c, j);
      ApartIds(order, c, j);
    } else {
      RightsDecide(order, j, i);
      NestedCompares(ids, order, d, i);
      ApartIds(order, d, i);
    }
  }

  /** A nested list is in the order of its tree. */
  lemma {:induction false} NestedIsTreeOrder(ids: seq<RawVersion>, order: seq<Placed>)
    requires Nested(ids, order) && ValidTree(ids, TreeOf(order))
    ensures InTreeOrder(ids, order)
  {
    hide Nested, ValidTree, TreeOf, TreeLess;
    forall i, j | 0 <= i < |order| && 0 <= j < |order|
      ensures order[i].opId in TreeOf(order) && order[j].opId in TreeOf(order)
      ensures TreeLess(ids, TreeOf(order), order[i].opId, order[j].opId) <==> i < j
    {
      NestedCompares(ids, order, i, j);
    }
  }
}
