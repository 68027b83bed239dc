/** Where `integrate` puts an insert is its place in the tree, and so every replay keeps the items in
    the order of their tree, whatever is concurrent with what. */
module TreeInsert {
  import opened Dag
  import opened RleGraph
  import opened ListLog
  import opened Items
  import opened Replay
  import opened TreeOrder

  // ---- What the scan has seen ----

  /** A new item with its left origin at index `left` and its right parent at index `right`. */
  datatype Spot = Spot(newId: nat, left: int, right: nat)

  ghost predicate Sibling(order: seq<Placed>, p: Spot, y: nat)
    requires y < |order|
  {
    LeftAt(order, y) == p.left
  }

  /** What the scan can pass: it is missing at the current version, hangs off the left origin, and does not tie
      with the new item and come after it. */
  ghost predicate Passed(items: seq<Item>, order: seq<Placed>, ids: seq<RawVersion>, p: Spot, y: nat)
    requires y < |order| == |items| && p.newId < |ids|
  {
    && items[y].curState == NOT_YET_INSERTED && p.left <= LeftAt(order, y)
    && (Sibling(order, p, y) && RightAt(order, y) == p.right ==>
          order[y].opId < |ids| && !RawLess(ids[p.newId], ids[order[y].opId]))
  }

  /** The last sibling before `k` has a right parent no further left than the new item's. */
  ghost predicate LastNotLeft(order: seq<Placed>, p: Spot, c: nat, k: nat)
    requires k <= |order|
  {
    forall y | c <= y < k && Sibling(order, p, y) && (forall z | y < z < k :: !Sibling(order, p, z)) :: p.right <= RightAt(order, y)
  }

  /** The scan started at `c`, has come to `s`, and would put the item at `k`. */
  ghost predicate Scanned(items: seq<Item>, order: seq<Placed>, ids: seq<RawVersion>, p: Spot, c: nat, k: nat, s: nat)
    requires |order| == |items| && p.newId < |ids|
  {
    && c <= k <= s <= |order|
    && (forall y | c <= y < s :: Passed(items, order, ids, p, y))
    && (forall y | k <= y < s && Sibling(order, p, y) :: RightAt(order, y) < p.right)
    && (k < s ==> Sibling(order, p, k))
    && LastNotLeft(order, p, c, k)
  }

  /** Why the scan ends at `e`. */
  ghost predicate Ends(items: seq<Item>, order: seq<Placed>, ids: seq<RawVersion>, p: Spot, e: nat)
    requires |order| == |items| && p.newId < |ids| && e <= |order|
  {
    || e == |order|
    || items[e].curState != NOT_YET_INSERTED
    || LeftAt(order, e) < p.left
    || (Sibling(order, p, e) && RightAt(order, e) == p.right && order[e].opId < |ids| && RawLess(ids[p.newId], ids[order[e].opId]))
  }

  lemma {:induction false} FoundSame(doc: Doc, v: set<nat>, id: int)
    ensures FindIdx(ViewAt(doc, v), id) == At(doc.order, id)
  {
    assert forall k | 0 <= k < |doc.order| :: ViewAt(doc, v)[k].opId == doc.order[k].opId;
  }

  /** One turn of the scan, by index. */
  lemma {:induction false} DecideMeans(doc: Doc, v: set<nat>, ids: seq<RawVersion>, p: Spot, rightParent: int, s: nat, scanning: bool)
    requires Inside(doc.order) && s < |doc.order| && p.newId < |ids|
    ensures var items := ViewAt(doc, v);
            var d := Decide(items, ids, p.newId, rightParent, p.left, p.right, s, scanning);
            && (d.Stop? ==> Ends(items, doc.order, ids, p, s))
            && (d.Go? ==> Passed(items, doc.order, ids, p, s)
                          && d.scanning == if Sibling(doc.order, p, s) then RightAt(doc.order, s) < p.right else scanning)
  {
    hide RawLess, FindIdx, At, StateAt, EndState;
    var items := ViewAt(doc, v);
    FoundSame(doc, v, items[s].originLeft);
    FoundSame(doc, v, items[s].rightParent);
    SameOrigins(doc.order, s, s);
  }

  lemma {:induction false} ScannedNext(items: seq<Item>, order: seq<Placed>, ids: seq<RawVersion>, p: Spot, c: nat, k: nat, s: nat, scanning: bool)
    requires |order| == |items| && p.newId < |ids| && s < |order| && Scanned(items, order, ids, p, c, k, s)
    requires Passed(items, order, ids, p, s)
    requires scanning == if Sibling(order, p, s) then RightAt(order, s) < p.right else k < s
    ensures Scanned(items, order, ids, p, c, if scanning then k else s + 1, s + 1)
  {
    hide Passed, LeftAt, RightAt;
    if !scanning {
      forall y | c <= y < s + 1 && Sibling(order, p, y) && (forall z | y < z < s + 1 :: !Sibling(order, p, z))
        ensures p.right <= RightAt(order, y)
      {
        if y < s { assert !Sibling(order, p, s); }
      }
    }
  }

  /** Where the scan ends up, and why. */
  lemma {:induction false} ScanMeans(doc: Doc, v: set<nat>, ids: seq<RawVersion>, p: Spot, rightParent: int, c: nat, k: nat, s: nat) returns (e: nat)
    requires Inside(doc.order) && p.newId < |ids| && Scanned(ViewAt(doc, v), doc.order, ids, p, c, k, s)
    requires Scan(ViewAt(doc, v), ids, p.newId, rightParent, p.left, p.right, s, k, k < s).Some?
    ensures var r := Scan(ViewAt(doc, v), ids, p.newId, rightParent, p.left, p.right, s, k, k < s).value;
            e <= |doc.order| && Scanned(ViewAt(doc, v), doc.order, ids, p, c, r, e) && Ends(ViewAt(doc, v), doc.order, ids, p, e)
    decreases |doc.order| - s
  {
    hide ViewAt, Scanned, Passed, Ends, Decide, Inside, Sibling, LeftAt, RightAt;
    var items := ViewAt(doc, v);
    ScannedBounds(items, doc.order, ids, p, c, k, s);
    if s == |doc.order| {
      e := s;
      EndOfList(items, doc.order, ids, p);
    } else {
      var d := Decide(items, ids, p.newId, rightParent, p.left, p.right, s, k < s);
      DecideMeans(doc, v, ids, p, rightParent, s, k < s);
      if d.Stop? {
        e := s;
      } else {
        ScannedNext(items, doc.order, ids, p, c, k, s, d.scanning);
        var k' := if d.scanning then k else s + 1;
        assert d.scanning == (k' < s + 1);
        e := ScanMeans(doc, v, ids, p, rightParent, c, k', s + 1);
      }
    }
  }

  lemma {:induction false} ScannedBounds(items: seq<Item>, order: seq<Placed>, ids: seq<RawVersion>, p: Spot, c: nat, k: nat, s: nat)
    requires |order| == |items| && p.newId < |ids| && Scanned(items, order, ids, p, c, k, s)
    ensures c <= k <= s <= |order|
  {
  }

  lemma {:induction false} EndOfList(items: seq<Item>, order: seq<Placed>, ids: seq<RawVersion>, p: Spot)
    requires |order| == |items| && p.newId < |ids|
    ensures Ends(items, order, ids, p, |order|)
  {
  }

  // ---- The place of an insert ----

  /** The left origin of an item that is present is present. */
  ghost predicate OriginsPresent(items: seq<Item>, order: seq<Placed>)
    requires |items| == |order|
  {
    forall i | 0 <= i < |order| && items[i].curState != NOT_YET_INSERTED && 0 <= LeftAt(order, i) < |order| ::
      items[LeftAt(order, i)].curState != NOT_YET_INSERTED
  }

  /** What an insert with its cursor at `c` asks for: its left origin is right before the cursor, and its right
      parent is the next item present, if that has the same left origin. */
  ghost predicate Asks(items: seq<Item>, order: seq<Placed>, ids: seq<RawVersion>, p: Spot, c: nat)
    requires |items| == |order|
  {
    && c <= |order| && p.newId < |ids| && p.left == c - 1
    && (var x := NextSettled(items, c);
        p.right == if x < |order| && LeftAt(order, x) == p.left then x else |order|)
    && (forall y | 0 <= y < |order| :: order[y].opId < |ids| && ids[order[y].opId] != ids[p.newId])
  }

  /** The setting of a finished scan. */
  ghost predicate Found(items: seq<Item>, order: seq<Placed>, ids: seq<RawVersion>, p: Spot, c: nat, k: nat, e: nat) {
    && |items| == |order| && Nested(ids, order) && OriginsPresent(items, order) && Asks(items, order, ids, p, c)
    && Scanned(items, order, ids, p, c, k, e) && Ends(items, order, ids, p, e)
  }

  lemma {:induction false} NoneSettled(items: seq<Item>, c: nat, e: nat)
    requires c <= e <= |items| && forall y | c <= y < e :: items[y].curState == NOT_YET_INSERTED
    ensures e <= NextSettled(items, c)
    decreases e - c
  {
    if c < e { NoneSettled(items, c + 1, e); }
  }

  /** Everything between the cursor and where the scan ends is missing. */
  lemma {:induction false} MissingUpTo(items: seq<Item>, order: seq<Placed>, ids: seq<RawVersion>, p: Spot, c: nat, k: nat, e: nat)
    requires Found(items, order, ids, p, c, k, e)
    ensures c <= k <= e <= NextSettled(items, c) && k <= p.right
    ensures forall y | c <= y < e :: items[y].curState == NOT_YET_INSERTED
    ensures e < |order| && items[e].curState != NOT_YET_INSERTED ==> e == NextSettled(items, c)
  {
    hide Nested, OriginsPresent, LeftAt, RightAt, Ends, LastNotLeft, Sibling;
    forall y | c <= y < e
      ensures items[y].curState == NOT_YET_INSERTED
    {
      assert Passed(items, order, ids, p, y);
    }
    NoneSettled(items, c, e);
  }

  lemma {:induction false} PresentLeft(items: seq<Item>, order: seq<Placed>, i: nat)
    requires |items| == |order| && OriginsPresent(items, order) && i < |order| && LeftAt(order, i) < |order|
    ensures items[i].curState != NOT_YET_INSERTED && 0 <= LeftAt(order, i) ==> items[LeftAt(order, i)].curState != NOT_YET_INSERTED
  {
  }

  /** At the end of the scan, an item that does not stop it by its ID does not hang off what was passed. */
  lemma {:induction false} EndNotInside(items: seq<Item>, order: seq<Placed>, ids: seq<RawVersion>, p: Spot, c: nat, k: nat, e: nat)
    requires Found(items, order, ids, p, c, k, e) && e < |order|
    ensures LeftAt(order, e) < c
  {
    hide Nested, Scanned, LeftAt, RightAt;
    MissingUpTo(items, order, ids, p, c, k, e);
    LeftBefore(ids, order, e);
    PresentLeft(items, order, e);
  }

  lemma {:induction false} LeftBefore(ids: seq<RawVersion>, order: seq<Placed>, i: nat)
    requires Nested(ids, order) && i < |order|
    ensures -1 <= LeftAt(order, i) < i < RightAt(order, i) <= |order|
  {
  }

  /** Nothing after the new item hangs off what it was put behind. */
  lemma {:induction false} NotSplit(items: seq<Item>, order: seq<Placed>, ids: seq<RawVersion>, p: Spot, c: nat, k: nat, e: nat, x: nat)
    requires Found(items, order, ids, p, c, k, e) && k <= x < |order|
    ensures LeftAt(order, x) < c || k <= LeftAt(order, x)
  {
    hide Inside, RightNested, TiesById, LeftAt, RightAt, Ends, LastNotLeft, OriginsPresent, Asks;
    MissingUpTo(items, order, ids, p, c, k, e);
    assert p.left == c - 1 by { AsksLeft(items, order, ids, p, c); }
    if k == e { EndNotInside(items, order, ids, p, c, k, e); }
    assert k < |order| && LeftAt(order, k) < c;
  }

  lemma {:induction false} AsksLeft(items: seq<Item>, order: seq<Placed>, ids: seq<RawVersion>, p: Spot, c: nat)
    requires |items| == |order| && Asks(items, order, ids, p, c)
    ensures p.left == c - 1
  {
  }

  /** Between the new item and its right parent, its siblings have right parents no further right. */
  lemma {:induction false} NestedInside(items: seq<Item>, order: seq<Placed>, ids: seq<RawVersion>, p: Spot, c: nat, k: nat, e: nat, y: nat)
    requires Found(items, order, ids, p, c, k, e) && k <= y < |order| && y < p.right && Sibling(order, p, y)
    ensures RightAt(order, y) <= p.right
  {
    hide Inside, TiesById, LeftAt, RightAt, LastNotLeft, OriginsPresent, Passed;
    LeftBefore(ids, order, y);
    if p.right < |order| && e <= y {
      MissingUpTo(items, order, ids, p, c, k, e);
    }
  }

  /** The last sibling from `x` up to `k`. */
  lemma {:induction false} LastSibling(order: seq<Placed>, p: Spot, x: nat, k: nat) returns (y: nat)
    requires x < k <= |order| && Sibling(order, p, x)
    ensures x <= y < k && Sibling(order, p, y) && forall z | y < z < k :: !Sibling(order, p, z)
    decreases k
  {
    hide Sibling;
    if Sibling(order, p, k - 1) {
      y := k - 1;
    } else {
      y := LastSibling(order, p, x, k - 1);
    }
  }

  /** A sibling before the new item with its right parent after it has it no further left than the new item's. */
  lemma {:induction false} NestedOutside(items: seq<Item>, order: seq<Placed>, ids: seq<RawVersion>, p: Spot, c: nat, k: nat, e: nat, x: nat)
    requires Found(items, order, ids, p, c, k, e) && x < k && k <= RightAt(order, x) && Sibling(order, p, x)
    ensures p.right <= RightAt(order, x)
  {
    hide Inside, TiesById, LeftAt, RightAt, OriginsPresent, Passed, Ends, LeftNested;
    LeftBefore(ids, order, x);
    MissingUpTo(items, order, ids, p, c, k, e);
    AsksLeft(items, order, ids, p, c);
    var y := LastSibling(order, p, x, k);
  }

  /** Siblings with the same right parent that come before the new item have smaller IDs. */
  lemma {:induction false} TiesBefore(items: seq<Item>, order: seq<Placed>, ids: seq<RawVersion>, p: Spot, c: nat, k: nat, e: nat, y: nat)
    requires Found(items, order, ids, p, c, k, e) && y < k && Sibling(order, p, y) && RightAt(order, y) == p.right
    ensures order[y].opId < |ids| && RawLess(ids[order[y].opId], ids[p.newId])
  {
    hide Inside, TiesById, LeftAt, RightAt, OriginsPresent, Ends, LeftNested, RightNested, LastNotLeft, RawLess;
    LeftBefore(ids, order, y);
    MissingUpTo(items, order, ids, p, c, k, e);
    AsksLeft(items, order, ids, p, c);
    assert Passed(items, order, ids, p, y);
    RawLessTotal(ids[order[y].opId], ids[p.newId]);
  }

  /** Siblings with the same right parent that come after the new item have larger IDs. */
  lemma {:induction false} TiesAfter(items: seq<Item>, order: seq<Placed>, ids: seq<RawVersion>, p: Spot, c: nat, k: nat, e: nat, y: nat)
    requires Found(items, order, ids, p, c, k, e) && k <= y < |order| && Sibling(order, p, y) && RightAt(order, y) == p.right
    ensures order[y].opId < |ids| && RawLess(ids[p.newId], ids[order[y].opId])
  {
    hide Inside, LeftAt, RightAt, OriginsPresent, LastNotLeft, RawLess, Passed;
    LeftBefore(ids, order, y);
    MissingUpTo(items, order, ids, p, c, k, e);
    AsksLeft(items, order, ids, p, c);
    assert e <= y;
    EndNotInside(items, order, ids, p, c, k, e);
    if e < y && Sibling(order, p, e) && RightAt(order, e) == p.right && order[e].opId < |ids| && RawLess(ids[p.newId], ids[order[e].opId]) {
      RawLessTransitive(ids[p.newId], ids[order[e].opId], ids[order[y].opId]);
    }
  }

  /** The new item may be put at `k` without breaking up what is there. */
  ghost predicate Placeable(ids: seq<RawVersion>, order: seq<Placed>, p: Spot, k: nat) {
    && p.newId < |ids| && -1 <= p.left < k <= p.right <= |order| && k <= |order|
    && (forall y | p.left < y < k :: p.left <= LeftAt(order, y))
    && (forall x | k <= x < |order| :: LeftAt(order, x) <= p.left || k <= LeftAt(order, x))
    && (forall y | k <= y < |order| && y < p.right && Sibling(order, p, y) :: RightAt(order, y) <= p.right)
    && (forall x | 0 <= x < k && k <= RightAt(order, x) && Sibling(order, p, x) :: p.right <= RightAt(order, x))
    && (forall y | 0 <= y < k && Sibling(order, p, y) && RightAt(order, y) == p.right ::
          order[y].opId < |ids| && RawLess(ids[order[y].opId], ids[p.newId]))
    && (forall y | k <= y < |order| && Sibling(order, p, y) && RightAt(order, y) == p.right ::
          order[y].opId < |ids| && RawLess(ids[p.newId], ids[order[y].opId]))
  }

  lemma {:induction false} FoundPlaceable(items: seq<Item>, order: seq<Placed>, ids: seq<RawVersion>, p: Spot, c: nat, k: nat, e: nat)
    requires Found(items, order, ids, p, c, k, e)
    ensures Placeable(ids, order, p, k)
  {
    hide Nested, OriginsPresent, LeftAt, RightAt, Ends, LastNotLeft, Sibling, RawLess;
    MissingUpTo(items, order, ids, p, c, k, e);
    AsksRight(items, order, ids, p, c);
    forall y | c <= y < k ensures p.left <= LeftAt(order, y) {
      assert Passed(items, order, ids, p, y);
    }
    forall x | k <= x < |order| ensures LeftAt(order, x) <= p.left || k <= LeftAt(order, x) {
      NotSplit(items, order, ids, p, c, k, e, x);
    }
    forall y | k <= y < |order| && y < p.right && Sibling(order, p, y) ensures RightAt(order, y) <= p.right {
      NestedInside(items, order, ids, p, c, k, e, y);
    }
    forall x | 0 <= x < k && k <= RightAt(order, x) && Sibling(order, p, x) ensures p.right <= RightAt(order, x) {
      NestedOutside(items, order, ids, p, c, k, e, x);
    }
    forall y | 0 <= y < k && Sibling(order, p, y) && RightAt(order, y) == p.right
      ensures order[y].opId < |ids| && RawLess(ids[order[y].opId], ids[p.newId])
    {
      TiesBefore(items, order, ids, p, c, k, e, y);
    }
    forall y | k <= y < |order| && Sibling(order, p, y) && RightAt(order, y) == p.right
      ensures order[y].opId < |ids| && RawLess(ids[p.newId], ids[order[y].opId])
    {
      TiesAfter(items, order, ids, p, c, k, e, y);
    }
  }

  lemma {:induction false} AsksRight(items: seq<Item>, order: seq<Placed>, ids: seq<RawVersion>, p: Spot, c: nat)
    requires |items| == |order| && Asks(items, order, ids, p, c)
    ensures p.left == c - 1 && p.right <= |order| && c <= |order| && p.newId < |ids|
  {
    hide LeftAt;
  }

  // ---- One more item ----

  /** Where what was at `i` is, once something has been put in at `k`. */
  function Shift(k: nat, i: int): int {
    if i < k then i else i + 1
  }

  function Unshift(k: nat, i: nat): (r: nat)
    ensures i != k ==> Shift(k, r) == i && (i > k ==> r >= k) && (i < k ==> r < k)
  {
    if i <= k then i else i - 1
  }

  /** The new item, by its origins. */
  ghost predicate IsNode(order: seq<Placed>, p: Spot, node: Placed)
    requires -1 <= p.left < |order| && p.right <= |order|
  {
    && node.opId == p.newId && !InOrder(order, p.newId)
    && node.originLeft == (if p.left == -1 then -1 else order[p.left].opId)
    && node.rightParent == (if p.right == |order| then -1 else order[p.right].opId)
  }

  lemma {:induction false} AtWith(order: seq<Placed>, k: nat, node: Placed, id: int)
    requires DistinctOrder(order) && k <= |order| && !InOrder(order, node.opId) && id != node.opId
    ensures At(OrderWith(order, k, node), id) == Shift(k, At(order, id))
  {
    var order', i := OrderWith(order, k, node), At(order, id);
    forall j | 0 <= j < |order'|
      ensures order'[j].opId == id <==> i < |order| && j == Shift(k, i)
    {
      if j != k { assert order'[j] == order[Unshift(k, j)]; }
    }
    if i < |order| { assert order'[Shift(k, i)].opId == id; }
  }

  lemma {:induction false} NotNew(order: seq<Placed>, i: nat, id: int)
    requires i < |order| && !InOrder(order, id)
    ensures order[i].opId != id
  {
  }

  lemma {:induction false} MovedAlong(order: seq<Placed>, k: nat, node: Placed, i: nat)
    requires k <= |order| && i < |order|
    ensures |OrderWith(order, k, node)| == |order| + 1 && OrderWith(order, k, node)[Shift(k, i)] == order[i]
  {
  }

  /** Origins move along. */
  lemma {:induction false} OriginsWith(order: seq<Placed>, k: nat, node: Placed, i: nat)
    requires Inside(order) && k <= |order| && !InOrder(order, node.opId) && i < |order|
    ensures var order' := OrderWith(order, k, node);
            && |order'| == |order| + 1 && order'[Shift(k, i)] == order[i]
            && LeftAt(order', Shift(k, i)) == Shift(k, LeftAt(order, i)) && RightAt(order', Shift(k, i)) == Shift(k, RightAt(order, i))
  {
    hide At, DistinctOrder, OrderWith, InOrder;
    SameOrigins(order, i, i);
    MovedAlong(order, k, node, i);
    if order[i].originLeft != -1 {
      NotNew(order, LeftAt(order, i), node.opId);
      AtWith(order, k, node, order[i].originLeft);
    }
    if order[i].rightParent != -1 {
      NotNew(order, RightAt(order, i), node.opId);
      AtWith(order, k, node, order[i].rightParent);
    }
  }

  lemma {:induction false} NodeWith(order: seq<Placed>, k: nat, p: Spot, node: Placed)
    requires Inside(order) && k <= |order| && -1 <= p.left < k <= p.right <= |order| && IsNode(order, p, node)
    ensures var order' := OrderWith(order, k, node);
            |order'| == |order| + 1 && order'[k] == node && LeftAt(order', k) == p.left && RightAt(order', k) == p.right + 1
  {
    hide At;
    if p.left != -1 {
      AtIs(order, p.left);
      AtWith(order, k, node, order[p.left].opId);
    }
    if p.right < |order| {
      AtIs(order, p.right);
      AtWith(order, k, node, order[p.right].opId);
    }
  }

  /** An order with another item in it, index by index. */
  ghost predicate Grown(order: seq<Placed>, order': seq<Placed>, k: nat, p: Spot) {
    && |order'| == |order| + 1 && k <= |order|
    && (forall i | 0 <= i < |order| :: Shift(k, i) < |order'| && order'[Shift(k, i)] == order[i] && LeftAt(order', Shift(k, i)) == Shift(k, LeftAt(order, i))
                                       && RightAt(order', Shift(k, i)) == Shift(k, RightAt(order, i)))
    && order'[k].opId == p.newId && LeftAt(order', k) == p.left && RightAt(order', k) == p.right + 1
  }

  lemma {:induction false} OrderGrows(ids: seq<RawVersion>, order: seq<Placed>, k: nat, p: Spot, node: Placed)
    requires Inside(order) && Placeable(ids, order, p, k) && IsNode(order, p, node)
    ensures Grown(order, OrderWith(order, k, node), k, p)
  {
    hide At, Inside, LeftAt, RightAt, OrderWith, IsNode;
    NodeFresh(order, p, node);
    NodeWith(order, k, p, node);
    forall i | 0 <= i < |order|
      ensures var order' := OrderWith(order, k, node);
              Shift(k, i) < |order'| && order'[Shift(k, i)] == order[i] && LeftAt(order', Shift(k, i)) == Shift(k, LeftAt(order, i))
              && RightAt(order', Shift(k, i)) == Shift(k, RightAt(order, i))
    {
      OriginsWith(order, k, node, i);
    }
  }

  lemma {:induction false} NodeFresh(order: seq<Placed>, p: Spot, node: Placed)
    requires -1 <= p.left < |order| && p.right <= |order| && IsNode(order, p, node)
    ensures node.opId == p.newId && !InOrder(order, node.opId)
  {
  }

  /** What an item that is not the new one was before. */
  lemma {:induction false} Back(order: seq<Placed>, order': seq<Placed>, k: nat, p: Spot, i: nat) returns (i0: nat)
    requires Grown(order, order', k, p) && i < |order'| && i != k
    ensures i0 < |order| && i == Shift(k, i0) && order'[i] == order[i0]
    ensures LeftAt(order', i) == Shift(k, LeftAt(order, i0)) && RightAt(order', i) == Shift(k, RightAt(order, i0))
  {
    hide LeftAt, RightAt;
    i0 := Unshift(k, i);
  }

  lemma {:induction false} NewOne(order: seq<Placed>, order': seq<Placed>, k: nat, p: Spot)
    requires Grown(order, order', k, p)
    ensures |order'| == |order| + 1 && k <= |order| && order'[k].opId == p.newId && LeftAt(order', k) == p.left && RightAt(order', k) == p.right + 1
  {
  }

  lemma {:induction false} LeftNestedWith(ids: seq<RawVersion>, order: seq<Placed>, order': seq<Placed>, k: nat, p: Spot)
    requires Inside(order) && LeftNested(order) && Placeable(ids, order, p, k) && Grown(order, order', k, p)
    ensures LeftNested(order')
  {
    hide LeftAt, RightAt, DistinctOrder, RawLess, Grown;
    NewOne(order, order', k, p);
    forall i, j | 0 <= j < i < |order'| && LeftAt(order', i) < j
      ensures LeftAt(order', i) <= LeftAt(order', j)
    {
      if i == k {
        var j0 := Back(order, order', k, p, j);
      } else if j == k {
        var i0 := Back(order, order', k, p, i);
      } else {
        var i0 := Back(order, order', k, p, i);
        var j0 := Back(order, order', k, p, j);
      }
    }
  }

  lemma {:induction false} RightNestedWith(ids: seq<RawVersion>, order: seq<Placed>, order': seq<Placed>, k: nat, p: Spot)
    requires Inside(order) && RightNested(order) && Placeable(ids, order, p, k) && Grown(order, order', k, p)
    ensures RightNested(order')
  {
    hide LeftAt, RightAt, DistinctOrder, RawLess, Grown;
    NewOne(order, order', k, p);
    forall i, j | 0 <= i < j < |order'| && j < RightAt(order', i) && LeftAt(order', i) == LeftAt(order', j)
      ensures RightAt(order', j) <= RightAt(order', i)
    {
      if i == k {
        var j0 := Back(order, order', k, p, j);
      } else if j == k {
        var i0 := Back(order, order', k, p, i);
      } else {
        var i0 := Back(order, order', k, p, i);
        var j0 := Back(order, order', k, p, j);
      }
    }
  }

  lemma {:induction false} TiesByIdWith(ids: seq<RawVersion>, order: seq<Placed>, order': seq<Placed>, k: nat, p: Spot)
    requires Inside(order) && TiesById(ids, order) && Placeable(ids, order, p, k) && Grown(order, order', k, p)
    ensures TiesById(ids, order')
  {
    hide LeftAt, RightAt, DistinctOrder, RawLess, Grown;
    NewOne(order, order', k, p);
    forall i, j | 0 <= i < j < |order'| && LeftAt(order', i) == LeftAt(order', j) && RightAt(order', i) == RightAt(order', j)
      ensures order'[i].opId < |ids| && order'[j].opId < |ids| && RawLess(ids[order'[i].opId], ids[order'[j].opId])
    {
      if i == k {
        var j0 := Back(order, order', k, p, j);
        assert Sibling(order, p, j0);
      } else if j == k {
        var i0 := Back(order, order', k, p, i);
        assert Sibling(order, p, i0);
      } else {
        var i0 := Back(order, order', k, p, i);
        var j0 := Back(order, order', k, p, j);
      }
    }
  }

  lemma {:induction false} InsideWith(ids: seq<RawVersion>, order: seq<Placed>, k: nat, p: Spot, node: Placed)
    requires Inside(order) && Placeable(ids, order, p, k) && IsNode(order, p, node) && Grown(order, OrderWith(order, k, node), k, p)
    ensures Inside(OrderWith(order, k, node))
  {
    hide LeftAt, RightAt, RawLess, OrderWith, Grown, DistinctOrder, Placeable;
    PlaceBounds(ids, order, p, k);
    var order' := OrderWith(order, k, node);
    NewOne(order, order', k, p);
    NodeWith(order, k, p, node);
    KeepsIds(order, k, node);
    forall i | 0 <= i < |order'|
      ensures -1 <= order'[i].originLeft && LeftAt(order', i) < i
      ensures -1 <= order'[i].rightParent && i < RightAt(order', i) && (order'[i].rightParent != -1 ==> RightAt(order', i) < |order'|)
    {
      if i != k {
        var i0 := Back(order, order', k, p, i);
        SameOrigins(order, i0, i0);
      }
    }
  }

  lemma {:induction false} PlaceBounds(ids: seq<RawVersion>, order: seq<Placed>, p: Spot, k: nat)
    requires Placeable(ids, order, p, k)
    ensures -1 <= p.left < k <= p.right <= |order| && k <= |order|
  {
  }

  /** An item put in its place keeps the order that of its tree. */
  lemma {:induction false} NestedWith(ids: seq<RawVersion>, order: seq<Placed>, k: nat, p: Spot, node: Placed)
    requires Nested(ids, order) && Placeable(ids, order, p, k) && IsNode(order, p, node)
    ensures k <= |order| && Nested(ids, OrderWith(order, k, node))
  {
    hide Inside, LeftNested, RightNested, TiesById, Placeable, Grown, OrderWith, IsNode;
    PlaceBounds(ids, order, p, k);
    OrderGrows(ids, order, k, p, node);
    var order' := OrderWith(order, k, node);
    InsideWith(ids, order, k, p, node);
    LeftNestedWith(ids, order, order', k, p);
    RightNestedWith(ids, order, order', k, p);
    TiesByIdWith(ids, order, order', k, p);
  }

  // ---- Every replay ----

  /** Whoever inserted the item had seen what it refers to. */
  ghost predicate OriginsSeen<T>(log: Log<T>, order: seq<Placed>)
    requires ValidLog(log)
  {
    forall i | 0 <= i < |order| ::
      var p := order[i];
      && p.opId < |log.g| && InGraph(log.g, log.g[p.opId])
      && (p.originLeft == -1 || (0 <= p.originLeft && p.originLeft in Hist(log.g, log.g[p.opId])))
      && (p.rightParent == -1 || (0 <= p.rightParent && p.rightParent in Hist(log.g, log.g[p.opId])))
  }

  /** The items of a replay without placeholders, in their order. */
  ghost predicate TreeKept<T>(log: Log<T>, doc: Doc) {
    ValidLog(log) && OriginsSeen(log, doc.order) && Nested(log.ids, doc.order)
  }

  lemma {:induction false} EarlierThan(g: Graph, x: nat, y: nat)
    requires WellFormed(g) && x < |g| && InGraph(g, g[x]) && y in Hist(g, g[x])
    ensures y < x
  {
    var p :| p in g[x] && Reaches(g, p, y);
    ReachesLower(g, p, y);
  }

  /** What an item refers to is in the tree, and earlier. */
  lemma {:induction false} TreeIsValid<T>(log: Log<T>, doc: Doc)
    requires TreeKept(log, doc)
    ensures ValidTree(log.ids, TreeOf(doc.order))
  {
    hide LeftNested, RightNested, TiesById, LeftAt, RightAt, Hist, TreeOf;
    var t := TreeOf(doc.order);
    forall x | x in t
      ensures x < |log.ids| && Below(t, t[x].left, x) && Below(t, t[x].right, x)
    {
      var i :| 0 <= i < |doc.order| && doc.order[i].opId == x;
      TreeAt(doc.order, i);
      SameOrigins(doc.order, i, i);
      if t[x].left != -1 { EarlierThan(log.g, x, t[x].left); }
      if t[x].right != -1 { EarlierThan(log.g, x, t[x].right); }
    }
  }

  lemma {:induction false} SeenPresent<T>(log: Log<T>, doc: Doc, v: set<nat>)
    requires TreeKept(log, doc) && Closed(log.g, v)
    ensures OriginsPresent(ViewAt(doc, v), doc.order)
  {
    hide LeftNested, RightNested, TiesById, LeftAt, RightAt, Hist, DeletesOf;
    var items := ViewAt(doc, v);
    forall i | 0 <= i < |doc.order| && items[i].curState != NOT_YET_INSERTED && 0 <= LeftAt(doc.order, i) < |doc.order|
      ensures items[LeftAt(doc.order, i)].curState != NOT_YET_INSERTED
    {
      SameOrigins(doc.order, i, i);
      var x := doc.order[i].opId;
      assert x in v;
      HistLeast(log.g, log.g[x], v);
    }
  }

  /** The index of the right parent that an insert at `c` gets. */
  ghost function RightSpot(items: seq<Item>, order: seq<Placed>, c: nat): nat
    requires c <= |items| == |order|
  {
    var x := NextSettled(items, c);
    if x < |order| && LeftAt(order, x) == c - 1 then x else |order|
  }

  lemma {:induction false} RightSpotIs(doc: Doc, v: set<nat>, c: nat)
    requires Inside(doc.order) && c <= |doc.order|
    ensures var items := ViewAt(doc, v);
            var left := if c == 0 then -1 else doc.order[c - 1].opId;
            var r := RightSpot(items, doc.order, c);
            && RightParentAt(items, c, left) == (if r == |doc.order| then -1 else doc.order[r].opId)
            && (if RightParentAt(items, c, left) == -1 then |items| else FindIdx(items, RightParentAt(items, c, left))) == r
            && c <= r <= |doc.order|
            && (r < |doc.order| ==> items[r].curState != NOT_YET_INSERTED)
  {
    hide StateAt, EndState, At, FindIdx, DistinctOrder, LeftAt, RightAt;
    var items := ViewAt(doc, v);
    var x := NextSettled(items, c);
    if x < |doc.order| {
      SameOrigins(doc.order, x, x);
      LeftIs(doc.order, x, c);
      FoundSame(doc, v, doc.order[x].opId);
      AtIs(doc.order, x);
    }
  }

  lemma {:induction false} LeftIs(order: seq<Placed>, x: nat, c: nat)
    requires Inside(order) && x < |order| && c <= |order|
    ensures LeftAt(order, x) == c - 1 <==> order[x].originLeft == if c == 0 then -1 else order[c - 1].opId
  {
    SameOrigins(order, x, x);
    if c > 0 { AtIs(order, c - 1); }
  }

  /** `integrate` ends at a place where the new item may be put. */
  lemma {:induction false} IntegrateFinds(doc: Doc, v: set<nat>, ids: seq<RawVersion>, lv: nat, c: nat) returns (e: nat)
    requires Nested(ids, doc.order) && OriginsPresent(ViewAt(doc, v), doc.order) && c <= |doc.order| && lv < |ids|
    requires forall y | 0 <= y < |doc.order| :: doc.order[y].opId < |ids| && ids[doc.order[y].opId] != ids[lv]
    requires var left := if c == 0 then -1 else doc.order[c - 1].opId;
             Integrate(ViewAt(doc, v), ids, lv, RightParentAt(ViewAt(doc, v), c, left), c).Some?
    ensures var left := if c == 0 then -1 else doc.order[c - 1].opId;
            var k := Integrate(ViewAt(doc, v), ids, lv, RightParentAt(ViewAt(doc, v), c, left), c).value;
            Found(ViewAt(doc, v), doc.order, ids, Spot(lv, c - 1, RightSpot(ViewAt(doc, v), doc.order, c)), c, k, e)
  {
    hide ViewAt, Inside, LeftNested, RightNested, TiesById, OriginsPresent, LeftAt, RightAt, Scan, RightParentAt, FindIdx;
    var items := ViewAt(doc, v);
    var left := if c == 0 then -1 else doc.order[c - 1].opId;
    var p := Spot(lv, c - 1, RightSpot(items, doc.order, c));
    RightSpotIs(doc, v, c);
    if c == |items| || items[c].curState != NOT_YET_INSERTED {
      e := c;
    } else {
      e := ScanMeans(doc, v, ids, p, RightParentAt(items, c, left), c, c, c);
    }
  }

  /** An insert goes to its place in the tree. */
  lemma {:induction false} InsertKeepsTree<T>(log: Log<T>, done: set<nat>, doc: Doc, lv: nat)
    requires Replayed(log, {}, done, doc) && TreeKept(log, doc) && UniqueIds(log) && lv < |log.g| && lv !in done
    requires log.ops[lv].Ins? && InGraph(log.g, log.g[lv]) && DocApply(log, doc, lv).Some?
    ensures TreeKept(log, DocApply(log, doc, lv).value.0)
  {
    hide ViewAt, Nested, OriginsPresent, LeftAt, RightAt, Integrate, RightParentAt, CursorAt, Hist, OriginsSeen, OriginsOrdered, Visible, EndVisible, OrderWith, Found, Closed, TargetsMatch;
    var v := Hist(log.g, log.g[lv]);
    var items := ViewAt(doc, v);
    var c: nat := CursorAt(items, log.ops[lv].pos).value;
    var node := NewPlaced(log, doc, lv, c);
    NodeIs(log, doc, lv, c);
    var k := Integrate(items, log.ids, lv, node.rightParent, c).value;
    HistClosed(log.g, log.g[lv]);
    SeenPresent(log, doc, v);
    OthersUnlike(log, done, doc, lv);
    var e := IntegrateFinds(doc, v, log.ids, lv, c);
    var left: int := c as int - 1;
    var p := Spot(lv, left, RightSpot(items, doc.order, c));
    FoundPlaceable(items, doc.order, log.ids, p, c, k, e);
    PlaceBounds(log.ids, doc.order, p, k);
    InsertApplies(log, doc, lv, c, k);
    NestedInsideOrder(log.ids, doc.order);
    RightSpotIs(doc, v, c);
    NestedWith(log.ids, doc.order, k, p, node);
    NewSeen(log, doc, lv, c, k);
  }

  lemma {:induction false} NestedInsideOrder(ids: seq<RawVersion>, order: seq<Placed>)
    requires Nested(ids, order)
    ensures Inside(order)
  {
  }

  lemma {:induction false} NodeIs<T>(log: Log<T>, doc: Doc, lv: nat, c: nat)
    requires ValidLog(log) && lv < |log.g| && InGraph(log.g, log.g[lv]) && c <= |doc.order|
    ensures var items := ViewAt(doc, Hist(log.g, log.g[lv]));
            var left := if c == 0 then -1 else doc.order[c - 1].opId;
            NewPlaced(log, doc, lv, c) == Placed(lv, left, RightParentAt(items, c, left))
  {
    hide RightParentAt, Hist;
  }

  lemma {:induction false} OthersUnlike<T>(log: Log<T>, done: set<nat>, doc: Doc, lv: nat)
    requires Replayed(log, {}, done, doc) && TreeKept(log, doc) && UniqueIds(log) && lv < |log.g| && lv !in done
    ensures !InOrder(doc.order, lv)
    ensures forall y | 0 <= y < |doc.order| :: doc.order[y].opId < |log.ids| && log.ids[doc.order[y].opId] != log.ids[lv]
  {
    hide Nested, Hist, OriginsOrdered, TargetsMatch, Closed;
    forall y | 0 <= y < |doc.order|
      ensures doc.order[y].opId < |log.ids| && doc.order[y].opId != lv && log.ids[doc.order[y].opId] != log.ids[lv]
    {
      assert doc.order[y].opId in done;
    }
  }

  /** The author of an insert has seen the items it refers to. */
  lemma {:induction false} NewSeen<T>(log: Log<T>, doc: Doc, lv: nat, c: nat, k: nat)
    requires TreeKept(log, doc) && lv < |log.g| && InGraph(log.g, log.g[lv]) && c <= |doc.order| && k <= |doc.order|
    requires c > 0 ==> ViewAt(doc, Hist(log.g, log.g[lv]))[c - 1].curState == INSERTED
    ensures OriginsSeen(log, OrderWith(doc.order, k, NewPlaced(log, doc, lv, c)))
  {
    hide Nested, LeftAt, RightAt, DeletesOf;
    var v := Hist(log.g, log.g[lv]);
    var items := ViewAt(doc, v);
    var node := NewPlaced(log, doc, lv, c);
    var x := NextSettled(items, c);
    if c > 0 { assert doc.order[c - 1].opId in v; }
    if x < |items| { assert doc.order[x].opId in v; }
    var order' := OrderWith(doc.order, k, node);
    forall i | 0 <= i < |order'|
      ensures order'[i] == node || exists j :: 0 <= j < |doc.order| && doc.order[j] == order'[i]
    {
      if i != k { assert doc.order[Unshift(k, i)] == order'[i]; }
    }
  }
}
