/** Lists of items as the replay keeps them: where positions fall, and where an insert goes. */
module Items {
  import opened RleGraph
  import opened ListLog

  const NOT_YET_INSERTED: int := -1
  const INSERTED: int := 0
  const DELETED: int := 1

  /** `originLeft` and `rightParent` are item IDs, or -1 for the ends of the document. */
  datatype Item = Item(opId: nat, curState: int, endState: int, originLeft: int, rightParent: int)

  /** IDs of the items visible at the current version, in order. */
  ghost function Visible(items: seq<Item>): (r: seq<nat>)
    ensures |r| <= |items|
  {
    if items == [] then []
    else
      var k := |items| - 1;
      Visible(items[..k]) + (if items[k].curState == INSERTED then [items[k].opId] else [])
  }

  /** IDs of the items visible once everything is merged, in order. */
  ghost function EndVisible(items: seq<Item>): (r: seq<nat>)
    ensures |r| <= |items|
  {
    if items == [] then []
    else
      var k := |items| - 1;
      EndVisible(items[..k]) + (if items[k].endState == INSERTED then [items[k].opId] else [])
  }

  ghost predicate DistinctIds(items: seq<Item>) {
    forall i, j | 0 <= i < j < |items| :: items[i].opId != items[j].opId
  }

  ghost predicate HasId(items: seq<Item>, id: int) {
    exists i :: 0 <= i < |items| && items[i].opId == id
  }

  // ---- Positions ----

  /** `findByCurPos`: just after the `pos`-th visible item. */
  ghost function CursorAt(items: seq<Item>, pos: nat): (r: Option<nat>)
    ensures r.Some? <==> pos <= |Visible(items)|
    ensures r.Some? ==> r.value <= |items| && |Visible(items[..r.value])| == pos
    ensures r.Some? && r.value > 0 ==> items[r.value - 1].curState == INSERTED
    ensures r == Some(0) <==> pos == 0
  {
    if items == [] then (if pos == 0 then Some(0) else None)
    else
      var k := |items| - 1;
      if pos <= |Visible(items[..k])| then
        var r := CursorAt(items[..k], pos);
        assert items[..k][..r.value] == items[..r.value];
        r
      else if pos == |Visible(items)| then
        assert items[..|items|] == items;
        Some(|items|)
      else None
  }

  /** The item a delete at `pos` finds: the visible one with `pos` visible ones before it. */
  ghost function TargetAt(items: seq<Item>, pos: nat): (r: Option<nat>)
    ensures r.Some? <==> pos < |Visible(items)|
    ensures r.Some? ==> r.value < |items| && |Visible(items[..r.value])| == pos && items[r.value].curState == INSERTED
  {
    if items == [] then None
    else
      var k := |items| - 1;
      if pos < |Visible(items[..k])| then
        var r := TargetAt(items[..k], pos);
        assert items[..k][..r.value] == items[..r.value];
        r
      else if pos < |Visible(items)| then Some(k)
      else None
  }

  lemma {:induction false} VisiblePrefix(items: seq<Item>, i: nat)
    requires i < |items|
    ensures items[..i + 1][..i] == items[..i]
    ensures Visible(items[..i + 1]) == Visible(items[..i]) + (if items[i].curState == INSERTED then [items[i].opId] else [])
    ensures EndVisible(items[..i + 1]) == EndVisible(items[..i]) + (if items[i].endState == INSERTED then [items[i].opId] else [])
  {
    assert items[..i + 1][..i] == items[..i];
  }

  lemma {:induction false} VisibleEmpty(items: seq<Item>)
    ensures Visible(items[..0]) == [] && EndVisible(items[..0]) == []
  {
  }

  lemma {:induction false} CursorOnlyIf(items: seq<Item>, pos: nat)
    ensures CursorAt(items, pos).Some? <==> pos <= |Visible(items)|
  {
  }

  lemma {:induction false} VisibleMonotone(items: seq<Item>, i: nat, j: nat)
    requires i <= j <= |items|
    ensures |Visible(items[..i])| <= |Visible(items[..j])|
    decreases j
  {
    if i < j {
      VisiblePrefix(items, j - 1);
      VisibleMonotone(items, i, j - 1);
    }
  }

  lemma {:induction false} VisibleConcat(a: seq<Item>, b: seq<Item>)
    ensures Visible(a + b) == Visible(a) + Visible(b)
    ensures EndVisible(a + b) == EndVisible(a) + EndVisible(b)
  {
    if b == [] {
      assert a + b == a;
    } else {
      var k := |b| - 1;
      assert (a + b)[..|a + b| - 1] == a + b[..k];
      VisibleConcat(a, b[..k]);
    }
  }

  /** The cursor is determined by its two properties. */
  lemma {:induction false} CursorUnique(items: seq<Item>, i: nat, j: nat)
    requires i <= |items| && j <= |items| && |Visible(items[..i])| == |Visible(items[..j])|
    requires i > 0 ==> items[i - 1].curState == INSERTED
    requires j > 0 ==> items[j - 1].curState == INSERTED
    ensures i == j
  {
    if i < j {
      VisiblePrefix(items, j - 1);
      VisibleMonotone(items, i, j - 1);
    } else if j < i {
      VisiblePrefix(items, i - 1);
      VisibleMonotone(items, j, i - 1);
    }
  }

  lemma {:induction false} CursorIs(items: seq<Item>, pos: nat, c: nat)
    requires c <= |items| && |Visible(items[..c])| == pos
    requires c > 0 ==> items[c - 1].curState == INSERTED
    ensures CursorAt(items, pos) == Some(c)
  {
    VisibleMonotone(items, c, |items|);
    assert items[..|items|] == items;
    CursorUnique(items, c, CursorAt(items, pos).value);
  }

  lemma {:induction false} TargetUnique(items: seq<Item>, i: nat, j: nat)
    requires i < |items| && j < |items| && |Visible(items[..i])| == |Visible(items[..j])|
    requires items[i].curState == INSERTED && items[j].curState == INSERTED
    ensures i == j
  {
    if i < j {
      VisiblePrefix(items, i);
      VisibleMonotone(items, i + 1, j);
    } else if j < i {
      VisiblePrefix(items, j);
      VisibleMonotone(items, j + 1, i);
    }
  }

  lemma {:induction false} TargetIs(items: seq<Item>, pos: nat, i: nat)
    requires i < |items| && |Visible(items[..i])| == pos && items[i].curState == INSERTED
    ensures TargetAt(items, pos) == Some(i)
  {
    VisiblePrefix(items, i);
    VisibleMonotone(items, i + 1, |items|);
    assert items[..|items|] == items;
    TargetUnique(items, i, TargetAt(items, pos).value);
  }

  // ---- Where an insert goes ----

  /** The index of the item with ID `id`, or the length of the list. */
  function FindIdx(items: seq<Item>, id: int): (r: nat)
    ensures r <= |items|
    ensures r < |items| ==> items[r].opId == id
    ensures forall i | 0 <= i < r :: items[i].opId != id
  {
    if items == [] || items[0].opId == id then 0 else 1 + FindIdx(items[1..], id)
  }

  /** The first item from `i` on that exists at the current version, visible or deleted. */
  function NextSettled(items: seq<Item>, i: nat): (r: nat)
    requires i <= |items|
    ensures i <= r <= |items|
    ensures forall k | i <= k < r :: items[k].curState == NOT_YET_INSERTED
    ensures r < |items| ==> items[r].curState != NOT_YET_INSERTED
    decreases |items| - i
  {
    if i == |items| || items[i].curState != NOT_YET_INSERTED then i else NextSettled(items, i + 1)
  }

  lemma {:induction false} NextSettledIs(items: seq<Item>, c: nat, e: nat)
    requires c <= e <= |items|
    requires forall x | c <= x < e :: items[x].curState == NOT_YET_INSERTED
    requires e < |items| ==> items[e].curState != NOT_YET_INSERTED
    ensures NextSettled(items, c) == e
    decreases e - c
  {
    if c < e {
      NextSettledIs(items, c + 1, e);
    }
  }

  /** The right parent of an insert at `i`: the next settled item if it has the same left origin. */
  function RightParentAt(items: seq<Item>, i: nat, originLeft: int): int
    requires i <= |items|
  {
    var k := NextSettled(items, i);
    if k < |items| && items[k].originLeft == originLeft then items[k].opId else -1
  }

  /** What one turn of the scan in `integrate` decides; Fail stands for a thrown error. */
  datatype Decision = Stop | Fail | Go(scanning: bool)

  function Decide(items: seq<Item>, ids: seq<RawVersion>, newId: nat, rightParent: int, leftIdx: int, rightIdx: nat, scanIdx: nat, scanning: bool): Decision
    requires scanIdx < |items| && newId < |ids|
  {
    var other := items[scanIdx];
    if other.curState != NOT_YET_INSERTED then Stop
    else if other.opId == rightParent then Fail
    else
      var oleftIdx := if other.originLeft == -1 then -1 else FindIdx(items, other.originLeft);
      if oleftIdx == |items| then Fail
      else if oleftIdx < leftIdx then Stop
      else if oleftIdx > leftIdx then Go(scanning)
      else
        var orightIdx := if other.rightParent == -1 then |items| else FindIdx(items, other.rightParent);
        if other.rightParent != -1 && orightIdx == |items| then Fail
        else if orightIdx == rightIdx && other.opId >= |ids| then Fail
        else if orightIdx == rightIdx && RawLess(ids[newId], ids[other.opId]) then Stop
        else Go(orightIdx < rightIdx)
  }

  /** The scan loop of `integrate`; None stands for a thrown error. */
  function Scan(items: seq<Item>, ids: seq<RawVersion>, newId: nat, rightParent: int, leftIdx: int, rightIdx: nat,
                scanIdx: nat, cursor: nat, scanning: bool): (r: Option<nat>)
    requires cursor <= scanIdx <= |items| && newId < |ids|
    ensures r.Some? ==> cursor <= r.value <= |items|
    decreases |items| - scanIdx
  {
    if scanIdx == |items| then Some(cursor)
    else
      match Decide(items, ids, newId, rightParent, leftIdx, rightIdx, scanIdx, scanning)
      case Stop => Some(cursor)
      case Fail => None
      case Go(scanning') =>
        Scan(items, ids, newId, rightParent, leftIdx, rightIdx, scanIdx + 1, if scanning' then cursor else scanIdx + 1, scanning')
  }

  /** `integrate`: the index at which a new item is spliced in, given the cursor it starts from. */
  function Integrate(items: seq<Item>, ids: seq<RawVersion>, newId: nat, rightParent: int, cursor: nat): (r: Option<nat>)
    requires cursor <= |items| && newId < |ids|
    ensures r.Some? ==> cursor <= r.value <= |items|
  {
    if cursor == |items| || items[cursor].curState != NOT_YET_INSERTED then Some(cursor)
    else
      var rightIdx := if rightParent == -1 then |items| else FindIdx(items, rightParent);
      if rightParent != -1 && rightIdx == |items| then None
      else Scan(items, ids, newId, rightParent, cursor - 1, rightIdx, cursor, cursor, false)
  }
}
