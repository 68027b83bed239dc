/** The editing context of index.ts: item objects shared by a list and an index, updated in place. */
module EditContext {
  import opened RleGraph
  import opened ListLog
  import opened Items
  import opened Intent
  import R = Replay

  class ItemRef {
    const opId: nat
    var curState: int
    var endState: int
    const originLeft: int
    const rightParent: int

    constructor (opId: nat, originLeft: int, rightParent: int)
      ensures Value() == Item(opId, INSERTED, INSERTED, originLeft, rightParent)
      ensures this.opId == opId
    {
      this.opId, this.originLeft, this.rightParent := opId, originLeft, rightParent;
      curState, endState := INSERTED, INSERTED;
    }

    ghost function Value(): Item
      reads this
    {
      Item(opId, curState, endState, originLeft, rightParent)
    }
  }

  ghost function Values(items: seq<ItemRef>): (r: seq<Item>)
    reads items
    ensures |r| == |items|
    ensures forall i | 0 <= i < |items| :: r[i] == items[i].Value()
  {
    if items == [] then [] else Values(items[..|items| - 1]) + [items[|items| - 1].Value()]
  }

  /** `findIndex` on the item list. */
  function FindIn(items: seq<ItemRef>, needle: int): nat {
    if items == [] || items[0].opId == needle then 0 else 1 + FindIn(items[1..], needle)
  }

  lemma {:induction false} FoundIn(items: seq<ItemRef>, needle: int)
    ensures FindIn(items, needle) == FindIdx(Values(items), needle)
  {
    if items != [] && items[0].opId != needle {
      FoundIn(items[1..], needle);
      assert Values(items)[1..] == Values(items[1..]);
    }
  }

  /** Where an insert throws: its position is not found, or integrating it fails. */
  lemma {:induction false} InsertFails<T>(log: Log<T>, ctx: R.Ctx, lv: nat)
    requires lv < |log.ops| == |log.ids| && log.ops[lv].Ins?
    ensures R.Apply1(log, ctx, lv).Some? <==>
              && CursorAt(ctx.items, log.ops[lv].pos).Some?
              && var cursor := CursorAt(ctx.items, log.ops[lv].pos).value;
                 R.IntegrateOf(log, ctx, lv, R.NewItem(ctx.items, cursor, lv).rightParent, cursor).Some?
  {
  }

  lemma {:induction false} InsertIs<T>(log: Log<T>, ctx: R.Ctx, lv: nat, cursor: nat, k: nat)
    requires lv < |log.ops| == |log.ids| && log.ops[lv].Ins? && cursor <= |ctx.items| && k <= |ctx.items|
    requires CursorAt(ctx.items, log.ops[lv].pos) == Some(cursor)
    requires R.IntegrateOf(log, ctx, lv, R.NewItem(ctx.items, cursor, lv).rightParent, cursor) == Some(k)
    ensures R.Apply1(log, ctx, lv) ==
            Some(R.Applied(R.Ctx(R.WithItem(ctx.items, k, R.NewItem(ctx.items, cursor, lv)), ctx.targets),
                           R.Put(|EndVisible(ctx.items[..k])|, log.ops[lv].content)))
  {
  }

  lemma {:induction false} NewItemIs(items: seq<Item>, cursor: nat, lv: nat, originLeft: int, rightParent: int)
    requires cursor <= |items| && originLeft == (if cursor == 0 then -1 else items[cursor - 1].opId)
    requires rightParent == RightParentAt(items, cursor, originLeft)
    ensures R.NewItem(items, cursor, lv) == Item(lv, INSERTED, INSERTED, originLeft, rightParent)
  {
  }

  function ItemWidth(state: int): nat {
    if state == INSERTED then 1 else 0
  }

  class Context {
    var items: seq<ItemRef>
    var delTargets: map<nat, nat>
    var itemsByLV: map<nat, ItemRef>
    var curVersion: seq<nat>

    constructor (version: seq<nat>)
      ensures Valid() && View() == R.Ctx([], map[]) && curVersion == version
      ensures fresh(items)
    {
      items, delTargets, itemsByLV, curVersion := [], map[], map[], version;
    }

    /** The list and the index hold the same objects, one per operation ID. */
    ghost predicate Valid()
      reads this, items
    {
      && (forall i, j | 0 <= i < j < |items| :: items[i] != items[j])
      && (forall i | 0 <= i < |items| :: items[i].opId in itemsByLV && itemsByLV[items[i].opId] == items[i])
      && (forall id | id in itemsByLV :: itemsByLV[id] in items && itemsByLV[id].opId == id)
    }

    ghost function View(): R.Ctx
      reads this, items
    {
      R.Ctx(Values(items), delTargets)
    }

    lemma {:induction false} IndexFinds(id: nat)
      requires Valid()
      ensures id in itemsByLV <==> FindIdx(View().items, id) < |items|
      ensures id in itemsByLV ==> items[FindIdx(View().items, id)] == itemsByLV[id]
    {
      if id in itemsByLV {
        var i :| 0 <= i < |items| && items[i] == itemsByLV[id];
        assert View().items[i].opId == id;
      }
    }

    /** The item an operation created or deleted; None where the source would hit undefined. */
    method ItemOf<T>(ops: seq<ListOp<T>>, opId: nat, ghost log: Log<T>) returns (item: ItemRef?)
      requires Valid() && opId < |ops| && log.ops == ops
      ensures (item == null) == R.ItemOf(log, View(), opId).None?
      ensures item != null ==> item in items && item == items[R.ItemOf(log, View(), opId).value]
    {
      item := null;
      if ops[opId].Del? {
        if opId in delTargets {
          IndexFinds(delTargets[opId]);
          if delTargets[opId] in itemsByLV {
            item := itemsByLV[delTargets[opId]];
          }
        }
      } else {
        IndexFinds(opId);
        if opId in itemsByLV {
          item := itemsByLV[opId];
        }
      }
    }

    /** Changes one item object; the list and the index both see it. */
    method SetState(item: ItemRef, curState: int, endState: int, ghost i: nat)
      requires Valid() && i < |items| && items[i] == item
      modifies item
      ensures Valid()
      ensures View() == old(View()).(items := old(View()).items[i := old(item.Value()).(curState := curState, endState := endState)])
    {
      item.curState, item.endState := curState, endState;
    }

    method Advance1<T>(ops: seq<ListOp<T>>, opId: nat, ghost log: Log<T>) returns (ok: bool)
      requires Valid() && opId < |ops| && log.ops == ops
      modifies items
      ensures Valid()
      ensures ok == R.Advance1(log, old(View()), opId).Some?
      ensures View() == if ok then R.Advance1(log, old(View()), opId).value else old(View())
    {
      hide Valid, FindIdx, Values;
      var item := ItemOf(ops, opId, log);
      if item == null { return false; }
      ghost var i := R.ItemOf(log, View(), opId).value;
      if ops[opId].Del? {
        if !(item.curState >= INSERTED) || !(item.endState >= DELETED) { return false; }
        SetState(item, item.curState + 1, item.endState, i);
      } else {
        if item.curState != NOT_YET_INSERTED { return false; }
        SetState(item, INSERTED, item.endState, i);
      }
      ok := true;
    }

    method Retreat1<T>(ops: seq<ListOp<T>>, opId: nat, ghost log: Log<T>) returns (ok: bool)
      requires Valid() && opId < |ops| && log.ops == ops
      modifies items
      ensures Valid()
      ensures ok == R.Retreat1(log, old(View()), opId).Some?
      ensures View() == if ok then R.Retreat1(log, old(View()), opId).value else old(View())
    {
      hide Valid, FindIdx, Values;
      var item := ItemOf(ops, opId, log);
      if item == null { return false; }
      if ops[opId].Del? {
        if !(item.curState >= DELETED) || !(item.endState >= DELETED) { return false; }
      } else {
        if item.curState != INSERTED { return false; }
      }
      SetState(item, item.curState - 1, item.endState, R.ItemOf(log, View(), opId).value);
      ok := true;
    }

    method FindByCurPos(targetPos: nat) returns (ok: bool, idx: nat, endPos: nat)
      requires Valid()
      ensures ok == CursorAt(View().items, targetPos).Some?
      ensures ok ==> idx == CursorAt(View().items, targetPos).value && idx <= |items| && endPos == |EndVisible(View().items[..idx])|
    {
      hide Valid, Visible, EndVisible, Values, CursorAt;
      ghost var v := View().items;
      var curPos := 0;
      idx, endPos := 0, 0;
      VisibleEmpty(v);
      while curPos < targetPos
        invariant View().items == v && idx <= |items| == |v| && curPos == |Visible(v[..idx])| <= targetPos && endPos == |EndVisible(v[..idx])|
        invariant curPos == targetPos && idx > 0 ==> v[idx - 1].curState == INSERTED
        decreases |items| - idx
      {
        if idx >= |items| {
          assert v[..|items|] == v;
          CursorOnlyIf(v, targetPos);
          return false, 0, 0;
        }
        VisiblePrefix(v, idx);
        curPos := curPos + ItemWidth(items[idx].curState);
        endPos := endPos + ItemWidth(items[idx].endState);
        idx := idx + 1;
      }
      CursorIs(v, targetPos, idx);
      ok := true;
    }

    function FindItemIdx(needle: int): (idx: nat)
      reads this, items
      ensures idx == FindIdx(Values(items), needle)
    {
      FoundIn(items, needle);
      FindIn(items, needle)
    }

    /** One turn of the scan in `integrate`. */
    function DecideAt(es: seq<CGEntry>, newId: nat, rightParent: int, leftIdx: int, rightIdx: nat, scanIdx: nat, scanning: bool): (d: Decision)
      requires ValidEntries(es) && newId < NextLV(es) && scanIdx < |items|
      reads this, items
      ensures d == Decide(Values(items), RawIds(es), newId, rightParent, leftIdx, rightIdx, scanIdx, scanning)
    {
      var other := items[scanIdx];
      if other.curState != NOT_YET_INSERTED then Stop
      else if other.opId == rightParent then Fail
      else
        var oleftIdx := if other.originLeft == -1 then -1 else FindItemIdx(other.originLeft);
        if oleftIdx == |items| then Fail
        else if oleftIdx < leftIdx then Stop
        else if oleftIdx > leftIdx then Go(scanning)
        else
          var orightIdx := if other.rightParent == -1 then |items| else FindItemIdx(other.rightParent);
          if other.rightParent != -1 && orightIdx == |items| then Fail
          else if orightIdx == rightIdx && other.opId >= NextLV(es) then Fail
          else if orightIdx == rightIdx && RawLess(LvToRaw(es, newId), LvToRaw(es, other.opId)) then Stop
          else Go(orightIdx < rightIdx)
    }

    /** Scans past items that do not exist at the current version, for the place of a new item. */
    method Integrate<T>(es: seq<CGEntry>, newId: nat, rightParent: int, idx0: nat, endPos0: nat, ghost log: Log<T>)
      returns (ok: bool, idx: nat, endPos: nat)
      requires ValidEntries(es) && log.ids == RawIds(es) && newId < |log.ids|
      requires idx0 <= |items| && endPos0 == |EndVisible(View().items[..idx0])|
      ensures ok == R.IntegrateOf(log, View(), newId, rightParent, idx0).Some?
      ensures ok ==> idx == R.IntegrateOf(log, View(), newId, rightParent, idx0).value && idx <= |items| && endPos == |EndVisible(View().items[..idx])|
    {
      hide EndVisible, Visible, Valid, ValidEntries, LvToRaw, Decide, DecideAt, FindIdx, Values;
      ghost var ctx := View();
      ghost var v := ctx.items;
      ok, idx, endPos := true, idx0, endPos0;
      if idx >= |items| || items[idx].curState != NOT_YET_INSERTED {
        return;
      }
      var scanning, scanIdx, scanEndPos := false, idx, endPos;
      var leftIdx: int := -1 + (idx as int);
      var rightIdx := |items|;
      if rightParent != -1 {
        rightIdx := FindItemIdx(rightParent);
        if rightIdx == |items| { return false, 0, 0; }
      }
      while scanIdx < |items|
        invariant idx <= scanIdx <= |items| == |v|
        invariant scanEndPos == |EndVisible(v[..scanIdx])| && endPos == |EndVisible(v[..idx])|
        invariant R.IntegrateOf(log, ctx, newId, rightParent, idx0) ==
                  Scan(v, log.ids, newId, rightParent, leftIdx, rightIdx, scanIdx, idx, scanning)
        decreases |items| - scanIdx
      {
        var d := DecideAt(es, newId, rightParent, leftIdx, rightIdx, scanIdx, scanning);
        if d.Stop? { break; }
        if d.Fail? { return false, 0, 0; }
        scanning := d.scanning;
        VisiblePrefix(v, scanIdx);
        scanEndPos := scanEndPos + ItemWidth(items[scanIdx].endState);
        scanIdx := scanIdx + 1;
        if !scanning {
          idx, endPos := scanIdx, scanEndPos;
        }
      }
    }

    /** The ID of the next item that exists at the current version, if its left origin matches. */
    method RightParentOf(idx: nat, originLeft: int) returns (rightParent: int)
      requires idx <= |items|
      ensures rightParent == RightParentAt(Values(items), idx, originLeft)
    {
      ghost var v := Values(items);
      var i := idx;
      while i < |items|
        invariant idx <= i <= |items| && NextSettled(v, idx) == NextSettled(v, i)
      {
        if items[i].curState != NOT_YET_INSERTED {
          return if items[i].originLeft == originLeft then items[i].opId else -1;
        }
        i := i + 1;
      }
      rightParent := -1;
    }

    /** Skips, from the cursor on, to the item a delete hits. */
    method FindTarget(pos: nat) returns (ok: bool, idx: nat, endPos: nat)
      requires Valid()
      ensures ok == TargetAt(View().items, pos).Some?
      ensures ok ==> idx == TargetAt(View().items, pos).value && idx < |items| && endPos == |EndVisible(View().items[..idx])|
    {
      hide Valid, CursorAt, TargetAt, Values, Visible, EndVisible;
      ghost var v := View().items;
      ok, idx, endPos := FindByCurPos(pos);
      if !ok { return; }
      while idx < |items| && items[idx].curState != INSERTED
        invariant View().items == v && idx <= |items| == |v|
        invariant |Visible(v[..idx])| == pos && endPos == |EndVisible(v[..idx])|
      {
        VisiblePrefix(v, idx);
        endPos := endPos + ItemWidth(items[idx].endState);
        idx := idx + 1;
      }
      if idx == |items| {
        assert v[..|v|] == v;
        return false, 0, 0;
      }
      TargetIs(v, pos, idx);
    }

    method RecordTarget(opId: nat, target: nat)
      requires Valid()
      modifies this`delTargets
      ensures Valid() && View() == old(View()).(targets := old(View()).targets[opId := target])
    {
      delTargets := delTargets[opId := target];
    }

    /** A delete: marks the item it hits, and cuts it from the snapshot unless it is already gone. */
    method ApplyDelete<T>(opId: nat, pos: nat, snapshot0: Option<seq<T>>, ghost log: Log<T>) returns (ok: bool, snapshot: Option<seq<T>>)
      requires Valid() && opId < |log.ops| == |log.ids| && log.ops[opId] == Del(pos)
      modifies this`delTargets, items
      ensures Valid()
      ensures ok == R.Apply1(log, old(View()), opId).Some?
      ensures ok ==> View() == R.Apply1(log, old(View()), opId).value.ctx
                     && snapshot == SpliceIf(snapshot0, R.Apply1(log, old(View()), opId).value.edit)
    {
      hide Valid, TargetAt, EndVisible, Values;
      snapshot := snapshot0;
      var idx, endPos;
      ok, idx, endPos := FindTarget(pos);
      if !ok { return; }
      var item := items[idx];
      if item.endState == INSERTED {
        snapshot := SpliceIf(snapshot, R.Cut(endPos));
      }
      SetState(item, DELETED, DELETED, idx);
      RecordTarget(opId, item.opId);
    }

    /** Puts a new item into the list and the index. */
    method AddItem(item: ItemRef, idx: nat)
      requires Valid() && idx <= |items| && item !in items && item.opId !in itemsByLV
      modifies this`items, this`itemsByLV
      ensures Valid() && View() == old(View()).(items := R.WithItem(old(View()).items, idx, item.Value()))
      ensures items == old(items)[..idx] + [item] + old(items)[idx..]
    {
      hide Values, R.WithItem;
      ghost var before, index := items, itemsByLV;
      ValuesAdded(before, item, idx);
      itemsByLV := itemsByLV[item.opId := item];
      items := items[..idx] + [item] + items[idx..];
      AddedIndex(before, index, item, idx);
    }

    /** Makes a new item and adds it. */
    method AddNew(opId: nat, originLeft: int, rightParent: int, idx: nat)
      requires Valid() && idx <= |items| && opId !in itemsByLV
      modifies this`items, this`itemsByLV
      ensures Valid() && View() == old(View()).(items := R.WithItem(old(View()).items, idx, Item(opId, INSERTED, INSERTED, originLeft, rightParent)))
      ensures forall r | r in items :: r in old(items) || fresh(r)
    {
      hide Valid, Values, R.WithItem;
      var item := new ItemRef(opId, originLeft, rightParent);
      AddItem(item, idx);
    }

    lemma {:induction false} ValuesAdded(before: seq<ItemRef>, item: ItemRef, idx: nat)
      requires idx <= |before|
      ensures Values(before[..idx] + [item] + before[idx..]) == R.WithItem(Values(before), idx, item.Value())
    {
    }

    /** The list and the index still agree after an item has been added to both. */
    lemma {:induction false} AddedIndex(before: seq<ItemRef>, index: map<nat, ItemRef>, item: ItemRef, idx: nat)
      requires idx <= |before| && item !in before && item.opId !in index
      requires items == before[..idx] + [item] + before[idx..] && itemsByLV == index[item.opId := item]
      requires forall i, j | 0 <= i < j < |before| :: before[i] != before[j]
      requires forall i | 0 <= i < |before| :: before[i].opId in index && index[before[i].opId] == before[i]
      requires forall id | id in index :: index[id] in before && index[id].opId == id
      ensures Valid()
    {
      forall id | id in itemsByLV
        ensures itemsByLV[id] in items && itemsByLV[id].opId == id
      {
        if id == item.opId {
          assert items[idx] == item;
        } else {
          var k :| 0 <= k < |before| && before[k] == itemsByLV[id];
          assert items[if k < idx then k else k + 1] == before[k];
        }
      }
      forall i | 0 <= i < |items|
        ensures items[i].opId in itemsByLV && itemsByLV[items[i].opId] == items[i]
      {
        if i != idx { assert items[i] == before[if i < idx then i else i - 1]; }
      }
    }

    /** An insert: finds its origins at the current version, integrates, and puts the content into the snapshot. */
    method ApplyInsert<T>(es: seq<CGEntry>, opId: nat, pos: nat, content: T, snapshot0: Option<seq<T>>, ghost log: Log<T>)
      returns (ok: bool, snapshot: Option<seq<T>>)
      requires Valid() && ValidEntries(es) && log.ids == RawIds(es)
      requires opId < |log.ops| == |log.ids| && log.ops[opId] == Ins(pos, content) && opId !in itemsByLV
      modifies this`items, this`itemsByLV
      ensures Valid() && forall r | r in items :: r in old(items) || fresh(r)
      ensures ok == R.Apply1(log, old(View()), opId).Some?
      ensures ok ==> View() == R.Apply1(log, old(View()), opId).value.ctx
                     && snapshot == SpliceIf(snapshot0, R.Apply1(log, old(View()), opId).value.edit)
    {
      hide Valid, CursorAt, EndVisible, Values, RawIds, ValidEntries, NextSettled, RightParentAt, R.Apply1, R.IntegrateOf, R.NewItem;
      snapshot := snapshot0;
      var idx, endPos;
      ok, idx, endPos := FindByCurPos(pos);
      ghost var ctx := View();
      InsertFails(log, ctx, opId);
      if !ok { return; }
      ghost var cursor := idx;
      var originLeft: int := if idx == 0 then -1 else items[idx - 1].opId;
      var rightParent := RightParentOf(idx, originLeft);
      NewItemIs(ctx.items, cursor, opId, originLeft, rightParent);
      ok, idx, endPos := Integrate(es, opId, rightParent, idx, endPos, log);
      if !ok { return; }
      InsertIs(log, ctx, opId, cursor, idx);
      AddNew(opId, originLeft, rightParent, idx);
      snapshot := SpliceIf(snapshot, R.Put(endPos, content));
    }

    /** Integrates one operation; it fails exactly where the source throws. */
    method Apply1<T>(es: seq<CGEntry>, ops: seq<ListOp<T>>, opId: nat, snapshot0: Option<seq<T>>, ghost log: Log<T>)
      returns (ok: bool, snapshot: Option<seq<T>>)
      requires Valid() && ValidEntries(es) && log.ids == RawIds(es) && log.ops == ops
      requires opId < |log.ops| == |log.ids| && opId !in itemsByLV
      modifies this`items, this`itemsByLV, this`delTargets, items
      ensures Valid() && forall r | r in items :: r in old(items) || fresh(r)
      ensures ok == R.Apply1(log, old(View()), opId).Some?
      ensures ok ==> View() == R.Apply1(log, old(View()), opId).value.ctx
                     && snapshot == SpliceIf(snapshot0, R.Apply1(log, old(View()), opId).value.edit)
    {
      hide Valid, Values, RawIds, ValidEntries, R.Apply1;
      match ops[opId]
      case Del(pos) =>
        ok, snapshot := ApplyDelete(opId, pos, snapshot0, log);
      case Ins(pos, content) =>
        ok, snapshot := ApplyInsert(es, opId, pos, content, snapshot0, log);
    }
  }

  /** Splicing into a snapshot that may be absent. */
  function SpliceIf<T>(snapshot: Option<seq<T>>, edit: R.Edit<T>): Option<seq<T>> {
    match snapshot
    case None => None
    case Some(text) => Some(Spliced(text, edit))
  }
}
