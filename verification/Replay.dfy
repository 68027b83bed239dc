/** One operation at a time: retreat, advance and apply of index.ts on plain values, and the
    document they keep, stated against ancestor sets of the causal graph. */
module Replay {
  import opened Dag
  import opened RleGraph
  import opened ListLog
  import opened Items

  datatype Ctx = Ctx(items: seq<Item>, targets: map<nat, nat>)

  /** What one operation does to the snapshot. */
  datatype Edit<T> = Keep | Put(at: nat, content: T) | Cut(at: nat)

  datatype Applied<T> = Applied(ctx: Ctx, edit: Edit<T>)

  // ---- The steps of the replay; None stands for a thrown error ----

  /** The index of the item operation `lv` created or deleted. */
  ghost function ItemOf<T>(log: Log<T>, ctx: Ctx, lv: nat): (r: Option<nat>)
    requires lv < |log.ops|
    ensures r.Some? ==> r.value < |ctx.items|
  {
    if log.ops[lv].Del? && lv !in ctx.targets then None
    else
      var idx := FindIdx(ctx.items, if log.ops[lv].Del? then ctx.targets[lv] else lv);
      if idx == |ctx.items| then None else Some(idx)
  }

  ghost function Advance1<T>(log: Log<T>, ctx: Ctx, lv: nat): Option<Ctx>
    requires lv < |log.ops|
  {
    match ItemOf(log, ctx, lv)
    case None => None
    case Some(i) =>
      var item := ctx.items[i];
      if log.ops[lv].Del? then
        if item.curState >= INSERTED && item.endState >= DELETED
        then Some(ctx.(items := ctx.items[i := item.(curState := item.curState + 1)]))
        else None
      else
        if item.curState == NOT_YET_INSERTED
        then Some(ctx.(items := ctx.items[i := item.(curState := INSERTED)]))
        else None
  }

  ghost function Retreat1<T>(log: Log<T>, ctx: Ctx, lv: nat): Option<Ctx>
    requires lv < |log.ops|
  {
    match ItemOf(log, ctx, lv)
    case None => None
    case Some(i) =>
      var item := ctx.items[i];
      if if log.ops[lv].Del? then item.curState >= DELETED && item.endState >= DELETED else item.curState == INSERTED
      then Some(ctx.(items := ctx.items[i := item.(curState := item.curState - 1)]))
      else None
  }

  ghost function NewItem(items: seq<Item>, cursor: nat, lv: nat): Item
    requires cursor <= |items|
  {
    var originLeft := if cursor == 0 then -1 else items[cursor - 1].opId;
    Item(lv, INSERTED, INSERTED, originLeft, RightParentAt(items, cursor, originLeft))
  }

  ghost function WithItem(items: seq<Item>, k: nat, item: Item): seq<Item>
    requires k <= |items|
  {
    items[..k] + [item] + items[k..]
  }

  /** Where `integrate` puts a new item. */
  ghost function IntegrateOf<T>(log: Log<T>, ctx: Ctx, lv: nat, rightParent: int, cursor: nat): Option<nat>
    requires cursor <= |ctx.items| && lv < |log.ids|
  {
    Integrate(ctx.items, log.ids, lv, rightParent, cursor)
  }

  ghost function Apply1<T>(log: Log<T>, ctx: Ctx, lv: nat): Option<Applied<T>>
    requires lv < |log.ops| == |log.ids|
  {
    match log.ops[lv]
    case Del(pos) =>
      (match TargetAt(ctx.items, pos)
       case None => None
       case Some(i) =>
         var item := ctx.items[i];
         var edit := if item.endState == INSERTED then Cut(|EndVisible(ctx.items[..i])|) else Keep;
         Some(Applied(Ctx(ctx.items[i := item.(curState := DELETED, endState := DELETED)], ctx.targets[lv := item.opId]), edit)))
    case Ins(pos, content) =>
      (match CursorAt(ctx.items, pos)
       case None => None
       case Some(cursor) =>
         var item := NewItem(ctx.items, cursor, lv);
         match Integrate(ctx.items, log.ids, lv, item.rightParent, cursor)
         case None => None
         case Some(k) =>
           Some(Applied(Ctx(WithItem(ctx.items, k, item), ctx.targets), Put(|EndVisible(ctx.items[..k])|, content))))
  }

  // ---- The document behind the items ----

  datatype Placed = Placed(opId: nat, originLeft: int, rightParent: int)

  /** The item order and the delete targets: everything about the items that does not depend on a version. */
  datatype Doc = Doc(order: seq<Placed>, targets: map<nat, nat>)

  ghost function DeletesOf(targets: map<nat, nat>, v: set<nat>, id: nat): set<nat> {
    set d | d in targets && d in v && targets[d] == id
  }

  /** An item's state at the version with history `v`: absent, or how often it has been deleted there. */
  ghost function StateAt(targets: map<nat, nat>, v: set<nat>, id: nat): int {
    if id < PLACEHOLDER_BASE && id !in v then NOT_YET_INSERTED else |DeletesOf(targets, v, id)|
  }

  ghost function EndState(targets: map<nat, nat>, id: nat): int {
    if exists d :: d in targets && targets[d] == id then DELETED else INSERTED
  }

  ghost function ItemAt(targets: map<nat, nat>, v: set<nat>, p: Placed): Item {
    Item(p.opId, StateAt(targets, v, p.opId), EndState(targets, p.opId), p.originLeft, p.rightParent)
  }

  /** The items as they must look at the version with history `v`. */
  ghost function ViewAt(doc: Doc, v: set<nat>): (r: seq<Item>)
    ensures |r| == |doc.order|
  {
    seq(|doc.order|, i requires 0 <= i < |doc.order| => ItemAt(doc.targets, v, doc.order[i]))
  }

  ghost function Strip(items: seq<Item>): seq<Placed> {
    seq(|items|, i requires 0 <= i < |items| => Placed(items[i].opId, items[i].originLeft, items[i].rightParent))
  }

  ghost predicate InOrder(order: seq<Placed>, id: int) {
    exists i :: 0 <= i < |order| && order[i].opId == id
  }

  ghost predicate DistinctOrder(order: seq<Placed>) {
    forall i, j | 0 <= i < j < |order| :: order[i].opId != order[j].opId
  }

  ghost predicate Before(order: seq<Placed>, id: int, i: int) {
    exists j :: 0 <= j < |order| && j < i && order[j].opId == id
  }

  ghost predicate After(order: seq<Placed>, id: int, i: int) {
    exists j :: 0 <= j < |order| && i < j && order[j].opId == id
  }

  /** Left origins lie to the left and right parents to the right. */
  ghost predicate OriginsOrdered(order: seq<Placed>) {
    forall i | 0 <= i < |order| ::
      && (order[i].originLeft == -1 || Before(order, order[i].originLeft, i))
      && (order[i].rightParent == -1 || After(order, order[i].rightParent, i))
  }

  /** The order holds one item per replayed insert, besides placeholders. */
  ghost predicate OrderMatches<T>(log: Log<T>, done: set<nat>, order: seq<Placed>) {
    && (forall i | 0 <= i < |order| && order[i].opId < PLACEHOLDER_BASE ::
          order[i].opId in done && order[i].opId < |log.ops| && log.ops[order[i].opId].Ins?)
    && (forall lv | lv in done && lv < |log.ops| && log.ops[lv].Ins? :: InOrder(order, lv))
  }

  /** Every replayed delete, and nothing else, has a target, and it saw the target inserted. */
  ghost predicate TargetsMatch<T>(log: Log<T>, done: set<nat>, doc: Doc)
    requires ValidLog(log)
  {
    && (forall d :: d in doc.targets <==> d in done && d < |log.ops| && log.ops[d].Del?)
    && (forall d | d in doc.targets :: InOrder(doc.order, doc.targets[d]))
    && (forall d | d in doc.targets && d < |log.g| && InGraph(log.g, log.g[d]) && doc.targets[d] < PLACEHOLDER_BASE ::
          doc.targets[d] in Hist(log.g, log.g[d]))
  }

  /** `base` was there before the replay; `done` has been replayed on top of it. */
  ghost predicate Replayed<T>(log: Log<T>, base: set<nat>, done: set<nat>, doc: Doc) {
    && ValidLog(log)
    && base !! done
    && (forall x | x in base + done :: x < |log.g|)
    && Closed(log.g, base) && Closed(log.g, base + done)
    && DistinctOrder(doc.order) && OriginsOrdered(doc.order)
    && OrderMatches(log, done, doc.order)
    && TargetsMatch(log, done, doc)
  }

  // ---- Moving between versions ----

  ghost function Affected<T>(log: Log<T>, doc: Doc, lv: nat): nat
    requires lv < |log.ops| && (log.ops[lv].Del? ==> lv in doc.targets)
  {
    if log.ops[lv].Del? then doc.targets[lv] else lv
  }

  /** A delete in a closed set has its target in the set too, and below itself. */
  lemma {:induction false} TargetInside<T>(log: Log<T>, base: set<nat>, done: set<nat>, doc: Doc, v: set<nat>, d: nat)
    requires Replayed(log, base, done, doc) && d in doc.targets
    requires d < |log.g| && Closed(log.g, v) && forall p | p in log.g[d] :: p in v
    ensures doc.targets[d] < PLACEHOLDER_BASE ==> doc.targets[d] in v
    ensures doc.targets[d] != d
  {
    HistOne(log.g, d);
    HistLeast(log.g, log.g[d], v);
  }

  /** Leaving `lv` out of a version lowers the state of the item it affects by one, and no other. */
  lemma {:induction false} StateWithout<T>(log: Log<T>, base: set<nat>, done: set<nat>, doc: Doc, v: set<nat>, lv: nat, id: nat)
    requires Replayed(log, base, done, doc) && InOrder(doc.order, id)
    requires v <= base + done && Closed(log.g, v) && Closed(log.g, v - {lv})
    requires lv in done && lv in v
    ensures lv < |log.ops| && (log.ops[lv].Del? ==> lv in doc.targets)
    ensures StateAt(doc.targets, v - {lv}, id) == StateAt(doc.targets, v, id) - (if id == Affected(log, doc, lv) then 1 else 0)
    ensures id == Affected(log, doc, lv) ==> StateAt(doc.targets, v, id) == INSERTED || log.ops[lv].Del?
    ensures id == Affected(log, doc, lv) && log.ops[lv].Del? ==> StateAt(doc.targets, v, id) >= DELETED
  {
    hide OriginsOrdered, DistinctOrder, Hist;
    var v' := v - {lv};
    var deletes, deletes' := DeletesOf(doc.targets, v, id), DeletesOf(doc.targets, v', id);
    HistOne(log.g, lv);
    HistClosed(log.g, log.g[lv]);
    forall p | p in log.g[lv] ensures p in v' { }
    if log.ops[lv].Del? {
      TargetInside(log, base, done, doc, v', lv);
      if id == doc.targets[lv] {
        assert deletes == deletes' + {lv};
      } else {
        assert deletes == deletes';
      }
    } else {
      assert deletes == deletes';
      if id == lv {
        forall d | d in deletes
          ensures false
        {
          TargetInside(log, base, done, doc, v', d);
        }
      }
    }
  }

  lemma {:induction false} FoundAt(items: seq<Item>, id: nat, i: nat)
    requires DistinctIds(items) && i < |items| && items[i].opId == id
    ensures FindIdx(items, id) == i
  {
  }

  lemma {:induction false} ViewDistinct(doc: Doc, v: set<nat>)
    requires DistinctOrder(doc.order)
    ensures DistinctIds(ViewAt(doc, v))
  {
  }

  /** The item of a replayed operation is always found. */
  lemma {:induction false} ItemFound<T>(log: Log<T>, base: set<nat>, done: set<nat>, doc: Doc, v: set<nat>, lv: nat) returns (i: nat)
    requires Replayed(log, base, done, doc) && lv in done
    ensures lv < |log.ops| && (log.ops[lv].Del? ==> lv in doc.targets)
    ensures i < |doc.order| && doc.order[i].opId == Affected(log, doc, lv)
    ensures ItemOf(log, Ctx(ViewAt(doc, v), doc.targets), lv) == Some(i)
  {
    assert InOrder(doc.order, Affected(log, doc, lv));
    i :| 0 <= i < |doc.order| && doc.order[i].opId == Affected(log, doc, lv);
    ViewDistinct(doc, v);
    FoundAt(ViewAt(doc, v), Affected(log, doc, lv), i);
  }

  lemma {:induction false} ViewWithout<T>(log: Log<T>, base: set<nat>, done: set<nat>, doc: Doc, v: set<nat>, lv: nat, i: nat)
    requires Replayed(log, base, done, doc)
    requires v <= base + done && Closed(log.g, v) && Closed(log.g, v - {lv})
    requires lv in done && lv in v && lv < |log.ops| && (log.ops[lv].Del? ==> lv in doc.targets)
    requires i < |doc.order| && doc.order[i].opId == Affected(log, doc, lv)
    ensures ViewAt(doc, v - {lv}) == ViewAt(doc, v)[i := ViewAt(doc, v)[i].(curState := ViewAt(doc, v)[i].curState - 1)]
    ensures ViewAt(doc, v) == ViewAt(doc, v - {lv})[i := ViewAt(doc, v - {lv})[i].(curState := ViewAt(doc, v - {lv})[i].curState + 1)]
  {
    forall k | 0 <= k < |doc.order|
      ensures StateAt(doc.targets, v - {lv}, doc.order[k].opId) == StateAt(doc.targets, v, doc.order[k].opId) - (if k == i then 1 else 0)
    {
      assert InOrder(doc.order, doc.order[k].opId);
      StateWithout(log, base, done, doc, v, lv, doc.order[k].opId);
    }
  }

  /** Retreating over an operation that nothing else present depends on succeeds, and shows the smaller version. */
  lemma {:induction false} RetreatStep<T>(log: Log<T>, base: set<nat>, done: set<nat>, doc: Doc, v: set<nat>, lv: nat)
    requires Replayed(log, base, done, doc)
    requires v <= base + done && Closed(log.g, v) && Closed(log.g, v - {lv})
    requires lv in done && lv in v
    ensures lv < |log.ops|
    ensures Retreat1(log, Ctx(ViewAt(doc, v), doc.targets), lv) == Some(Ctx(ViewAt(doc, v - {lv}), doc.targets))
  {
    var i := ItemFound(log, base, done, doc, v, lv);
    assert InOrder(doc.order, doc.order[i].opId);
    StateWithout(log, base, done, doc, v, lv, doc.order[i].opId);
    ViewWithout(log, base, done, doc, v, lv, i);
  }

  /** Advancing over an operation whose parents are present succeeds, and shows the larger version. */
  lemma {:induction false} AdvanceStep<T>(log: Log<T>, base: set<nat>, done: set<nat>, doc: Doc, v: set<nat>, lv: nat)
    requires Replayed(log, base, done, doc)
    requires v <= base + done && Closed(log.g, v)
    requires lv in done && lv !in v && forall p | p in log.g[lv] :: p in v
    ensures lv < |log.ops|
    ensures Advance1(log, Ctx(ViewAt(doc, v), doc.targets), lv) == Some(Ctx(ViewAt(doc, v + {lv}), doc.targets))
  {
    assert (v + {lv}) - {lv} == v;
    var i := ItemFound(log, base, done, doc, v, lv);
    assert InOrder(doc.order, doc.order[i].opId);
    StateWithout(log, base, done, doc, v + {lv}, lv, doc.order[i].opId);
    ViewWithout(log, base, done, doc, v + {lv}, lv, i);
  }

  // ---- Applying an operation at its parents ----

  ghost function DocApply<T>(log: Log<T>, doc: Doc, lv: nat): Option<(Doc, Edit<T>)>
    requires ValidLog(log) && lv < |log.ops| && InGraph(log.g, log.g[lv])
  {
    match Apply1(log, Ctx(ViewAt(doc, Hist(log.g, log.g[lv])), doc.targets), lv)
    case None => None
    case Some(applied) => Some((Doc(Strip(applied.ctx.items), applied.ctx.targets), applied.edit))
  }

  /** The position of `lv` lies inside the document as its author saw it. */
  ghost predicate InRange<T>(log: Log<T>, doc: Doc, lv: nat)
    requires ValidLog(log) && lv < |log.ops| && InGraph(log.g, log.g[lv])
  {
    var visible := Visible(ViewAt(doc, Hist(log.g, log.g[lv])));
    match log.ops[lv]
    case Ins(pos, _) => pos <= |visible|
    case Del(pos) => pos < |visible|
  }

  ghost predicate RefersInside(items: seq<Item>) {
    forall i | 0 <= i < |items| ::
      && (items[i].originLeft == -1 || HasId(items, items[i].originLeft))
      && (items[i].rightParent == -1 || HasId(items, items[i].rightParent))
  }

  lemma {:induction false} FindIdxPresent(items: seq<Item>, id: int)
    ensures FindIdx(items, id) < |items| <==> HasId(items, id)
  {
    if HasId(items, id) {
      var i :| 0 <= i < |items| && items[i].opId == id;
      assert FindIdx(items, id) <= i;
    }
  }

  /** The scan of `integrate` throws no error, and stops no later than the next settled item. */
  lemma {:induction false} ScanSucceeds(items: seq<Item>, ids: seq<RawVersion>, newId: nat, rightParent: int, leftIdx: int, rightIdx: nat,
                                        scanIdx: nat, cursor: nat, scanning: bool)
    requires cursor <= scanIdx <= |items| && newId < |ids| && RefersInside(items)
    requires forall i | 0 <= i < |items| && items[i].curState == NOT_YET_INSERTED :: items[i].opId < |ids| && items[i].opId != rightParent
    ensures var r := Scan(items, ids, newId, rightParent, leftIdx, rightIdx, scanIdx, cursor, scanning);
            r.Some? && r.value <= NextSettled(items, scanIdx)
    decreases |items| - scanIdx
  {
    hide HasId, RawLess;
    if scanIdx < |items| && items[scanIdx].curState == NOT_YET_INSERTED {
      var other := items[scanIdx];
      FindIdxPresent(items, other.originLeft);
      FindIdxPresent(items, other.rightParent);
      var d := Decide(items, ids, newId, rightParent, leftIdx, rightIdx, scanIdx, scanning);
      if d.Go? {
        ScanSucceeds(items, ids, newId, rightParent, leftIdx, rightIdx, scanIdx + 1, if d.scanning then cursor else scanIdx + 1, d.scanning);
      }
    }
  }

  lemma {:induction false} IntegrateSucceeds(items: seq<Item>, ids: seq<RawVersion>, newId: nat, cursor: nat, originLeft: int)
    requires cursor <= |items| && newId < |ids| && RefersInside(items) && DistinctIds(items)
    requires forall i | 0 <= i < |items| && items[i].curState == NOT_YET_INSERTED :: items[i].opId < |ids|
    ensures var r := Integrate(items, ids, newId, RightParentAt(items, cursor, originLeft), cursor);
            r.Some? && cursor <= r.value <= NextSettled(items, cursor)
  {
    hide Scan, HasId, FindIdx;
    var rightParent := RightParentAt(items, cursor, originLeft);
    if cursor < |items| && items[cursor].curState == NOT_YET_INSERTED {
      FindIdxPresent(items, rightParent);
      var rightIdx := if rightParent == -1 then |items| else FindIdx(items, rightParent);
      ScanSucceeds(items, ids, newId, rightParent, cursor - 1, rightIdx, cursor, cursor, false);
    }
  }

  lemma {:induction false} ViewRefersInside<T>(log: Log<T>, base: set<nat>, done: set<nat>, doc: Doc, v: set<nat>)
    requires Replayed(log, base, done, doc)
    ensures RefersInside(ViewAt(doc, v)) && DistinctIds(ViewAt(doc, v))
    ensures forall i | 0 <= i < |ViewAt(doc, v)| && ViewAt(doc, v)[i].curState == NOT_YET_INSERTED :: ViewAt(doc, v)[i].opId < |log.ids|
  {
    var items := ViewAt(doc, v);
    forall i | 0 <= i < |items|
      ensures items[i].originLeft == -1 || HasId(items, items[i].originLeft)
      ensures items[i].rightParent == -1 || HasId(items, items[i].rightParent)
    {
      if items[i].originLeft != -1 {
        var j :| 0 <= j < |doc.order| && j < i && doc.order[j].opId == doc.order[i].originLeft;
        assert items[j].opId == items[i].originLeft;
      }
      if items[i].rightParent != -1 {
        var j :| 0 <= j < |doc.order| && i < j && doc.order[j].opId == doc.order[i].rightParent;
        assert items[j].opId == items[i].rightParent;
      }
    }
  }

  /** An operation can be replayed exactly when its position was inside the document its author saw. */
  lemma {:induction false} AppliesIffInRange<T>(log: Log<T>, base: set<nat>, done: set<nat>, doc: Doc, lv: nat)
    requires Replayed(log, base, done, doc) && lv < |log.g| && InGraph(log.g, log.g[lv])
    ensures DocApply(log, doc, lv).Some? <==> InRange(log, doc, lv)
  {
    var items := ViewAt(doc, Hist(log.g, log.g[lv]));
    ViewRefersInside(log, base, done, doc, Hist(log.g, log.g[lv]));
    match log.ops[lv]
    case Del(pos) =>
    case Ins(pos, _) =>
      var cursor := CursorAt(items, pos);
      if cursor.Some? {
        IntegrateSucceeds(items, log.ids, lv, cursor.value, if cursor.value == 0 then -1 else items[cursor.value - 1].opId);
      }
  }

  /** The order after an insert at index `k`. */
  ghost function OrderWith(order: seq<Placed>, k: nat, p: Placed): seq<Placed>
    requires k <= |order|
  {
    order[..k] + [p] + order[k..]
  }

  lemma {:induction false} OriginsOrderedWith(order: seq<Placed>, k: nat, p: Placed)
    requires k <= |order| && OriginsOrdered(order)
    requires p.originLeft == -1 || Before(order, p.originLeft, k)
    requires p.rightParent == -1 || After(order, p.rightParent, k - 1)
    ensures OriginsOrdered(OrderWith(order, k, p))
  {
    var order' := OrderWith(order, k, p);
    forall i | 0 <= i < |order'|
      ensures order'[i].originLeft == -1 || Before(order', order'[i].originLeft, i)
      ensures order'[i].rightParent == -1 || After(order', order'[i].rightParent, i)
    {
      var i0 := if i <= k then i else i - 1;
      if order'[i].originLeft != -1 {
        var j :| 0 <= j < |order| && j < i0 && order[j].opId == order'[i].originLeft;
        assert order'[if j < k then j else j + 1].opId == order'[i].originLeft;
      }
      if order'[i].rightParent != -1 {
        var j :| 0 <= j < |order| && (if i == k then k - 1 else i0) < j && order[j].opId == order'[i].rightParent;
        assert order'[if j < k then j else j + 1].opId == order'[i].rightParent;
      }
    }
  }

  lemma {:induction false} NewTargetState(targets: map<nat, nat>, v: set<nat>, lv: nat, id: nat, target: nat)
    requires lv !in targets && lv !in v && id != lv
    ensures StateAt(targets[lv := target], v + {lv}, id) ==
            StateAt(targets, v, id) + (if id == target && !(id < PLACEHOLDER_BASE && id !in v) then 1 else 0)
    ensures EndState(targets[lv := target], id) == if id == target then DELETED else EndState(targets, id)
  {
    var targets' := targets[lv := target];
    if id == target {
      assert DeletesOf(targets', v + {lv}, id) == DeletesOf(targets, v, id) + {lv};
      assert lv in targets' && targets'[lv] == id;
    } else {
      assert DeletesOf(targets', v + {lv}, id) == DeletesOf(targets, v, id);
      if exists d :: d in targets && targets[d] == id {
        var d :| d in targets && targets[d] == id;
        assert d in targets' && targets'[d] == id;
      }
    }
  }

  lemma {:induction false} DeletedMatches<T>(log: Log<T>, base: set<nat>, done: set<nat>, doc: Doc, lv: nat, target: nat)
    requires Replayed(log, base, done, doc) && lv < |log.g| && lv !in base + done
    requires log.ops[lv].Del? && (forall p | p in log.g[lv] :: p in base + done) && InGraph(log.g, log.g[lv])
    requires InOrder(doc.order, target) && (target < PLACEHOLDER_BASE ==> target in Hist(log.g, log.g[lv]))
    ensures Replayed(log, base, done + {lv}, Doc(doc.order, doc.targets[lv := target]))
  {
    hide Hist, OriginsOrdered, DistinctOrder;
    assert base + (done + {lv}) == base + done + {lv};
  }

  /** The items after a delete are the items before it, but for the one it hit. */
  lemma {:induction false} ViewDeleted(doc: Doc, v: set<nat>, lv: nat, i: nat)
    requires lv !in doc.targets && lv !in v && i < |doc.order| && StateAt(doc.targets, v, doc.order[i].opId) == INSERTED
    requires DistinctOrder(doc.order) && !InOrder(doc.order, lv)
    ensures ViewAt(Doc(doc.order, doc.targets[lv := doc.order[i].opId]), v + {lv}) ==
            ViewAt(doc, v)[i := ViewAt(doc, v)[i].(curState := DELETED, endState := DELETED)]
  {
    var items, target := ViewAt(doc, v), doc.order[i].opId;
    forall k | 0 <= k < |doc.order|
      ensures ItemAt(doc.targets[lv := target], v + {lv}, doc.order[k]) ==
              (if k == i then items[i].(curState := DELETED, endState := DELETED) else items[k])
    {
      NewTargetState(doc.targets, v, lv, doc.order[k].opId, target);
    }
  }

  /** Replaying a delete: the item it finds is deleted now and in the end, and nothing else changes. */
  lemma {:induction false} DeleteStep<T>(log: Log<T>, base: set<nat>, done: set<nat>, doc: Doc, lv: nat)
    requires Replayed(log, base, done, doc) && lv < |log.g| && lv !in base + done
    requires log.ops[lv].Del? && (forall p | p in log.g[lv] :: p in base + done) && InGraph(log.g, log.g[lv])
    requires DocApply(log, doc, lv).Some?
    ensures var v := Hist(log.g, log.g[lv]);
            var doc' := DocApply(log, doc, lv).value.0;
            && Apply1(log, Ctx(ViewAt(doc, v), doc.targets), lv).value.ctx == Ctx(ViewAt(doc', v + {lv}), doc'.targets)
            && Replayed(log, base, done + {lv}, doc')
            && doc'.order == doc.order
  {
    hide Hist, OriginsOrdered, Closed;
    var v := Hist(log.g, log.g[lv]);
    var items := ViewAt(doc, v);
    var i := TargetAt(items, log.ops[lv].pos).value;
    var target := doc.order[i].opId;
    var doc' := DocApply(log, doc, lv).value.0;
    HistOne(log.g, lv);
    assert doc'.order == doc.order;
    assert doc'.targets == doc.targets[lv := target];
    ViewDeleted(doc, v, lv, i);
    DeletedMatches(log, base, done, doc, lv, target);
  }

  lemma {:induction false} StripView(doc: Doc, v: set<nat>)
    ensures Strip(ViewAt(doc, v)) == doc.order
  {
  }

  lemma {:induction false} StripWithItem(items: seq<Item>, k: nat, item: Item)
    requires k <= |items|
    ensures Strip(WithItem(items, k, item)) == OrderWith(Strip(items), k, Placed(item.opId, item.originLeft, item.rightParent))
  {
  }

  /** The item that an insert at its parents' version makes. */
  ghost function NewPlaced<T>(log: Log<T>, doc: Doc, lv: nat, c: nat): Placed
    requires ValidLog(log) && lv < |log.g| && InGraph(log.g, log.g[lv]) && c <= |doc.order|
  {
    var item := NewItem(ViewAt(doc, Hist(log.g, log.g[lv])), c, lv);
    Placed(lv, item.originLeft, item.rightParent)
  }

  lemma {:induction false} InsertApplies<T>(log: Log<T>, doc: Doc, lv: nat, c: nat, k: nat)
    requires ValidLog(log) && lv < |log.g| && InGraph(log.g, log.g[lv]) && log.ops[lv].Ins? && c <= |doc.order|
    requires CursorAt(ViewAt(doc, Hist(log.g, log.g[lv])), log.ops[lv].pos) == Some(c)
    requires Integrate(ViewAt(doc, Hist(log.g, log.g[lv])), log.ids, lv, NewPlaced(log, doc, lv, c).rightParent, c) == Some(k)
    ensures k <= |doc.order|
    ensures DocApply(log, doc, lv) == Some((Doc(OrderWith(doc.order, k, NewPlaced(log, doc, lv, c)), doc.targets),
                                            Put(|EndVisible(ViewAt(doc, Hist(log.g, log.g[lv]))[..k])|, log.ops[lv].content)))
  {
    hide Visible, EndVisible, Integrate, CursorAt, ViewAt, Hist, Strip, WithItem, RightParentAt;
    var items := ViewAt(doc, Hist(log.g, log.g[lv]));
    StripView(doc, Hist(log.g, log.g[lv]));
    StripWithItem(items, k, NewItem(items, c, lv));
  }

  /** Adding a fresh visible item to the order adds it to the view and changes nothing else. */
  lemma {:induction false} ViewWithItem(doc: Doc, v: set<nat>, k: nat, item: Item)
    requires k <= |doc.order| && !InOrder(doc.order, item.opId) && item.opId !in doc.targets
    requires item.curState == INSERTED && item.endState == INSERTED
    requires forall d | d in doc.targets :: doc.targets[d] != item.opId
    ensures ViewAt(Doc(OrderWith(doc.order, k, Placed(item.opId, item.originLeft, item.rightParent)), doc.targets), v + {item.opId})
            == WithItem(ViewAt(doc, v), k, item)
  {
    var order' := OrderWith(doc.order, k, Placed(item.opId, item.originLeft, item.rightParent));
    forall j | 0 <= j < |order'|
      ensures ItemAt(doc.targets, v + {item.opId}, order'[j]) == WithItem(ViewAt(doc, v), k, item)[j]
    {
      if j == k {
        assert DeletesOf(doc.targets, v + {item.opId}, item.opId) == {};
      } else {
        var id := doc.order[if j < k then j else j - 1].opId;
        assert InOrder(doc.order, id);
        assert DeletesOf(doc.targets, v + {item.opId}, id) == DeletesOf(doc.targets, v, id);
      }
    }
  }

  /** Replaying an insert: the new item is visible now and in the end, and nothing else changes. */
  lemma {:induction false} InsertStep<T>(log: Log<T>, base: set<nat>, done: set<nat>, doc: Doc, lv: nat)
    requires Replayed(log, base, done, doc) && lv < |log.g| && lv !in base + done
    requires log.ops[lv].Ins? && (forall p | p in log.g[lv] :: p in base + done) && InGraph(log.g, log.g[lv])
    requires DocApply(log, doc, lv).Some?
    ensures var v := Hist(log.g, log.g[lv]);
            var doc' := DocApply(log, doc, lv).value.0;
            && Apply1(log, Ctx(ViewAt(doc, v), doc.targets), lv).value.ctx == Ctx(ViewAt(doc', v + {lv}), doc'.targets)
            && Replayed(log, base, done + {lv}, doc')
  {
    hide ViewAt, Strip, OriginsOrdered, Visible, EndVisible, Integrate, Hist;
    var v := Hist(log.g, log.g[lv]);
    var items := ViewAt(doc, v);
    var cursor := CursorAt(items, log.ops[lv].pos).value;
    var item := NewItem(items, cursor, lv);
    ViewRefersInside(log, base, done, doc, v);
    IntegrateSucceeds(items, log.ids, lv, cursor, item.originLeft);
    var k := Integrate(items, log.ids, lv, item.rightParent, cursor).value;
    var p := Placed(lv, item.originLeft, item.rightParent);
    StripView(doc, v);
    StripWithItem(items, k, item);
    assert !InOrder(doc.order, lv) && lv !in doc.targets;
    ViewWithItem(doc, v, k, item);
    InsertedOrder(log, base, done, doc, items, cursor, k, p);
  }

  lemma {:induction false} InsertedOrder<T>(log: Log<T>, base: set<nat>, done: set<nat>, doc: Doc, items: seq<Item>, cursor: nat, k: nat, p: Placed)
    requires Replayed(log, base, done, doc)
    requires Strip(items) == doc.order && cursor <= k <= |items| && k <= NextSettled(items, cursor)
    requires p.opId < |log.g| && log.ops[p.opId].Ins? && p.opId !in base + done && forall q | q in log.g[p.opId] :: q in base + done
    requires p.originLeft == if cursor == 0 then -1 else items[cursor - 1].opId
    requires p.rightParent == RightParentAt(items, cursor, p.originLeft)
    ensures Replayed(log, base, done + {p.opId}, Doc(OrderWith(doc.order, k, p), doc.targets))
  {
    hide OriginsOrdered, Hist, DistinctOrder, OrderWith;
    forall i | 0 <= i < |items|
      ensures items[i].opId == doc.order[i].opId
    {
      assert doc.order[i] == Strip(items)[i];
    }
    OriginsOrderedWith(doc.order, k, p);
    KeepsIds(doc.order, k, p);
    InsertedMatches(log, done, doc, k, p);
    assert base + (done + {p.opId}) == base + done + {p.opId};
    assert !InOrder(doc.order, p.opId);
  }

  lemma {:induction false} InsertedMatches<T>(log: Log<T>, done: set<nat>, doc: Doc, k: nat, p: Placed)
    requires ValidLog(log) && k <= |doc.order| && OrderMatches(log, done, doc.order) && TargetsMatch(log, done, doc)
    requires p.opId < |log.ops| && log.ops[p.opId].Ins?
    ensures OrderMatches(log, done + {p.opId}, OrderWith(doc.order, k, p))
    ensures TargetsMatch(log, done + {p.opId}, Doc(OrderWith(doc.order, k, p), doc.targets))
  {
    KeepsIds(doc.order, k, p);
  }

  lemma {:induction false} KeepsIds(order: seq<Placed>, k: nat, p: Placed)
    requires k <= |order|
    ensures forall id: int :: InOrder(OrderWith(order, k, p), id) <==> InOrder(order, id) || id == p.opId
    ensures DistinctOrder(order) && !InOrder(order, p.opId) ==> DistinctOrder(OrderWith(order, k, p))
  {
    var order' := OrderWith(order, k, p);
    forall id: int
      ensures InOrder(order', id) <==> InOrder(order, id) || id == p.opId
    {
      if InOrder(order, id) {
        var i :| 0 <= i < |order| && order[i].opId == id;
        assert order'[if i < k then i else i + 1].opId == id;
      }
      if id == p.opId { assert order'[k].opId == id; }
    }
  }
}
