/** What replaying an operation means: at its parents' version it is a plain positional edit, and
    the snapshot it edits is always the text of the items that survive in the end. */
module Intent {
  import opened Dag
  import opened ListLog
  import opened Items
  import opened Replay

  /** The plain positional edit, as `splice` does it. */
  function Spliced<T>(text: seq<T>, edit: Edit<T>): seq<T> {
    match edit
    case Keep => text
    case Put(at, x) => if at <= |text| then text[..at] + [x] + text[at..] else text + [x]
    case Cut(at) => if at < |text| then text[..at] + text[at + 1..] else text
  }

  /** The edit an operation asks for, read as a splice at its position. */
  function Asked<T>(op: ListOp<T>): Edit<T> {
    match op
    case Ins(pos, content) => Put(pos, content)
    case Del(pos) => Cut(pos)
  }

  function AskedId<T>(op: ListOp<T>, lv: nat): Edit<nat> {
    match op
    case Ins(pos, _) => Put(pos, lv)
    case Del(pos) => Cut(pos)
  }

  lemma {:induction false} NoneVisible(items: seq<Item>, i: nat, j: nat)
    requires i <= j <= |items|
    requires forall k | i <= k < j :: items[k].curState == NOT_YET_INSERTED
    ensures Visible(items[..j]) == Visible(items[..i])
    decreases j
  {
    if i < j {
      VisiblePrefix(items, j - 1);
      NoneVisible(items, i, j - 1);
    }
  }

  lemma {:induction false} VisibleWithItem(items: seq<Item>, k: nat, item: Item)
    requires k <= |items| && item.curState == INSERTED && item.endState == INSERTED
    ensures Visible(WithItem(items, k, item)) == Visible(items[..k]) + [item.opId] + Visible(items[k..])
    ensures EndVisible(WithItem(items, k, item)) == EndVisible(items[..k]) + [item.opId] + EndVisible(items[k..])
    ensures Visible(items) == Visible(items[..k]) + Visible(items[k..])
    ensures EndVisible(items) == EndVisible(items[..k]) + EndVisible(items[k..])
  {
    assert items == items[..k] + items[k..];
    assert [item][..0] == [];
    VisibleConcat(items[..k], items[k..]);
    VisibleConcat(items[..k] + [item], items[k..]);
    VisibleConcat(items[..k], [item]);
  }

  lemma {:induction false} VisibleUpdated(items: seq<Item>, i: nat, item: Item)
    requires i < |items| && item.opId == items[i].opId
    ensures Visible(items[i := item]) ==
            Visible(items[..i]) + (if item.curState == INSERTED then [item.opId] else []) + Visible(items[i + 1..])
    ensures EndVisible(items[i := item]) ==
            EndVisible(items[..i]) + (if item.endState == INSERTED then [item.opId] else []) + EndVisible(items[i + 1..])
  {
    assert items[i := item] == items[..i] + [item] + items[i + 1..];
    assert [item][..0] == [];
    VisibleConcat(items[..i] + [item], items[i + 1..]);
    VisibleConcat(items[..i], [item]);
  }

  lemma {:induction false} DeleteAsAsked(items: seq<Item>, i: nat)
    requires i < |items| && items[i].curState == INSERTED
    ensures |Visible(items[..i])| < |Visible(items)|
    ensures Visible(items[i := items[i].(curState := DELETED, endState := DELETED)]) == Spliced(Visible(items), Cut(|Visible(items[..i])|))
  {
    VisibleUpdated(items, i, items[i]);
    assert items[i := items[i]] == items;
    VisibleUpdated(items, i, items[i].(curState := DELETED, endState := DELETED));
  }

  lemma {:induction false} InsertAsAsked(items: seq<Item>, cursor: nat, k: nat, item: Item)
    requires cursor <= k <= |items| && k <= NextSettled(items, cursor)
    requires item.curState == INSERTED && item.endState == INSERTED
    ensures Visible(WithItem(items, k, item)) == Spliced(Visible(items), Put(|Visible(items[..cursor])|, item.opId))
  {
    NoneVisible(items, cursor, k);
    VisibleWithItem(items, k, item);
  }

  /** Intent: among the items visible at its parents, an operation is a splice at its own position. */
  lemma {:induction false} AppliedAsAsked<T>(log: Log<T>, ctx: Ctx, lv: nat)
    requires lv < |log.ops| == |log.ids| && RefersInside(ctx.items) && DistinctIds(ctx.items)
    requires forall i | 0 <= i < |ctx.items| && ctx.items[i].curState == NOT_YET_INSERTED :: ctx.items[i].opId < |log.ids|
    requires Apply1(log, ctx, lv).Some?
    ensures Visible(Apply1(log, ctx, lv).value.ctx.items) == Spliced(Visible(ctx.items), AskedId(log.ops[lv], lv))
  {
    hide Visible, WithItem, Integrate, RefersInside, DistinctIds;
    var items := ctx.items;
    match log.ops[lv]
    case Del(pos) =>
      DeleteAsAsked(items, TargetAt(items, pos).value);
    case Ins(pos, _) =>
      var cursor := CursorAt(items, pos).value;
      var item := NewItem(items, cursor, lv);
      IntegrateSucceeds(items, log.ids, lv, cursor, item.originLeft);
      InsertAsAsked(items, cursor, Integrate(items, log.ids, lv, item.rightParent, cursor).value, item);
  }

  /** The edit as it acts on item IDs: the cut of an item already gone is dropped. */
  ghost function IdEdit<T>(edit: Edit<T>, lv: nat): Edit<nat> {
    match edit
    case Keep => Keep
    case Put(at, _) => Put(at, lv)
    case Cut(at) => Cut(at)
  }

  /** The edit made to the snapshot is exactly the change to the items that survive in the end. */
  lemma {:induction false} EditMatchesItems<T>(log: Log<T>, ctx: Ctx, lv: nat)
    requires lv < |log.ops| == |log.ids|
    requires Apply1(log, ctx, lv).Some?
    requires forall i | 0 <= i < |ctx.items| :: ctx.items[i].endState == INSERTED || ctx.items[i].endState == DELETED
    ensures EndVisible(Apply1(log, ctx, lv).value.ctx.items) == Spliced(EndVisible(ctx.items), IdEdit(Apply1(log, ctx, lv).value.edit, lv))
    ensures match Apply1(log, ctx, lv).value.edit
            case Keep => true
            case Put(at, x) => at <= |EndVisible(ctx.items)| && log.ops[lv].Ins? && x == log.ops[lv].content
            case Cut(at) => at < |EndVisible(ctx.items)| && log.ops[lv].Del?
  {
    hide Visible, EndVisible, WithItem, Integrate, Spliced, NextSettled;
    var items := ctx.items;
    match log.ops[lv]
    case Del(pos) =>
      DeleteEnds(items, TargetAt(items, pos).value);
      NothingSpliced(EndVisible(items));
    case Ins(pos, _) =>
      var cursor := CursorAt(items, pos).value;
      var item := NewItem(items, cursor, lv);
      InsertEnds(items, Integrate(items, log.ids, lv, item.rightParent, cursor).value, item);
  }

  lemma {:induction false} NothingSpliced(ids: seq<nat>)
    ensures Spliced(ids, Keep) == ids
  {
  }

  /** A delete cuts the item it hits, unless that is gone in the end already. */
  lemma {:induction false} DeleteEnds(items: seq<Item>, i: nat)
    requires i < |items| && (items[i].endState == INSERTED || items[i].endState == DELETED)
    ensures var at := |EndVisible(items[..i])|; var rest := EndVisible(items[i := items[i].(curState := DELETED, endState := DELETED)]);
            if items[i].endState == INSERTED then at < |EndVisible(items)| && rest == Spliced(EndVisible(items), Cut(at)) else rest == EndVisible(items)
  {
    hide Visible, EndVisible;
    VisibleUpdated(items, i, items[i]);
    assert items[i := items[i]] == items;
    VisibleUpdated(items, i, items[i].(curState := DELETED, endState := DELETED));
  }

  lemma {:induction false} InsertEnds(items: seq<Item>, k: nat, item: Item)
    requires k <= |items| && item.curState == INSERTED && item.endState == INSERTED
    ensures var at := |EndVisible(items[..k])|;
            at <= |EndVisible(items)| && EndVisible(WithItem(items, k, item)) == Spliced(EndVisible(items), Put(at, item.opId))
  {
    hide Visible, EndVisible;
    VisibleWithItem(items, k, item);
  }

  // ---- Texts ----

  /** `filler` holds the text of the placeholders. */
  ghost predicate KnownId<T>(log: Log<T>, filler: seq<T>, id: nat) {
    (id < |log.ops| && log.ops[id].Ins?) || PLACEHOLDER_BASE <= id < PLACEHOLDER_BASE + |filler|
  }

  ghost predicate KnownIds<T>(log: Log<T>, filler: seq<T>, ids: seq<nat>) {
    forall i | 0 <= i < |ids| :: KnownId(log, filler, ids[i])
  }

  ghost function ContentOf<T>(log: Log<T>, filler: seq<T>, id: nat): T
    requires KnownId(log, filler, id)
  {
    if id < |log.ops| && log.ops[id].Ins? then log.ops[id].content else filler[id - PLACEHOLDER_BASE]
  }

  /** The text a list of item IDs stands for. */
  ghost function Render<T>(log: Log<T>, filler: seq<T>, ids: seq<nat>): (r: seq<T>)
    requires KnownIds(log, filler, ids)
    ensures |r| == |ids|
  {
    seq(|ids|, i requires 0 <= i < |ids| => ContentOf(log, filler, ids[i]))
  }

  /** Everything that survives in the end, in document order. */
  ghost function EndIds(doc: Doc): seq<nat> {
    EndVisible(ViewAt(doc, {}))
  }

  lemma {:induction false} EndVisibleSame(a: seq<Item>, b: seq<Item>)
    requires |a| == |b| && forall i | 0 <= i < |a| :: a[i].opId == b[i].opId && a[i].endState == b[i].endState
    ensures EndVisible(a) == EndVisible(b)
  {
    if a != [] {
      EndVisibleSame(a[..|a| - 1], b[..|b| - 1]);
    }
  }

  lemma {:induction false} EndIdsAt(doc: Doc, v: set<nat>)
    ensures EndVisible(ViewAt(doc, v)) == EndIds(doc)
  {
    EndVisibleSame(ViewAt(doc, v), ViewAt(doc, {}));
  }

  /** Placeholders stand for `filler`, and the last `extras` of them are unused ballast at the end. */
  ghost predicate HasFiller<T>(filler: seq<T>, extras: nat, doc: Doc) {
    && extras <= |filler| && extras <= |doc.order|
    && (forall i | 0 <= i < |doc.order| && doc.order[i].opId >= PLACEHOLDER_BASE :: doc.order[i].opId < PLACEHOLDER_BASE + |filler|)
    && (forall i | |doc.order| - extras <= i < |doc.order| :: doc.order[i].opId == PLACEHOLDER_BASE + |filler| - |doc.order| + i)
    && (forall d | d in doc.targets :: doc.targets[d] < PLACEHOLDER_BASE + |filler| - extras)
  }

  /** The snapshot is the text of the surviving items, up to the ballast. */
  ghost predicate InSync<T>(log: Log<T>, filler: seq<T>, extras: nat, doc: Doc, text: seq<T>) {
    && extras <= |filler|
    && KnownIds(log, filler, EndIds(doc))
    && Render(log, filler, EndIds(doc)) == text + filler[|filler| - extras..]
  }

  /** The position lies inside the real document, not in the ballast. */
  ghost predicate InRealRange<T>(log: Log<T>, doc: Doc, extras: nat, lv: nat)
    requires ValidLog(log) && lv < |log.ops| && InGraph(log.g, log.g[lv])
  {
    var visible := Visible(ViewAt(doc, Hist(log.g, log.g[lv])));
    match log.ops[lv]
    case Ins(pos, _) => pos + extras <= |visible|
    case Del(pos) => pos + extras < |visible|
  }

  lemma {:induction false} AllVisible(items: seq<Item>)
    requires forall i | 0 <= i < |items| :: items[i].curState == INSERTED && items[i].endState == INSERTED
    ensures |Visible(items)| == |EndVisible(items)| == |items|
  {
    if items != [] {
      AllVisible(items[..|items| - 1]);
    }
  }

  /** The ballast is visible at every version. */
  lemma {:induction false} BallastVisible<T>(filler: seq<T>, extras: nat, doc: Doc, v: set<nat>)
    requires HasFiller(filler, extras, doc)
    ensures var items := ViewAt(doc, v);
            var live := |items| - extras;
            && (forall i | live <= i < |items| :: items[i].curState == INSERTED && items[i].endState == INSERTED)
            && |Visible(items)| == |Visible(items[..live])| + extras
            && |EndVisible(items)| == |EndVisible(items[..live])| + extras
  {
    var items := ViewAt(doc, v);
    var live := |items| - extras;
    forall i | live <= i < |items|
      ensures items[i].curState == INSERTED && items[i].endState == INSERTED
    {
      assert DeletesOf(doc.targets, v, doc.order[i].opId) == {};
    }
    AllVisible(items[live..]);
    VisibleConcat(items[..live], items[live..]);
    assert items == items[..live] + items[live..];
  }

  lemma {:induction false} EndVisibleMonotone(items: seq<Item>, i: nat, j: nat)
    requires i <= j <= |items|
    ensures |EndVisible(items[..i])| <= |EndVisible(items[..j])|
    decreases j
  {
    if i < j {
      VisiblePrefix(items, j - 1);
      EndVisibleMonotone(items, i, j - 1);
    }
  }

  /** An insert whose position lies in the real document is placed before the ballast. */
  lemma {:induction false} PlacedBeforeBallast(items: seq<Item>, live: nat, cursor: nat, k: nat)
    requires live <= |items| && cursor <= k <= |items| && k <= NextSettled(items, cursor)
    requires |Visible(items[..cursor])| <= |Visible(items[..live])|
    requires cursor > 0 ==> items[cursor - 1].curState == INSERTED
    requires forall i | live <= i < |items| :: items[i].curState == INSERTED
    ensures k <= live
  {
    if cursor > live {
      VisiblePrefix(items, cursor - 1);
      VisibleMonotone(items, live, cursor - 1);
    } else if live < |items| {
      assert items[live].curState == INSERTED;
    }
  }

  /** A delete whose position lies in the real document hits nothing in the ballast. */
  lemma {:induction false} HitBeforeBallast(items: seq<Item>, live: nat, i: nat)
    requires live <= |items| && i < |items|
    requires |Visible(items[..i])| < |Visible(items[..live])|
    ensures i < live
  {
    if i >= live {
      VisibleMonotone(items, live, i);
    }
  }

  /** The snapshot edit falls inside the real text. */
  lemma {:induction false} EditInReal<T>(log: Log<T>, base: set<nat>, done: set<nat>, doc: Doc, lv: nat, filler: seq<T>, extras: nat)
    requires Replayed(log, base, done, doc) && lv < |log.g| && InGraph(log.g, log.g[lv])
    requires HasFiller(filler, extras, doc) && InRealRange(log, doc, extras, lv)
    requires DocApply(log, doc, lv).Some?
    ensures match DocApply(log, doc, lv).value.1
            case Keep => true
            case Put(at, _) => at + extras <= |EndIds(doc)|
            case Cut(at) => at + extras < |EndIds(doc)|
    ensures match log.ops[lv]
            case Ins(pos, _) => true
            case Del(pos) =>
              TargetAt(ViewAt(doc, Hist(log.g, log.g[lv])), pos).value < |doc.order| - extras
    ensures match log.ops[lv]
            case Ins(pos, _) =>
              var items := ViewAt(doc, Hist(log.g, log.g[lv]));
              var cursor := CursorAt(items, pos).value;
              Integrate(items, log.ids, lv, NewItem(items, cursor, lv).rightParent, cursor).value <= |doc.order| - extras
            case Del(_) => true
  {
    hide Visible, EndVisible, OriginsOrdered, OrderMatches, TargetsMatch, HasFiller, Scan;
    var v := Hist(log.g, log.g[lv]);
    var items := ViewAt(doc, v);
    FillerBound(filler, extras, doc);
    var live := |items| - extras;
    BallastVisible(filler, extras, doc, v);
    EndIdsAt(doc, v);
    match log.ops[lv]
    case Del(pos) =>
      var i := TargetAt(items, pos).value;
      HitBeforeBallast(items, live, i);
      VisiblePrefix(items, i);
      EndVisibleMonotone(items, i + 1, live);
    case Ins(pos, _) =>
      var cursor := CursorAt(items, pos).value;
      var item := NewItem(items, cursor, lv);
      ViewRefersInside(log, base, done, doc, v);
      IntegrateSucceeds(items, log.ids, lv, cursor, item.originLeft);
      var k := Integrate(items, log.ids, lv, item.rightParent, cursor).value;
      PlacedBeforeBallast(items, live, cursor, k);
      EndVisibleMonotone(items, k, live);
  }

  lemma {:induction false} FillerBound<T>(filler: seq<T>, extras: nat, doc: Doc)
    requires HasFiller(filler, extras, doc)
    ensures extras <= |filler| && extras <= |doc.order|
  {
  }

  lemma {:induction false} RenderSpliced<T>(log: Log<T>, filler: seq<T>, ids: seq<nat>, edit: Edit<T>, lv: nat)
    requires KnownIds(log, filler, ids) && lv < |log.ops|
    requires match edit
             case Keep => true
             case Put(at, x) => at <= |ids| && log.ops[lv].Ins? && x == log.ops[lv].content
             case Cut(at) => at < |ids|
    ensures KnownIds(log, filler, Spliced(ids, IdEdit(edit, lv)))
    ensures Render(log, filler, Spliced(ids, IdEdit(edit, lv))) == Spliced(Render(log, filler, ids), edit)
  {
    hide Spliced;
    var text := Render(log, filler, ids);
    SplicedAt(ids, IdEdit(edit, lv));
    SplicedAt(text, edit);
    forall i | 0 <= i < |Spliced(ids, IdEdit(edit, lv))|
      ensures KnownId(log, filler, Spliced(ids, IdEdit(edit, lv))[i])
      ensures ContentOf(log, filler, Spliced(ids, IdEdit(edit, lv))[i]) == Spliced(text, edit)[i]
    {
    }
  }

  /** A splice, index by index. */
  lemma {:induction false} SplicedAt<T>(text: seq<T>, edit: Edit<T>)
    requires match edit
             case Keep => true
             case Put(at, _) => at <= |text|
             case Cut(at) => at < |text|
    ensures match edit
            case Keep => Spliced(text, edit) == text
            case Put(at, x) =>
              && |Spliced(text, edit)| == |text| + 1 && Spliced(text, edit)[at] == x
              && (forall i | 0 <= i < at :: Spliced(text, edit)[i] == text[i])
              && (forall i | at < i <= |text| :: Spliced(text, edit)[i] == text[i - 1])
            case Cut(at) =>
              && |Spliced(text, edit)| == |text| - 1
              && (forall i | 0 <= i < at :: Spliced(text, edit)[i] == text[i])
              && (forall i | at <= i < |text| - 1 :: Spliced(text, edit)[i] == text[i + 1])
  {
  }

  lemma {:induction false} SplicedBefore<T>(text: seq<T>, rest: seq<T>, edit: Edit<T>)
    requires match edit
             case Keep => true
             case Put(at, _) => at <= |text|
             case Cut(at) => at < |text|
    ensures Spliced(text + rest, edit) == Spliced(text, edit) + rest
  {
    hide Spliced;
    SplicedAt(text, edit);
    SplicedAt(text + rest, edit);
  }

  /** One replayed operation keeps the snapshot equal to the text of the surviving items. */
  lemma {:induction false} StepKeepsSync<T>(log: Log<T>, base: set<nat>, done: set<nat>, doc: Doc, lv: nat, filler: seq<T>, extras: nat, text: seq<T>)
    requires Replayed(log, base, done, doc) && lv < |log.g| && lv !in base + done
    requires (forall p | p in log.g[lv] :: p in base + done) && InGraph(log.g, log.g[lv])
    requires HasFiller(filler, extras, doc) && InRealRange(log, doc, extras, lv)
    requires InSync(log, filler, extras, doc, text)
    requires DocApply(log, doc, lv).Some?
    ensures var (doc', edit) := DocApply(log, doc, lv).value;
            HasFiller(filler, extras, doc') && InSync(log, filler, extras, doc', Spliced(text, edit))
  {
    hide EndIds, ViewAt, HasFiller, OriginsOrdered, OrderMatches, TargetsMatch, InRealRange, DocApply, Render, KnownIds, Spliced, Hist;
    var (doc', edit) := DocApply(log, doc, lv).value;
    EditInReal(log, base, done, doc, lv, filler, extras);
    StepKeepsFiller(log, base, done, doc, lv, filler, extras);
    EndIdsSpliced(log, base, done, doc, lv);
    RenderSpliced(log, filler, EndIds(doc), edit, lv);
    assert |EndIds(doc)| == |text| + extras;
    SplicedBefore(text, filler[|filler| - extras..], edit);
  }

  /** What survives changes by the edit that is made to the snapshot. */
  lemma {:induction false} EndIdsSpliced<T>(log: Log<T>, base: set<nat>, done: set<nat>, doc: Doc, lv: nat)
    requires Replayed(log, base, done, doc) && lv < |log.g| && lv !in base + done
    requires (forall p | p in log.g[lv] :: p in base + done) && InGraph(log.g, log.g[lv])
    requires DocApply(log, doc, lv).Some?
    ensures var (doc', edit) := DocApply(log, doc, lv).value;
            EndIds(doc') == Spliced(EndIds(doc), IdEdit(edit, lv))
    ensures match DocApply(log, doc, lv).value.1
            case Keep => true
            case Put(at, x) => at <= |EndIds(doc)| && log.ops[lv].Ins? && x == log.ops[lv].content
            case Cut(at) => at < |EndIds(doc)| && log.ops[lv].Del?
  {
    hide Visible, EndVisible, OriginsOrdered, OrderMatches, TargetsMatch, Scan, Integrate, Spliced;
    var v := Hist(log.g, log.g[lv]);
    var ctx := Ctx(ViewAt(doc, v), doc.targets);
    var doc' := DocApply(log, doc, lv).value.0;
    EditMatchesItems(log, ctx, lv);
    EndIdsAt(doc, v);
    EndIdsAt(doc', v + {lv});
    assert Apply1(log, ctx, lv).value.ctx.items == ViewAt(doc', v + {lv}) by {
      if log.ops[lv].Del? {
        DeleteStep(log, base, done, doc, lv);
      } else {
        InsertStep(log, base, done, doc, lv);
      }
    }
  }

  lemma {:induction false} StepKeepsFiller<T>(log: Log<T>, base: set<nat>, done: set<nat>, doc: Doc, lv: nat, filler: seq<T>, extras: nat)
    requires Replayed(log, base, done, doc) && lv < |log.g| && lv !in base + done
    requires (forall p | p in log.g[lv] :: p in base + done) && InGraph(log.g, log.g[lv])
    requires HasFiller(filler, extras, doc) && InRealRange(log, doc, extras, lv)
    requires DocApply(log, doc, lv).Some?
    ensures HasFiller(filler, extras, DocApply(log, doc, lv).value.0)
  {
    hide Visible, EndVisible, OriginsOrdered, OrderMatches, TargetsMatch, InRealRange, Scan, Integrate, HasFiller, OrderWith;
    var v := Hist(log.g, log.g[lv]);
    var items := ViewAt(doc, v);
    var doc' := DocApply(log, doc, lv).value.0;
    EditInReal(log, base, done, doc, lv, filler, extras);
    FillerBound(filler, extras, doc);
    match log.ops[lv]
    case Del(pos) =>
      var i := TargetAt(items, pos).value;
      assert doc'.order == doc.order;
      RealIds(filler, extras, base, done, log, doc, i);
      FillerWithTarget(filler, extras, doc, lv, doc.order[i].opId);
    case Ins(pos, _) =>
      var cursor := CursorAt(items, pos).value;
      var item := NewItem(items, cursor, lv);
      var k := Integrate(items, log.ids, lv, item.rightParent, cursor).value;
      StripView(doc, v);
      StripWithItem(items, k, item);
      FillerWithItem(filler, extras, doc, k, Placed(lv, item.originLeft, item.rightParent));
  }

  lemma {:induction false} FillerWithTarget<T>(filler: seq<T>, extras: nat, doc: Doc, lv: nat, target: nat)
    requires HasFiller(filler, extras, doc) && target < PLACEHOLDER_BASE + |filler| - extras
    ensures HasFiller(filler, extras, Doc(doc.order, doc.targets[lv := target]))
  {
  }

  lemma {:induction false} FillerWithItem<T>(filler: seq<T>, extras: nat, doc: Doc, k: nat, p: Placed)
    requires HasFiller(filler, extras, doc) && k + extras <= |doc.order| && p.opId < PLACEHOLDER_BASE
    ensures HasFiller(filler, extras, Doc(OrderWith(doc.order, k, p), doc.targets))
  {
  }

  /** Items before the ballast are not part of it. */
  lemma {:induction false} RealIds<T>(filler: seq<T>, extras: nat, base: set<nat>, done: set<nat>, log: Log<T>, doc: Doc, i: nat)
    requires Replayed(log, base, done, doc) && HasFiller(filler, extras, doc) && i < |doc.order| - extras
    ensures doc.order[i].opId < PLACEHOLDER_BASE + |filler| - extras
  {
    var id := doc.order[i].opId;
    if id >= PLACEHOLDER_BASE + |filler| - extras {
      var j := BallastAt(filler, extras, doc, id);
      Apart(doc.order, i, j);
    }
  }

  /** Where a placeholder of the ballast stands. */
  lemma {:induction false} BallastAt<T>(filler: seq<T>, extras: nat, doc: Doc, id: nat) returns (j: nat)
    requires HasFiller(filler, extras, doc) && PLACEHOLDER_BASE + |filler| - extras <= id < PLACEHOLDER_BASE + |filler|
    ensures |doc.order| - extras <= j < |doc.order| && doc.order[j].opId == id
  {
    j := id - PLACEHOLDER_BASE - |filler| + |doc.order|;
  }

  lemma {:induction false} Apart(order: seq<Placed>, i: nat, j: nat)
    requires DistinctOrder(order) && i < |order| && j < |order| && i != j
    ensures order[i].opId != order[j].opId
  {
  }
}
