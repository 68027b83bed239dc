/** What people type stays together: in every checkout, what ends up between an insert and the next one
    its author makes beside it was inserted by somebody who had seen it. */
module Interleaving {
  import opened Dag
  import opened RleGraph
  import opened ListLog
  import opened Items
  import opened Replay
  import opened ReplayRun
  import opened TreeOrder
  import opened TreeInsert
  import opened Twins
  import opened Convergence

  // ---- Between an item and what it was inserted beside ----

  /** The author of the item at `k` had seen the operation `x`. */
  ghost predicate Saw<T>(log: Log<T>, doc: Doc, k: nat, x: int)
    requires TreeKept(log, doc) && k < |doc.order|
  {
    x in Hist(log.g, log.g[doc.order[k].opId])
  }

  lemma {:induction false} SawThrough<T>(log: Log<T>, doc: Doc, k: nat, m: nat, x: int)
    requires TreeKept(log, doc) && k < |doc.order| && m < |doc.order| && Saw(log, doc, k, doc.order[m].opId) && Saw(log, doc, m, x)
    ensures Saw(log, doc, k, x)
  {
    hide Hist, Nested;
    var a, b := doc.order[k].opId, doc.order[m].opId;
    HistClosed(log.g, log.g[a]);
    HistLeast(log.g, log.g[b], Hist(log.g, log.g[a]));
  }

  /** What an item refers to, by index. */
  lemma {:induction false} Refers<T>(log: Log<T>, doc: Doc, k: nat)
    requires TreeKept(log, doc) && k < |doc.order|
    ensures -1 <= LeftAt(doc.order, k) < k < RightAt(doc.order, k) <= |doc.order|
    ensures var m := LeftAt(doc.order, k); m != -1 ==> doc.order[m].opId < doc.order[k].opId && Saw(log, doc, k, doc.order[m].opId)
    ensures var m := RightAt(doc.order, k); m < |doc.order| ==> doc.order[m].opId < doc.order[k].opId && Saw(log, doc, k, doc.order[m].opId)
  {
    hide Hist, LeftNested, RightNested, TiesById, LeftAt, RightAt, DistinctOrder;
    SameOrigins(doc.order, k, k);
    var id := doc.order[k].opId;
    if LeftAt(doc.order, k) != -1 { EarlierThan(log.g, id, doc.order[k].originLeft); }
    if RightAt(doc.order, k) < |doc.order| { EarlierThan(log.g, id, doc.order[k].rightParent); }
  }

  lemma {:induction false} LeftBetween(ids: seq<RawVersion>, order: seq<Placed>, i: nat, k: nat)
    requires Nested(ids, order) && k < i < |order| && LeftAt(order, i) < k
    ensures LeftAt(order, i) <= LeftAt(order, k)
  {
    hide LeftAt, RightAt, Inside, RightNested, TiesById;
  }

  lemma {:induction false} RightBetween(ids: seq<RawVersion>, order: seq<Placed>, i: nat, k: nat)
    requires Nested(ids, order) && i < k < |order| && k < RightAt(order, i) && LeftAt(order, i) == LeftAt(order, k)
    ensures RightAt(order, k) <= RightAt(order, i)
  {
    hide LeftAt, RightAt, Inside, LeftNested, TiesById;
  }

  /** Everything between an item and its left origin comes from people who had seen the origin. */
  lemma {:induction false} AfterOrigin<T>(log: Log<T>, doc: Doc, i: nat, k: nat)
    requires TreeKept(log, doc) && k < i < |doc.order| && -1 < LeftAt(doc.order, i) < k
    ensures Saw(log, doc, k, doc.order[LeftAt(doc.order, i)].opId)
    decreases doc.order[k].opId
  {
    hide TreeKept, Hist, LeftAt, RightAt, Saw, Nested;
    Refers(log, doc, k);
    KeptNested(log, doc);
    LeftBetween(log.ids, doc.order, i, k);
    var m := LeftAt(doc.order, k);
    if m != LeftAt(doc.order, i) {
      AfterOrigin(log, doc, i, m);
      SawThrough(log, doc, k, m, doc.order[LeftAt(doc.order, i)].opId);
    }
  }

  lemma {:induction false} KeptNested<T>(log: Log<T>, doc: Doc)
    requires TreeKept(log, doc)
    ensures ValidLog(log) && Nested(log.ids, doc.order) && DistinctOrder(doc.order)
  {
  }

  /** Everything between an item and its right parent comes from people who had seen one of the two. */
  lemma {:induction false} BeforeParent<T>(log: Log<T>, doc: Doc, i: nat, k: nat)
    requires TreeKept(log, doc) && i < k < |doc.order| && k < RightAt(doc.order, i) < |doc.order| && LeftAt(doc.order, RightAt(doc.order, i)) == LeftAt(doc.order, i)
    ensures Saw(log, doc, k, doc.order[RightAt(doc.order, i)].opId) || Saw(log, doc, k, doc.order[i].opId)
    decreases doc.order[k].opId
  {
    hide TreeKept, Hist, LeftAt, RightAt, Saw, Nested;
    var j := RightAt(doc.order, i);
    Refers(log, doc, k);
    Refers(log, doc, i);
    KeptNested(log, doc);
    LeftBetween(log.ids, doc.order, j, k);
    var m := LeftAt(doc.order, k);
    if m == LeftAt(doc.order, i) {
      RightBetween(log.ids, doc.order, i, k);
      var r := RightAt(doc.order, k);
      if r != j {
        BeforeParent(log, doc, i, r);
        SawOneThrough(log, doc, k, r, j, i);
      }
    } else if m < i {
      LeftBetween(log.ids, doc.order, k, i);
      assert false;
    } else if m != i {
      BeforeParent(log, doc, i, m);
      SawOneThrough(log, doc, k, m, j, i);
    }
  }

  lemma {:induction false} SawOneThrough<T>(log: Log<T>, doc: Doc, k: nat, m: nat, j: nat, i: nat)
    requires TreeKept(log, doc) && k < |doc.order| && m < |doc.order| && i < |doc.order| && j < |doc.order|
    requires Saw(log, doc, k, doc.order[m].opId) && (Saw(log, doc, m, doc.order[j].opId) || Saw(log, doc, m, doc.order[i].opId))
    ensures Saw(log, doc, k, doc.order[j].opId) || Saw(log, doc, k, doc.order[i].opId)
  {
    hide TreeKept, Saw;
    if Saw(log, doc, m, doc.order[j].opId) {
      SawThrough(log, doc, k, m, doc.order[j].opId);
    } else {
      SawThrough(log, doc, k, m, doc.order[i].opId);
    }
  }

  // ---- What a view looks like later on ----

  lemma {:induction false} AgreesWithItself<T>(log: Log<T>)
    requires ValidLog(log) && UniqueIds(log)
    ensures LogsAgree(log, log)
    ensures forall x: nat, y: nat | Twin(log, log, x, y) :: x == y
    ensures forall x: nat | x < |log.g| :: Twin(log, log, x, x)
  {
    forall x: nat, y: nat | Twin(log, log, x, y)
      ensures x == y && SameOp(log, log, x, y)
    {
      SameOpItself(log, x);
    }
  }

  lemma {:induction false} SameOpItself<T>(log: Log<T>, x: nat)
    requires ValidLog(log) && x < |log.g|
    ensures SameOp(log, log, x, x)
  {
    forall p | p in log.g[x]
      ensures Twin(log, log, p, p)
    {
      HistOne(log.g, x);
    }
  }

  lemma {:induction false} SetSameItself<T>(log: Log<T>, h: set<nat>)
    requires ValidLog(log) && UniqueIds(log) && forall x | x in h :: x < |log.g|
    ensures SameSet(log, log, h, h)
  {
    forall x | x in h
      ensures HasTwin(log, log, x)
    {
      assert Twin(log, log, x, x);
    }
  }

  /** The items that somebody had seen stay as they were while other operations are replayed. */
  lemma {:induction false} SameLater<T>(log: Log<T>, m: nat, n: nat, h: set<nat>)
    requires Reached(log, n) && m <= n && Reached(log, m) && Replayable(log, m, h)
    ensures Facing(log, log, DocAt(log, m), DocAt(log, n), h, h)
    ensures Chosen(DocAt(log, m).order, h) == Chosen(DocAt(log, n).order, h)
    ensures Chosen(DocAt(log, m).order, VisibleSet(DocAt(log, m), h)) == Chosen(DocAt(log, n).order, VisibleSet(DocAt(log, n), h))
  {
    hide DocAt, Reached, LogsAgree, MadeSame, SameSet, SideBySide, Chosen, VisibleSet, UniqueIds, Twin;
    ReachedLog(log, n);
    AgreesWithItself(log);
    SetSameItself(log, h);
    forall x: nat, y: nat | Twin(log, log, x, y) && x in h
      ensures MadeSame(log, log, DocAt(log, m), DocAt(log, n), x, y)
    {
      RecordStays(log, x, m);
      RecordStays(log, x, n);
      MadeItself(log, DocAt(log, x + 1), x, x + 1);
      MadeSameLater(log, log, x, x, m, n);
    }
    ViewsSame(log, log, m, n, h, h);
  }

  lemma {:induction false} MadeItself<T>(log: Log<T>, doc: Doc, x: nat, n: nat)
    requires Reached(log, n) && doc == DocAt(log, n)
    ensures MadeSame(log, log, doc, doc, x, x)
  {
    hide TreeOf, DocAt, Reached, Hist, SameOrigin, Replayed, TreeKept, Twin;
    DocFacts(log, n);
    if x in TreeOf(doc.order) { OriginItself(log, doc, x); }
    if x in doc.targets { HitItself(log, Range(0, n), doc, x); }
  }

  lemma {:induction false} OriginItself<T>(log: Log<T>, doc: Doc, x: nat)
    requires TreeKept(log, doc) && x in TreeOf(doc.order)
    ensures SameOrigin(log, log, TreeOf(doc.order)[x], TreeOf(doc.order)[x])
  {
    hide TreeOf, Hist, TreeKept;
    TreeIsValid(log, doc);
  }

  lemma {:induction false} HitItself<T>(log: Log<T>, done: set<nat>, doc: Doc, x: nat)
    requires Replayed(log, {}, done, doc) && TreeKept(log, doc) && x in doc.targets
    ensures Twin(log, log, doc.targets[x], doc.targets[x])
  {
    hide Hist, OriginsOrdered, Closed, Nested, InOrder;
    InLog(log, doc, doc.targets[x]);
  }

  // ---- What an insert does to the lists of items ----

  /** Where an insert was put: behind its cursor, with nothing its author had seen in between. */
  lemma {:induction false} PutWhere<T>(log: Log<T>, x: nat) returns (c: nat, k: nat)
    requires Reached(log, x + 1) && log.ops[x].Ins?
    ensures Reached(log, x) && InGraph(log.g, log.g[x])
    ensures var doc := DocAt(log, x); var items := ViewAt(doc, Hist(log.g, log.g[x]));
            && c <= k <= |doc.order| && k <= NextSettled(items, c) && CursorAt(items, log.ops[x].pos) == Some(c)
            && DocAt(log, x + 1) == Doc(OrderWith(doc.order, k, NewPlaced(log, doc, x, c)), doc.targets)
  {
    hide DocAt, Reached, ViewAt, Hist, DocApply, Replayed, TreeKept, Integrate, RightParentAt, CursorAt, NewPlaced, OrderWith, NextSettled, ReplayRange;
    LastStep(log, x);
    DocFacts(log, x);
    RangeEnds(x);
    c, k := InsertDone(log, DocAt(log, x), x);
    PutBounds(log, DocAt(log, x), x, c, k);
  }

  lemma {:induction false} PutBounds<T>(log: Log<T>, doc: Doc, x: nat, c: nat, k: nat)
    requires ValidLog(log) && Replayed(log, {}, Range(0, x), doc) && x < |log.g| && InGraph(log.g, log.g[x]) && c <= |doc.order|
    requires Integrate(ViewAt(doc, Hist(log.g, log.g[x])), log.ids, x, NewPlaced(log, doc, x, c).rightParent, c) == Some(k)
    ensures c <= k <= NextSettled(ViewAt(doc, Hist(log.g, log.g[x])), c)
  {
    hide ViewAt, Hist, Replayed, Integrate, RightParentAt, RefersInside, DistinctIds;
    var v := Hist(log.g, log.g[x]);
    HistClosed(log.g, log.g[x]);
    ViewRefersInside(log, {}, Range(0, x), doc, v);
    NodeIs(log, doc, x, c);
    IntegrateSucceeds(ViewAt(doc, v), log.ids, x, c, if c == 0 then -1 else doc.order[c - 1].opId);
  }

  lemma {:induction false} ChosenOthers(order: seq<Placed>, s: set<nat>, s': set<nat>, id: nat)
    requires !InOrder(order, id) && (forall x | x != id :: x in s <==> x in s')
    ensures Chosen(order, s) == Chosen(order, s')
  {
    hide InOrder;
    if order != [] {
      LastInOrder(order, id);
      ChosenOthers(order[..|order| - 1], s, s', id);
    }
  }

  lemma {:induction false} PartsOut(order: seq<Placed>, k: nat, id: int)
    requires k <= |order| && !InOrder(order, id)
    ensures !InOrder(order[..k], id) && !InOrder(order[k..], id)
  {
    forall i | 0 <= i < |order[..k]| ensures order[..k][i].opId != id { assert order[..k][i] == order[i]; }
    forall i | 0 <= i < |order[k..]| ensures order[k..][i].opId != id { assert order[k..][i] == order[k + i]; }
  }

  /** An item put at `k`, with nothing chosen between `c` and there. */
  lemma {:induction false} ChosenWith(order: seq<Placed>, c: nat, k: nat, node: Placed, s: set<nat>, s': set<nat>)
    requires c <= k <= |order| && !InOrder(order, node.opId) && node.opId in s' && (forall x | x != node.opId :: x in s <==> x in s')
    requires forall j | c <= j < k :: order[j].opId !in s
    ensures Chosen(OrderWith(order, k, node), s') == Chosen(order[..c], s) + [node.opId] + Chosen(order[k..], s)
    ensures Chosen(order, s) == Chosen(order[..c], s) + Chosen(order[k..], s)
  {
    hide Chosen, InOrder;
    PartsOut(order, k, node.opId);
    ChosenOthers(order[..k], s, s', node.opId);
    ChosenOthers(order[k..], s, s', node.opId);
    ChosenGap(order[..k], s, c, k);
    assert order[..k][..c] == order[..c] && order[..k][k..] == [];
    ChosenNone(order[..k][k..], s);
    ChosenOne(node, s');
    ChosenConcat(order[..k], [node], s');
    ChosenConcat(order[..k] + [node], order[k..], s');
    ChosenConcat(order[..k], order[k..], s);
    assert order[..k] + order[k..] == order;
  }

  /** The items visible after the first `n` operations to someone who has seen `v`. */
  ghost function Seen<T>(log: Log<T>, n: nat, v: set<nat>): seq<nat>
    requires Reached(log, n)
  {
    Chosen(DocAt(log, n).order, VisibleSet(DocAt(log, n), v))
  }

  ghost function Present<T>(log: Log<T>, n: nat, v: set<nat>): seq<nat>
    requires Reached(log, n)
  {
    Chosen(DocAt(log, n).order, v)
  }

  /** What a new insert adds to the visible items: itself. */
  lemma {:induction false} VisibleWith<T>(log: Log<T>, doc: Doc, doc': Doc, x: nat, h: set<nat>, k: nat, node: Placed)
    requires TreeKept(log, doc) && TreeKept(log, doc') && k <= |doc.order| && node.opId == x && x !in h
    requires doc' == Doc(OrderWith(doc.order, k, node), doc.targets) && !InOrder(doc.order, x)
    requires x !in doc.targets && forall d | d in doc.targets :: doc.targets[d] != x
    ensures x in VisibleSet(doc', h + {x}) && forall y | y != x :: y in VisibleSet(doc, h) <==> y in VisibleSet(doc', h + {x})
  {
    hide TreeKept, VisibleSet, TreeOf, OrderWith, InOrder;
    VisibleIs(log, doc', h + {x}, x);
    KeptNested(log, doc);
    KeepsIds(doc.order, k, node);
    forall y: nat | y != x
      ensures y in VisibleSet(doc, h) <==> y in VisibleSet(doc', h + {x})
    {
      VisibleIs(log, doc, h, y);
      VisibleIs(log, doc', h + {x}, y);
    }
  }

  lemma {:induction false} NotYetHit<T>(log: Log<T>, done: set<nat>, doc: Doc, x: nat)
    requires Replayed(log, {}, done, doc) && x < |log.g| && x !in done
    ensures x !in doc.targets && !InOrder(doc.order, x) && forall d | d in doc.targets :: doc.targets[d] != x
  {
    hide Hist, OriginsOrdered, Closed;
  }

  /** A freshly made insert among the items visible, and among those present, to its author. */
  lemma {:induction false} JustMade<T>(log: Log<T>, x: nat) returns (c: nat, i: nat)
    requires Reached(log, x + 1) && log.ops[x].Ins?
    ensures Reached(log, x) && InGraph(log.g, log.g[x]) && InGraph(log.g, [x])
    ensures var h, h', p := Hist(log.g, log.g[x]), Hist(log.g, [x]), log.ops[x].pos;
            var v, v', w := Seen(log, x, h), Seen(log, x + 1, h'), Present(log, x + 1, h');
            && p <= |v| && v' == v[..p] + [x] + v[p..]
            && c <= |DocAt(log, x).order| && CursorAt(ViewAt(DocAt(log, x), h), p) == Some(c)
            && (c == 0 <==> p == 0) && (p > 0 ==> LeftId(DocAt(log, x).order, c) == v[p - 1])
            && i < |w| && w[i] == x && (if p == 0 then i == 0 else i > 0 && w[i - 1] == v[p - 1])
  {
    hide DocAt, Reached, ViewAt, Hist, Replayed, TreeKept, CursorAt, NewPlaced, OrderWith, Chosen, VisibleSet, NextSettled, InOrder;
    var k;
    c, k := PutWhere(log, x);
    DocFacts(log, x);
    DocFacts(log, x + 1);
    RangeEnds(x);
    ReachedLog(log, x + 1);
    HistOne(log.g, x);
    NotYetHit(log, Range(0, x), DocAt(log, x), x);
    NodeId(log, DocAt(log, x), x, c);
    i := MadeLists(log, DocAt(log, x), DocAt(log, x + 1), x, Hist(log.g, log.g[x]), Hist(log.g, [x]), c, k, NewPlaced(log, DocAt(log, x), x, c), log.ops[x].pos);
  }

  lemma {:induction false} MadeLists<T>(log: Log<T>, doc: Doc, doc': Doc, x: nat, h: set<nat>, h': set<nat>, c: nat, k: nat, node: Placed, pos: nat) returns (i: nat)
    requires TreeKept(log, doc) && TreeKept(log, doc') && node.opId == x && x !in h && h' == {x} + h
    requires c <= k <= |doc.order| && k <= NextSettled(ViewAt(doc, h), c) && CursorAt(ViewAt(doc, h), pos) == Some(c)
    requires doc' == Doc(OrderWith(doc.order, k, node), doc.targets) && !InOrder(doc.order, x)
    requires x !in doc.targets && forall d | d in doc.targets :: doc.targets[d] != x
    ensures var v, v', w := Chosen(doc.order, VisibleSet(doc, h)), Chosen(doc'.order, VisibleSet(doc', h')), Chosen(doc'.order, h');
            && pos <= |v| && v' == v[..pos] + [x] + v[pos..]
            && (c == 0 <==> pos == 0) && (pos > 0 ==> LeftId(doc.order, c) == v[pos - 1])
            && i < |w| && w[i] == x && (if pos == 0 then i == 0 else i > 0 && w[i - 1] == v[pos - 1])
  {
    hide TreeKept, CursorAt, ViewAt, OrderWith, Chosen, VisibleSet, InOrder, NextSettled, Visible;
    assert h' == h + {x};
    CursorItem(doc, h, pos, c);
    VisibleChosen(doc, h, c);
    VisibleWith(log, doc, doc', x, h, k, node);
    VisibleInside(log, doc, h);
    forall j | c <= j < k ensures doc.order[j].opId !in h { PresentIn(log, doc, h, j); }
    ChosenWith(doc.order, c, k, node, VisibleSet(doc, h), VisibleSet(doc', h'));
    ChosenWith(doc.order, c, k, node, h, h');
    if c > 0 { PresentIn(log, doc, h, c - 1); }
    ChosenBefore(doc.order, h, c);
    i := |Chosen(doc.order[..c], h)|;
  }

  // ---- Where typing goes ----

  /** The origins that the insert `x` was given. */
  ghost function MadeAt<T>(log: Log<T>, n: nat, x: nat): Origins
    requires Reached(log, n) && x in TreeOf(DocAt(log, n).order)
  {
    TreeOf(DocAt(log, n).order)[x]
  }

  lemma {:induction false} MadeBeside<T>(log: Log<T>, x: nat, n: nat) returns (c: nat)
    requires Reached(log, n) && x < n && log.ops[x].Ins?
    ensures Reached(log, x) && InGraph(log.g, log.g[x]) && c <= |DocAt(log, x).order|
    ensures CursorAt(ViewAt(DocAt(log, x), Hist(log.g, log.g[x])), log.ops[x].pos) == Some(c)
    ensures var order := DocAt(log, x).order;
            && x in TreeOf(DocAt(log, n).order)
            && MadeAt(log, n, x) == Origins(LeftId(order, c), RightParentAt(ViewAt(DocAt(log, x), Hist(log.g, log.g[x])), c, LeftId(order, c)))
  {
    hide DocAt, Reached, ViewAt, Hist, Replayed, TreeKept, CursorAt, NewPlaced, DocApply, TreeOf, RightParentAt, SameBut;
    RecordStays(log, x, n);
    LastStep(log, x);
    DocFacts(log, x);
    RangeEnds(x);
    c := InsertRecords(log, Range(0, x), DocAt(log, x), x);
    NodeIs(log, DocAt(log, x), x, c);
  }

  /** Operation `y` is the next thing its author does after `x`, with nothing else seen in between. */
  ghost predicate Next<T>(log: Log<T>, x: nat, y: nat, n: nat) {
    && Reached(log, n) && x < n && y < n && x < |log.ops| && y < |log.ops| && y < |log.g| && log.g[y] == [x]
    && log.ops[x].Ins? && log.ops[y].Ins?
  }

  lemma {:induction false} NextLater<T>(log: Log<T>, x: nat, y: nat, n: nat)
    requires Next(log, x, y, n)
    ensures ValidLog(log) && x < y && Reached(log, y) && Reached(log, x + 1) && InGraph(log.g, [x]) && Replayable(log, x + 1, Hist(log.g, [x]))
  {
    hide Hist, Reached, Replayable, SameRecord, DocAt;
    ReachedLog(log, n);
    HistOne(log.g, y);
    RecordStays(log, y, n);
    RecordStays(log, x, n);
    LastStep(log, y);
    SeenReplayable(log, x);
    ParentEarlier(log, x, y);
  }

  lemma {:induction false} ParentEarlier<T>(log: Log<T>, x: nat, y: nat)
    requires ValidLog(log) && y < |log.g| && log.g[y] == [x]
    ensures x < y
  {
    assert x in log.g[y];
  }

  lemma {:induction false} SeenReplayable<T>(log: Log<T>, x: nat)
    requires ValidLog(log) && x < |log.g|
    ensures InGraph(log.g, [x]) && Replayable(log, x + 1, Hist(log.g, [x]))
  {
    hide Hist;
    HistOne(log.g, x);
    HistReplayable(log, x);
    HistClosed(log.g, [x]);
  }

  /** Typed behind the insert before it, an insert has that as its left origin. */
  lemma {:induction false} AfterLast<T>(log: Log<T>, x: nat, y: nat, n: nat)
    requires Next(log, x, y, n) && log.ops[y].pos == log.ops[x].pos + 1
    ensures y in TreeOf(DocAt(log, n).order) && MadeAt(log, n, y).left == x
  {
    hide DocAt, Reached, ViewAt, Hist, CursorAt, TreeOf, RightParentAt, Facing, Replayable, Chosen, VisibleSet;
    NextLater(log, x, y, n);
    var c0, i := JustMade(log, x);
    var c := MadeBeside(log, y, n);
    SameLater(log, x + 1, y, Hist(log.g, [x]));
    CursorItem(DocAt(log, y), Hist(log.g, [x]), log.ops[y].pos, c);
  }

  /** Back at the place where it made `x`, an author finds `x` next. */
  lemma {:induction false} FrontNext<T>(log: Log<T>, x: nat, y: nat, n: nat, c: nat)
    requires Next(log, x, y, n) && log.ops[y].pos == log.ops[x].pos && Reached(log, x) && Reached(log, y)
    requires InGraph(log.g, log.g[x]) && InGraph(log.g, [x]) && CursorAt(ViewAt(DocAt(log, y), Hist(log.g, [x])), log.ops[x].pos) == Some(c)
    ensures var h, order, pos, v := Hist(log.g, [x]), DocAt(log, y).order, log.ops[x].pos, Seen(log, x, Hist(log.g, log.g[x]));
            && c <= |order| && pos <= |v| && LeftId(order, c) == (if pos == 0 then -1 else v[pos - 1])
            && (var k := NextSettled(ViewAt(DocAt(log, y), h), c); k < |order| && order[k].opId == x)
  {
    hide DocAt, Reached, ViewAt, Hist, CursorAt, Facing, Replayable, Chosen, VisibleSet, TreeKept, Replayed, NextSettled, UniqueIds;
    NextLater(log, x, y, n);
    var c0, i := JustMade(log, x);
    var h := Hist(log.g, [x]);
    SameLater(log, x + 1, y, h);
    CursorItem(DocAt(log, y), h, log.ops[x].pos, c);
    PutBetween(Seen(log, x, Hist(log.g, log.g[x])), Seen(log, x + 1, h), log.ops[x].pos, x);
    assert c > 0 ==> DocAt(log, y).order[c - 1].opId == Seen(log, x + 1, h)[log.ops[x].pos - 1];
    DocFacts(log, y);
    if c > 0 { PresentIn(log, DocAt(log, y), h, c - 1); }
    NextIs(log, DocAt(log, y), h, c, i, x);
  }

  /** Typed in front of the insert before it, an insert has that as its right parent and shares its left origin. */
  lemma {:induction false} InFrontOfLast<T>(log: Log<T>, x: nat, y: nat, n: nat)
    requires Next(log, x, y, n) && log.ops[y].pos == log.ops[x].pos
    ensures x in TreeOf(DocAt(log, n).order) && y in TreeOf(DocAt(log, n).order)
    ensures MadeAt(log, n, y) == Origins(MadeAt(log, n, x).left, x)
  {
    hide DocAt, Reached, ViewAt, Hist, CursorAt, TreeOf, RightParentAt, Replayable, Seen, Present, TreeKept, Replayed, NextSettled, UniqueIds;
    NextLater(log, x, y, n);
    var c0, i := JustMade(log, x);
    var cx := MadeBeside(log, x, n);
    var c := MadeBeside(log, y, n);
    FrontNext(log, x, y, n, c);
    DocFacts(log, y);
    MadeStays(log, x, y, n);
    RightIs(log, DocAt(log, y), Hist(log.g, [x]), c, x);
  }

  lemma {:induction false} PutBetween(v: seq<nat>, v': seq<nat>, p: nat, x: nat)
    requires p <= |v| && v' == v[..p] + [x] + v[p..]
    ensures p < |v'| && v'[p] == x && (p > 0 ==> v'[p - 1] == v[p - 1])
  {
  }

  lemma {:induction false} MadeStays<T>(log: Log<T>, x: nat, m: nat, n: nat)
    requires Reached(log, n) && Reached(log, m) && x < m && x < n && x in TreeOf(DocAt(log, n).order)
    ensures x in TreeOf(DocAt(log, m).order) && MadeAt(log, m, x) == MadeAt(log, n, x)
  {
    hide DocAt, Reached, TreeOf;
    RecordStays(log, x, m);
    RecordStays(log, x, n);
  }

  /** The next item present after the cursor is the `i`-th one. */
  lemma {:induction false} NextIs<T>(log: Log<T>, doc: Doc, h: set<nat>, c: nat, i: nat, x: nat)
    requires TreeKept(log, doc) && c <= |doc.order| && (c > 0 ==> doc.order[c - 1].opId in h)
    requires i < |Chosen(doc.order, h)| && Chosen(doc.order, h)[i] == x
    requires if c == 0 then i == 0 else i > 0 && Chosen(doc.order, h)[i - 1] == doc.order[c - 1].opId
    ensures var k := NextSettled(ViewAt(doc, h), c); k < |doc.order| && doc.order[k].opId == x
  {
    hide TreeKept, ViewAt, Chosen, DistinctOrder, Nested, NextSettled;
    KeptNested(log, doc);
    NextChosen(log, doc, h, c);
    var s, j := Chosen(doc.order, h), |Chosen(doc.order[..c], h)|;
    if c > 0 {
      ChosenOnce(doc.order, h, j - 1, i - 1);
    }
    assert i == j && s[j] == x;
  }

  lemma {:induction false} RightIs<T>(log: Log<T>, doc: Doc, h: set<nat>, c: nat, x: nat)
    requires TreeKept(log, doc) && c <= |doc.order| && x in TreeOf(doc.order) && TreeOf(doc.order)[x].left == LeftId(doc.order, c)
    requires var k := NextSettled(ViewAt(doc, h), c); k < |doc.order| && doc.order[k].opId == x
    ensures RightParentAt(ViewAt(doc, h), c, LeftId(doc.order, c)) == x
  {
    hide TreeKept, DistinctOrder, TreeOf, StateAt, EndState;
    KeptNested(log, doc);
    TreeAt(doc.order, NextSettled(ViewAt(doc, h), c));
  }

  /** Inserts made at the same place by people who had seen the same have the same origins. */
  lemma {:induction false} SamePlace<T>(log: Log<T>, x: nat, y: nat, n: nat)
    requires Reached(log, n) && x <= y < n && InGraph(log.g, log.g[x]) && InGraph(log.g, log.g[y])
    requires log.ops[x].Ins? && log.ops[y].Ins? && log.ops[x].pos == log.ops[y].pos && Hist(log.g, log.g[x]) == Hist(log.g, log.g[y])
    ensures x in TreeOf(DocAt(log, n).order) && y in TreeOf(DocAt(log, n).order) && MadeAt(log, n, x) == MadeAt(log, n, y)
  {
    hide DocAt, Reached, ViewAt, Hist, CursorAt, TreeOf, RightParentAt, Facing, Replayable, Chosen, VisibleSet, NewPlaced, UniqueIds, Twin;
    ReachedLog(log, n);
    var cx := MadeBeside(log, x, n);
    var cy := MadeBeside(log, y, n);
    HistReplayable(log, x);
    SameLater(log, x, y, Hist(log.g, log.g[x]));
    AgreesWithItself(log);
    SameNode(log, log, x, y, DocAt(log, x), DocAt(log, y), cx, cy);
    NodeIs(log, DocAt(log, x), x, cx);
    NodeIs(log, DocAt(log, y), y, cy);
  }

  // ---- What the origins are ----

  ghost predicate HangsOff(order: seq<Placed>, h: set<nat>, z: nat, left: int) {
    z < |order| && order[z].opId in h && order[z].originLeft == left
  }

  lemma {:induction false} SettledFirst<T>(log: Log<T>, doc: Doc, h: set<nat>, c: nat, z: nat)
    requires TreeKept(log, doc) && Closed(log.g, h) && c <= |doc.order| && HangsOff(doc.order, h, z, LeftId(doc.order, c))
    ensures var s := NextSettled(ViewAt(doc, h), c);
            s <= z && HangsOff(doc.order, h, s, LeftId(doc.order, c))
  {
    hide TreeKept, Nested, ViewAt, NextSettled, OriginsPresent, LeftAt, RightAt, DistinctOrder, Hist;
    var items, order := ViewAt(doc, h), doc.order;
    var s := NextSettled(items, c);
    KeptNested(log, doc);
    NestedInsideOrder(log.ids, order);
    SeenPresent(log, doc, h);
    PresentIn(log, doc, h, z);
    LeftIs(order, z, c);
    Refers(log, doc, z);
    if s < z {
      PresentIn(log, doc, h, s);
      LeftBetween(log.ids, order, z, s);
      Refers(log, doc, s);
      PresentLeft(items, order, s);
      LeftIs(order, s, c);
    }
  }

  /** The right parent is the first of the items present that hang off the same item. */
  lemma {:induction false} FirstBehind<T>(log: Log<T>, doc: Doc, h: set<nat>, c: nat)
    requires TreeKept(log, doc) && Closed(log.g, h) && c <= |doc.order|
    ensures var left, s := LeftId(doc.order, c), NextSettled(ViewAt(doc, h), c); var r := RightParentAt(ViewAt(doc, h), c, left);
            && (r == -1 ==> forall z: nat :: !HangsOff(doc.order, h, z, left))
            && (r != -1 ==> HangsOff(doc.order, h, s, left) && doc.order[s].opId == r)
            && (forall z: nat | HangsOff(doc.order, h, z, left) :: s <= z)
  {
    hide TreeKept, StateAt, EndState, NextSettled;
    var left, s := LeftId(doc.order, c), NextSettled(ViewAt(doc, h), c);
    forall z: nat | HangsOff(doc.order, h, z, left)
      ensures s <= z && HangsOff(doc.order, h, s, left)
    {
      SettledFirst(log, doc, h, c, z);
    }
    if s < |doc.order| { PresentIn(log, doc, h, s); }
  }

  /** The item `z` was inserted behind the item `left`, and `h` holds it. */
  ghost predicate Behind<T>(log: Log<T>, n: nat, h: set<nat>, z: nat, left: int)
    requires Reached(log, n)
  {
    z in h && z in TreeOf(DocAt(log, n).order) && MadeAt(log, n, z).left == left
  }

  lemma {:induction false} BehindIs<T>(log: Log<T>, n: nat, h: set<nat>, z: nat, left: int) returns (i: nat)
    requires Reached(log, n) && Behind(log, n, h, z, left)
    ensures HangsOff(DocAt(log, n).order, h, i, left) && DocAt(log, n).order[i].opId == z && At(DocAt(log, n).order, z) == i
  {
    hide DocAt, Reached, TreeOf, TreeKept, Replayed, At;
    DocFacts(log, n);
    i := HasOrigins(log, DocAt(log, n), z);
  }

  lemma {:induction false} IsBehind<T>(log: Log<T>, n: nat, h: set<nat>, i: nat, left: int)
    requires Reached(log, n) && HangsOff(DocAt(log, n).order, h, i, left)
    ensures DocAt(log, n).order[i].opId in h && Behind(log, n, h, DocAt(log, n).order[i].opId, left) && At(DocAt(log, n).order, DocAt(log, n).order[i].opId) == i
  {
    hide DocAt, Reached, TreeOf, TreeKept, Replayed, At, DistinctOrder;
    DocFacts(log, n);
    KeptNested(log, DocAt(log, n));
    AtIs(DocAt(log, n).order, i);
    TreeAt(DocAt(log, n).order, i);
  }

  /** The right parent, as its author found it. */
  lemma {:induction false} RightThere<T>(log: Log<T>, n: nat, h: set<nat>, c: nat)
    requires Reached(log, n) && Closed(log.g, h) && c <= |DocAt(log, n).order|
    ensures var doc := DocAt(log, n); var left := LeftId(doc.order, c); var r := RightParentAt(ViewAt(doc, h), c, left);
            && (r == -1 ==> forall z: nat :: !Behind(log, n, h, z, left))
            && (r != -1 ==> r >= 0 && r in h && Behind(log, n, h, r, left) && forall z: nat | Behind(log, n, h, z, left) :: At(doc.order, r) <= At(doc.order, z))
  {
    hide DocAt, Reached, ViewAt, RightParentAt, TreeKept, Replayed, At, HangsOff, Behind, Closed, NextSettled;
    var doc := DocAt(log, n);
    var left, s := LeftId(doc.order, c), NextSettled(ViewAt(doc, h), c);
    var r := RightParentAt(ViewAt(doc, h), c, left);
    DocFacts(log, n);
    FirstBehind(log, doc, h, c);
    if r != -1 { IsBehind(log, n, h, s, left); }
    forall z: nat | Behind(log, n, h, z, left)
      ensures r != -1 && s <= At(doc.order, z)
    {
      var i := BehindIs(log, n, h, z, left);
    }
  }

  /** Where an insert was made, in terms of what its author had seen: behind the item visible before its
      position, and in front of the first item there that was inserted behind the same one. */
  lemma {:induction false} OriginsMean<T>(log: Log<T>, x: nat, n: nat)
    requires Reached(log, n) && x < n && log.ops[x].Ins? && InGraph(log.g, log.g[x]) && x in TreeOf(DocAt(log, n).order)
    ensures var h, o, pos := Hist(log.g, log.g[x]), MadeAt(log, n, x), log.ops[x].pos;
            && (if pos == 0 then o.left == -1 else pos <= |Seen(log, n, h)| && o.left == Seen(log, n, h)[pos - 1])
            && (if o.right == -1 then forall z: nat :: !Behind(log, n, h, z, o.left)
                else o.right >= 0 && Behind(log, n, h, o.right, o.left) &&
                     forall z: nat | Behind(log, n, h, z, o.left) :: At(DocAt(log, n).order, o.right) <= At(DocAt(log, n).order, z))
  {
    hide DocAt, Reached, ViewAt, Hist, CursorAt, TreeOf, RightParentAt, Facing, Chosen, VisibleSet, Replayable, At, Behind, MadeAt, Closed;
    var c := MadeBeside(log, x, n);
    ReachedLog(log, n);
    var h, doc := Hist(log.g, log.g[x]), DocAt(log, x);
    var left := LeftId(doc.order, c);
    HistReplayable(log, x);
    HistClosed(log.g, log.g[x]);
    SameLater(log, x, n, h);
    CursorItem(doc, h, log.ops[x].pos, c);
    RightThere(log, x, h, c);
    RightLater(log, x, n, h, left, RightParentAt(ViewAt(doc, h), c, left));
  }

  /** The first of the items behind another is still that later on. */
  lemma {:induction false} RightLater<T>(log: Log<T>, m: nat, n: nat, h: set<nat>, left: int, r: int)
    requires Reached(log, n) && Reached(log, m) && m <= n && Replayable(log, m, h)
    requires r == -1 ==> forall z: nat :: !Behind(log, m, h, z, left)
    requires r != -1 ==> r >= 0 && r in h && Behind(log, m, h, r, left)
    requires r != -1 ==> forall z: nat | Behind(log, m, h, z, left) :: At(DocAt(log, m).order, r) <= At(DocAt(log, m).order, z)
    ensures r == -1 ==> forall z: nat :: !Behind(log, n, h, z, left)
    ensures r != -1 ==> Behind(log, n, h, r, left)
    ensures r != -1 ==> forall z: nat | Behind(log, n, h, z, left) :: At(DocAt(log, n).order, r) <= At(DocAt(log, n).order, z)
  {
    hide DocAt, Reached, TreeOf, Replayable, At, MadeAt;
    forall z: nat
      ensures Behind(log, n, h, z, left) <==> Behind(log, m, h, z, left)
      ensures r != -1 && Behind(log, n, h, z, left) ==> At(DocAt(log, n).order, r) <= At(DocAt(log, n).order, z)
    {
      BehindLater(log, m, n, h, z, left);
      if r != -1 && Behind(log, m, h, z, left) { SameAts(log, m, n, h, r, z); }
    }
  }

  /** Items inserted behind another stay so. */
  lemma {:induction false} BehindLater<T>(log: Log<T>, m: nat, n: nat, h: set<nat>, z: nat, left: int)
    requires Reached(log, n) && Reached(log, m) && m <= n && Replayable(log, m, h)
    ensures Behind(log, m, h, z, left) <==> Behind(log, n, h, z, left)
  {
    hide DocAt, Reached, TreeOf;
    if z in h {
      RecordStays(log, z, m);
      RecordStays(log, z, n);
    }
  }

  /** Items stay in the same order. */
  lemma {:induction false} SameAts<T>(log: Log<T>, m: nat, n: nat, h: set<nat>, x: nat, y: nat)
    requires Reached(log, n) && Reached(log, m) && m <= n && Replayable(log, m, h) && x in h && y in h
    requires x in TreeOf(DocAt(log, m).order) && y in TreeOf(DocAt(log, m).order)
    ensures At(DocAt(log, m).order, x) <= At(DocAt(log, m).order, y) ==> At(DocAt(log, n).order, x) <= At(DocAt(log, n).order, y)
  {
    hide DocAt, Reached, At, SameViews, AllMadeSame, TreeOf, TreeKept, TreesAgree, LogsAgree;
    SameLater(log, m, n, h);
    ReachedLog(log, n);
    RecordStays(log, x, m);
    RecordStays(log, y, m);
    RecordStays(log, x, n);
    RecordStays(log, y, n);
    assert Twin(log, log, x, x) && Twin(log, log, y, y);
    SameOrder(log, log, DocAt(log, m), DocAt(log, n), h, y, x, y, x);
  }

  // ---- Checkouts ----

  /** After every replay the items are in the order of their tree. */
  lemma {:induction false} ReplayInTreeOrder<T>(log: Log<T>, n: nat)
    requires ValidLog(log) && UniqueIds(log) && n <= |log.g| && ReplayRange(log, EMPTY_DOC, [], 0, n).Some?
    ensures InTreeOrder(log.ids, ReplayRange(log, EMPTY_DOC, [], 0, n).value.doc.order)
  {
    hide ReplayRange, UniqueIds, TreeKept, Replayed, InTreeOrder;
    DocFacts(log, n);
    TreeIsValid(log, DocAt(log, n));
    KeptNested(log, DocAt(log, n));
    NestedIsTreeOrder(log.ids, DocAt(log, n).order);
  }

  /** Whoever made the item at `k` had seen the operation `x`. */
  ghost predicate MadeKnowing<T>(log: Log<T>, order: seq<Placed>, k: nat, x: nat)
    requires ValidLog(log) && k < |order|
  {
    var id := order[k].opId;
    id < |log.g| && InGraph(log.g, log.g[id]) && x in Hist(log.g, log.g[id])
  }

  /** The item `a` comes before `b`, and in between is only what was made knowing `x`. */
  ghost predicate Together<T>(log: Log<T>, order: seq<Placed>, a: nat, b: nat, x: nat)
    requires ValidLog(log)
  {
    && At(order, a) < At(order, b) < |order|
    && forall k | At(order, a) < k < At(order, b) :: MadeKnowing(log, order, k, x)
  }

  lemma {:induction false} SawIsKnowing<T>(log: Log<T>, doc: Doc, k: nat, x: nat)
    requires TreeKept(log, doc) && k < |doc.order| && Saw(log, doc, k, x)
    ensures MadeKnowing(log, doc.order, k, x)
  {
    hide Nested, Hist;
  }

  lemma {:induction false} HasOrigins<T>(log: Log<T>, doc: Doc, x: nat) returns (i: nat)
    requires TreeKept(log, doc) && x in TreeOf(doc.order)
    ensures i < |doc.order| && doc.order[i].opId == x && At(doc.order, x) == i
    ensures TreeOf(doc.order)[x] == Origins(doc.order[i].originLeft, doc.order[i].rightParent)
  {
    hide TreeKept, TreeOf, DistinctOrder, At;
    KeptNested(log, doc);
    i := IndexOf(doc.order, x);
    AtIs(doc.order, i);
    TreeAt(doc.order, i);
  }

  lemma {:induction false} BehindTogether<T>(log: Log<T>, doc: Doc, x: nat, y: nat)
    requires TreeKept(log, doc) && y in TreeOf(doc.order) && TreeOf(doc.order)[y].left == x
    ensures Together(log, doc.order, x, y, x)
  {
    hide TreeKept, TreeOf, At, Saw, MadeKnowing;
    var i := HasOrigins(log, doc, y);
    KeptNested(log, doc);
    Refers(log, doc, i);
    LeftIndex(log, doc, i);
    forall k | At(doc.order, x) < k < i
      ensures MadeKnowing(log, doc.order, k, x)
    {
      AfterOrigin(log, doc, i, k);
      SawIsKnowing(log, doc, k, x);
    }
  }

  lemma {:induction false} LeftIndex<T>(log: Log<T>, doc: Doc, i: nat)
    requires TreeKept(log, doc) && i < |doc.order|
    ensures doc.order[i].originLeft >= 0 ==> LeftAt(doc.order, i) == At(doc.order, doc.order[i].originLeft) < |doc.order| && doc.order[LeftAt(doc.order, i)].opId == doc.order[i].originLeft
    ensures doc.order[i].rightParent >= 0 ==> RightAt(doc.order, i) == At(doc.order, doc.order[i].rightParent) < |doc.order| && doc.order[RightAt(doc.order, i)].opId == doc.order[i].rightParent
  {
    hide LeftNested, RightNested, TiesById, OriginsSeen, DistinctOrder;
    SameOrigins(doc.order, i, i);
  }

  lemma {:induction false} InFrontTogether<T>(log: Log<T>, doc: Doc, x: nat, y: nat)
    requires TreeKept(log, doc) && x in TreeOf(doc.order) && y in TreeOf(doc.order)
    requires TreeOf(doc.order)[y] == Origins(TreeOf(doc.order)[x].left, x)
    ensures Together(log, doc.order, y, x, x)
  {
    hide TreeKept, TreeOf, At, Saw, MadeKnowing, LeftAt, RightAt;
    var i := HasOrigins(log, doc, y);
    var j := HasOrigins(log, doc, x);
    KeptNested(log, doc);
    Refers(log, doc, i);
    LeftIndex(log, doc, i);
    SameLeftAt(log, doc, i, j);
    forall k | i < k < j
      ensures MadeKnowing(log, doc.order, k, x)
    {
      BeforeParent(log, doc, i, k);
      if !Saw(log, doc, k, x) { SawThrough(log, doc, k, i, x); }
      SawIsKnowing(log, doc, k, x);
    }
  }

  lemma {:induction false} SameLeftAt<T>(log: Log<T>, doc: Doc, i: nat, j: nat)
    requires TreeKept(log, doc) && i < |doc.order| && j < |doc.order| && doc.order[i].originLeft == doc.order[j].originLeft
    ensures LeftAt(doc.order, i) == LeftAt(doc.order, j)
  {
    hide TreeKept, At;
  }

  /** An insert typed straight after another one stays behind it, and nobody who had not seen the first comes between. */
  lemma {:induction false} TypedBehind<T>(log: Log<T>, x: nat, y: nat)
    requires ValidLog(log) && UniqueIds(log) && CheckoutOf(log).Some? && x < |log.g| && y < |log.g| && log.g[y] == [x]
    requires log.ops[x].Ins? && log.ops[y].Ins? && log.ops[y].pos == log.ops[x].pos + 1
    ensures Together(log, CheckoutOf(log).value.doc.order, x, y, x)
  {
    hide CheckoutOf, Reached, DocAt, UniqueIds, Together, Replayed, TreeKept, TreeOf;
    CheckoutReached(log);
    AfterLast(log, x, y, |log.g|);
    DocFacts(log, |log.g|);
    BehindTogether(log, DocAt(log, |log.g|), x, y);
  }

  /** Typed backwards, an insert stays in front of the one before it, and again nobody comes between. */
  lemma {:induction false} TypedInFront<T>(log: Log<T>, x: nat, y: nat)
    requires ValidLog(log) && UniqueIds(log) && CheckoutOf(log).Some? && x < |log.g| && y < |log.g| && log.g[y] == [x]
    requires log.ops[x].Ins? && log.ops[y].Ins? && log.ops[y].pos == log.ops[x].pos
    ensures Together(log, CheckoutOf(log).value.doc.order, y, x, x)
  {
    hide CheckoutOf, Reached, DocAt, UniqueIds, Together, Replayed, TreeKept, TreeOf;
    CheckoutReached(log);
    InFrontOfLast(log, x, y, |log.g|);
    DocFacts(log, |log.g|);
    InFrontTogether(log, DocAt(log, |log.g|), x, y);
  }

  /** Inserts made at the same place by people who had seen the same are ordered by their IDs. */
  lemma {:induction false} SamePlaceById<T>(log: Log<T>, x: nat, y: nat)
    requires ValidLog(log) && UniqueIds(log) && CheckoutOf(log).Some? && x < |log.g| && y < |log.g| && x != y
    requires InGraph(log.g, log.g[x]) && InGraph(log.g, log.g[y]) && Hist(log.g, log.g[x]) == Hist(log.g, log.g[y])
    requires log.ops[x].Ins? && log.ops[y].Ins? && log.ops[x].pos == log.ops[y].pos
    ensures var order := CheckoutOf(log).value.doc.order;
            && At(order, x) < |order| && At(order, y) < |order|
            && (At(order, x) < At(order, y) <==> RawLess(log.ids[x], log.ids[y]))
  {
    hide CheckoutOf, Reached, DocAt, UniqueIds, Replayed, TreeKept, TreeOf, RawLess, Hist, At;
    CheckoutReached(log);
    SamePlace(log, if x < y then x else y, if x < y then y else x, |log.g|);
    DocFacts(log, |log.g|);
    TiedById(log, DocAt(log, |log.g|), x, y);
  }

  lemma {:induction false} TiedById<T>(log: Log<T>, doc: Doc, x: nat, y: nat)
    requires TreeKept(log, doc) && x in TreeOf(doc.order) && y in TreeOf(doc.order) && x != y && TreeOf(doc.order)[x] == TreeOf(doc.order)[y]
    ensures x < |log.ids| && y < |log.ids| && At(doc.order, x) < |doc.order| && At(doc.order, y) < |doc.order|
    ensures At(doc.order, x) < At(doc.order, y) <==> RawLess(log.ids[x], log.ids[y])
  {
    hide TreeKept, TreeOf, RawLess, At, InOrder, ValidTree;
    var i := HasOrigins(log, doc, x);
    var j := HasOrigins(log, doc, y);
    InLog(log, doc, x);
    InLog(log, doc, y);
    TreeIsValid(log, doc);
    OrderIsTree(log, doc, x, y);
  }
}
