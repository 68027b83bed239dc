/** Convergence: logs that hold the same operations check out to the same text, in whatever order the
    operations are stored, and whatever is concurrent with what. */
module Convergence {
  import opened Dag
  import opened ListLog
  import opened Items
  import opened Replay
  import opened Intent
  import opened ReplayRun
  import opened TreeOrder
  import opened TreeInsert
  import opened Twins

  // ---- Lists of items as choices ----

  lemma {:induction false} ChosenConcat(a: seq<Placed>, b: seq<Placed>, s: set<nat>)
    ensures Chosen(a + b, s) == Chosen(a, s) + Chosen(b, s)
  {
    if b == [] {
      assert a + b == a;
    } else {
      var k := |b| - 1;
      assert (a + b)[..|a + b| - 1] == a + b[..k];
      ChosenConcat(a, b[..k], s);
    }
  }

  lemma {:induction false} ChosenNone(order: seq<Placed>, s: set<nat>)
    requires forall i | 0 <= i < |order| :: order[i].opId !in s
    ensures Chosen(order, s) == []
  {
    if order != [] { ChosenNone(order[..|order| - 1], s); }
  }

  /** The items visible at a version. */
  ghost function VisibleSet(doc: Doc, v: set<nat>): set<nat> {
    set x | x in TreeOf(doc.order) && StateAt(doc.targets, v, x) == INSERTED
  }

  /** The items that no delete has hit. */
  ghost function SurvivorSet(doc: Doc): set<nat> {
    set x | x in TreeOf(doc.order) && EndState(doc.targets, x) == INSERTED
  }

  lemma {:induction false} VisibleChosen(doc: Doc, v: set<nat>, c: nat)
    requires c <= |doc.order|
    ensures Visible(ViewAt(doc, v)[..c]) == Chosen(doc.order[..c], VisibleSet(doc, v))
    ensures EndVisible(ViewAt(doc, v)[..c]) == Chosen(doc.order[..c], SurvivorSet(doc))
  {
    hide StateAt, EndState, TreeOf;
    var items := ViewAt(doc, v);
    if c > 0 {
      VisibleChosen(doc, v, c - 1);
      VisiblePrefix(items, c - 1);
      assert doc.order[..c][..c - 1] == doc.order[..c - 1];
      assert doc.order[c - 1].opId in TreeOf(doc.order);
    }
  }

  lemma {:induction false} AllVisibleChosen(doc: Doc, v: set<nat>)
    ensures Visible(ViewAt(doc, v)) == Chosen(doc.order, VisibleSet(doc, v))
    ensures EndVisible(ViewAt(doc, v)) == Chosen(doc.order, SurvivorSet(doc))
  {
    hide Visible, EndVisible, Chosen, VisibleSet, SurvivorSet;
    VisibleChosen(doc, v, |doc.order|);
    assert ViewAt(doc, v)[..|doc.order|] == ViewAt(doc, v) && doc.order[..|doc.order|] == doc.order;
  }

  lemma {:induction false} ChosenBefore(order: seq<Placed>, s: set<nat>, c: nat)
    requires c <= |order| && (c > 0 ==> order[c - 1].opId in s)
    ensures var n := |Chosen(order[..c], s)|;
            if c > 0 then n > 0 && Chosen(order[..c], s)[n - 1] == order[c - 1].opId else n == 0
  {
    if c > 0 { assert order[..c][..c - 1] == order[..c - 1]; }
  }

  lemma {:induction false} ChosenFrom(order: seq<Placed>, s: set<nat>, x: nat)
    requires x <= |order| && (x < |order| ==> order[x].opId in s)
    ensures if x < |order| then Chosen(order[x..], s) != [] && Chosen(order[x..], s)[0] == order[x].opId else Chosen(order[x..], s) == []
  {
    hide Chosen;
    if x < |order| {
      assert order[x..] == [order[x]] + order[x + 1..];
      ChosenConcat([order[x]], order[x + 1..], s);
      ChosenOne(order[x], s);
    } else {
      ChosenNone(order[x..], s);
    }
  }

  lemma {:induction false} ChosenGap(order: seq<Placed>, s: set<nat>, c: nat, x: nat)
    requires c <= x <= |order| && forall k | c <= k < x :: order[k].opId !in s
    ensures Chosen(order, s) == Chosen(order[..c], s) + Chosen(order[x..], s)
  {
    hide Chosen;
    ChosenNone(order[c..x], s);
    ChosenConcat(order[..c], order[c..x], s);
    assert order[..c] + order[c..x] == order[..x];
    ChosenConcat(order[..x], order[x..], s);
    assert order[..x] + order[x..] == order;
  }

  /** Without placeholders the items present are those of the version. */
  lemma {:induction false} PresentIn<T>(log: Log<T>, doc: Doc, v: set<nat>, k: nat)
    requires TreeKept(log, doc) && k < |doc.order|
    ensures ViewAt(doc, v)[k].curState != NOT_YET_INSERTED <==> doc.order[k].opId in v
  {
    hide Nested, Hist, DeletesOf;
  }

  /** The next present item after a cursor that follows a present item. */
  lemma {:induction false} NextChosen<T>(log: Log<T>, doc: Doc, v: set<nat>, c: nat)
    requires TreeKept(log, doc) && c <= |doc.order| && (c > 0 ==> doc.order[c - 1].opId in v)
    ensures var s, i, x := Chosen(doc.order, v), |Chosen(doc.order[..c], v)|, NextSettled(ViewAt(doc, v), c);
            && i <= |s|
            && (if c > 0 then i > 0 && s[i - 1] == doc.order[c - 1].opId else i == 0)
            && (if x < |doc.order| then i < |s| && s[i] == doc.order[x].opId else i == |s|)
  {
    hide TreeKept, Chosen, ViewAt;
    var items, order := ViewAt(doc, v), doc.order;
    var x := NextSettled(items, c);
    forall k | c <= k < x ensures order[k].opId !in v { PresentIn(log, doc, v, k); }
    if x < |order| { PresentIn(log, doc, v, x); }
    ChosenBefore(order, v, c);
    ChosenFrom(order, v, x);
    ChosenGap(order, v, c, x);
  }

  lemma {:induction false} ChosenOne(p: Placed, s: set<nat>)
    requires p.opId in s
    ensures Chosen([p], s) == [p.opId]
  {
    assert [p][..0] == [];
  }

  // ---- What an operation leaves behind ----

  /** Apart from what operation `lv` adds, the documents record the same. */
  ghost predicate SameBut(doc: Doc, doc': Doc, lv: nat) {
    var t, t' := TreeOf(doc.order), TreeOf(doc'.order);
    && (forall x: nat | x != lv :: (x in t <==> x in t') && (x in t && x in t' ==> t[x] == t'[x]))
    && (forall d: nat | d != lv :: (d in doc.targets <==> d in doc'.targets) && (d in doc.targets && d in doc'.targets ==> doc.targets[d] == doc'.targets[d]))
  }

  lemma {:induction false} TreeWith(order: seq<Placed>, k: nat, node: Placed)
    requires DistinctOrder(order) && k <= |order| && !InOrder(order, node.opId)
    ensures var t, t' := TreeOf(order), TreeOf(OrderWith(order, k, node));
            && node.opId in t' && t'[node.opId] == Origins(node.originLeft, node.rightParent)
            && forall x: nat | x != node.opId :: (x in t <==> x in t') && (x in t && x in t' ==> t[x] == t'[x])
  {
    hide TreeOf, DistinctOrder, InOrder;
    var order' := OrderWith(order, k, node);
    KeepsIds(order, k, node);
    TreeAt(order', k);
    forall x: nat | x != node.opId
      ensures (x in TreeOf(order) <==> x in TreeOf(order')) && (x in TreeOf(order) && x in TreeOf(order') ==> TreeOf(order)[x] == TreeOf(order')[x])
    {
      if InOrder(order, x) {
        var i := IndexOf(order, x);
        TreeAt(order, i);
        assert order'[Shift(k, i)] == order[i];
        TreeAt(order', Shift(k, i));
      }
    }
  }

  lemma {:induction false} IndexOf(order: seq<Placed>, x: nat) returns (i: nat)
    requires InOrder(order, x)
    ensures i < |order| && order[i].opId == x
  {
    i :| 0 <= i < |order| && order[i].opId == x;
  }

  /** An insert records where it went. */
  lemma {:induction false} InsertRecords<T>(log: Log<T>, done: set<nat>, doc: Doc, lv: nat) returns (c: nat)
    requires Replayed(log, {}, done, doc) && lv < |log.g| && lv !in done && InGraph(log.g, log.g[lv])
    requires log.ops[lv].Ins? && DocApply(log, doc, lv).Some?
    ensures c <= |doc.order| && CursorAt(ViewAt(doc, Hist(log.g, log.g[lv])), log.ops[lv].pos) == Some(c)
    ensures var doc' := DocApply(log, doc, lv).value.0; var node := NewPlaced(log, doc, lv, c);
            && SameBut(doc, doc', lv) && lv !in doc'.targets
            && lv in TreeOf(doc'.order) && TreeOf(doc'.order)[lv] == Origins(node.originLeft, node.rightParent)
  {
    hide ViewAt, CursorAt, Hist, Replayed, DocApply, TreeOf, NewPlaced, OrderWith, DistinctOrder, InOrder;
    NotThere(log, done, doc, lv);
    var k;
    c, k := InsertDone(log, doc, lv);
    NodeId(log, doc, lv, c);
    TreeWith(doc.order, k, NewPlaced(log, doc, lv, c));
  }

  lemma {:induction false} NodeId<T>(log: Log<T>, doc: Doc, lv: nat, c: nat)
    requires ValidLog(log) && lv < |log.g| && InGraph(log.g, log.g[lv]) && c <= |doc.order|
    ensures NewPlaced(log, doc, lv, c).opId == lv
  {
  }

  lemma {:induction false} InsertDone<T>(log: Log<T>, doc: Doc, lv: nat) returns (c: nat, k: nat)
    requires ValidLog(log) && lv < |log.g| && InGraph(log.g, log.g[lv]) && log.ops[lv].Ins? && DocApply(log, doc, lv).Some?
    ensures c <= |doc.order| && CursorAt(ViewAt(doc, Hist(log.g, log.g[lv])), log.ops[lv].pos) == Some(c)
    ensures k <= |doc.order| && DocApply(log, doc, lv).value.0 == Doc(OrderWith(doc.order, k, NewPlaced(log, doc, lv, c)), doc.targets)
    ensures Integrate(ViewAt(doc, Hist(log.g, log.g[lv])), log.ids, lv, NewPlaced(log, doc, lv, c).rightParent, c) == Some(k)
  {
    hide ViewAt, Integrate, RightParentAt, CursorAt, Hist, Visible, EndVisible, OrderWith;
    var items := ViewAt(doc, Hist(log.g, log.g[lv]));
    c := CursorAt(items, log.ops[lv].pos).value;
    NewPlacedIs(log, doc, lv, c);
    k := Integrate(items, log.ids, lv, NewPlaced(log, doc, lv, c).rightParent, c).value;
    InsertApplies(log, doc, lv, c, k);
  }

  lemma {:induction false} NewPlacedIs<T>(log: Log<T>, doc: Doc, lv: nat, c: nat)
    requires ValidLog(log) && lv < |log.g| && InGraph(log.g, log.g[lv]) && c <= |doc.order|
    ensures var items := ViewAt(doc, Hist(log.g, log.g[lv])); var item := NewItem(items, c, lv);
            NewPlaced(log, doc, lv, c) == Placed(lv, item.originLeft, item.rightParent)
  {
  }

  /** A delete records what it hit. */
  lemma {:induction false} DeleteRecords<T>(log: Log<T>, done: set<nat>, doc: Doc, lv: nat) returns (c: nat)
    requires Replayed(log, {}, done, doc) && lv < |log.g| && lv !in done && InGraph(log.g, log.g[lv])
    requires log.ops[lv].Del? && DocApply(log, doc, lv).Some?
    ensures c < |doc.order| && TargetAt(ViewAt(doc, Hist(log.g, log.g[lv])), log.ops[lv].pos) == Some(c)
    ensures var doc' := DocApply(log, doc, lv).value.0;
            && SameBut(doc, doc', lv) && lv !in TreeOf(doc'.order) && doc'.order == doc.order
            && lv in doc'.targets && doc'.targets[lv] == doc.order[c].opId
  {
    hide TargetAt, Hist, ViewAt, Replayed, DocApply, TreeOf;
    NotThere(log, done, doc, lv);
    c := DeleteApplies(log, doc, lv);
  }

  lemma {:induction false} NotThere<T>(log: Log<T>, done: set<nat>, doc: Doc, lv: nat)
    requires Replayed(log, {}, done, doc) && lv < |log.g| && lv !in done
    ensures ValidLog(log) && !InOrder(doc.order, lv) && lv !in doc.targets && DistinctOrder(doc.order) && |log.ops| == |log.g|
  {
    hide Hist, OriginsOrdered, Closed;
  }

  lemma {:induction false} DeleteApplies<T>(log: Log<T>, doc: Doc, lv: nat) returns (c: nat)
    requires ValidLog(log) && lv < |log.g| && InGraph(log.g, log.g[lv]) && log.ops[lv].Del? && DocApply(log, doc, lv).Some?
    ensures c < |doc.order| && TargetAt(ViewAt(doc, Hist(log.g, log.g[lv])), log.ops[lv].pos) == Some(c)
    ensures DocApply(log, doc, lv).value.0 == Doc(doc.order, doc.targets[lv := doc.order[c].opId])
  {
    hide TargetAt, Hist, Visible, EndVisible, StateAt, EndState;
    c := TargetAt(ViewAt(doc, Hist(log.g, log.g[lv])), log.ops[lv].pos).value;
    assert DocApply(log, doc, lv).value.0.order == doc.order;
  }

  // ---- Documents after so many operations ----

  ghost predicate Reached<T>(log: Log<T>, n: nat) {
    ValidLog(log) && UniqueIds(log) && n <= |log.g| && ReplayRange(log, EMPTY_DOC, [], 0, n).Some?
  }

  ghost function DocAt<T>(log: Log<T>, n: nat): Doc
    requires Reached(log, n)
  {
    ReplayRange(log, EMPTY_DOC, [], 0, n).value.doc
  }

  /** The invariants of the replay, and its last step. */
  lemma {:induction false} DocFacts<T>(log: Log<T>, n: nat)
    requires Reached(log, n)
    ensures Replayed(log, {}, Range(0, n), DocAt(log, n)) && TreeKept(log, DocAt(log, n))
    decreases n
  {
    hide DocApply, Replayed, TreeKept, Hist, UniqueIds, Reached, DocAt;
    DocReplayed(log, n);
    if n == 0 {
      DocEmpty(log);
    } else {
      LastStep(log, n - 1);
      DocFacts(log, n - 1);
      StepTree(log, n - 1);
    }
  }

  lemma {:induction false} DocEmpty<T>(log: Log<T>)
    requires Reached(log, 0)
    ensures TreeKept(log, DocAt(log, 0))
  {
    NothingKept(log);
  }

  /** The last operation of a replay. */
  lemma {:induction false} LastStep<T>(log: Log<T>, lv: nat)
    requires Reached(log, lv + 1)
    ensures Reached(log, lv) && ValidLog(log) && lv < |log.g| && InGraph(log.g, log.g[lv])
    ensures DocApply(log, DocAt(log, lv), lv).Some?
    ensures DocAt(log, lv + 1) == DocApply(log, DocAt(log, lv), lv).value.0
  {
    hide DocApply, Hist, UniqueIds;
    HistOne(log.g, lv);
  }

  lemma {:induction false} DocReplayed<T>(log: Log<T>, n: nat)
    requires Reached(log, n)
    ensures Replayed(log, {}, Range(0, n), DocAt(log, n))
  {
    hide ReplayRange, Replayed;
    EmptyReplayed(log);
    assert Ready(log, {}, {}, 0, n);
    assert {} + Range(0, n) == Range(0, n);
    RangeKeeps(log, {}, {}, EMPTY_DOC, [], 0, n);
  }

  lemma {:induction false} NothingKept<T>(log: Log<T>)
    requires ValidLog(log)
    ensures TreeKept(log, EMPTY_DOC)
  {
  }

  lemma {:induction false} StepTree<T>(log: Log<T>, lv: nat)
    requires Reached(log, lv) && lv < |log.g| && InGraph(log.g, log.g[lv]) && DocApply(log, DocAt(log, lv), lv).Some?
    requires Replayed(log, {}, Range(0, lv), DocAt(log, lv)) && TreeKept(log, DocAt(log, lv))
    ensures TreeKept(log, DocApply(log, DocAt(log, lv), lv).value.0)
  {
    hide DocApply, Replayed, TreeKept, Hist, ReplayRange;
    if log.ops[lv].Ins? {
      InsertKeepsTree(log, Range(0, lv), DocAt(log, lv), lv);
    } else {
      var c := DeleteRecords(log, Range(0, lv), DocAt(log, lv), lv);
      SameKept(log, DocAt(log, lv), DocApply(log, DocAt(log, lv), lv).value.0);
    }
  }

  lemma {:induction false} SameKept<T>(log: Log<T>, doc: Doc, doc': Doc)
    requires TreeKept(log, doc) && doc'.order == doc.order
    ensures TreeKept(log, doc')
  {
    hide Nested, OriginsSeen;
  }

  /** Whatever operation it is, a step adds only its own record. */
  lemma {:induction false} StepRecords<T>(log: Log<T>, lv: nat)
    requires Reached(log, lv + 1)
    ensures Reached(log, lv) && SameBut(DocAt(log, lv), DocAt(log, lv + 1), lv)
  {
    hide DocApply, Replayed, TreeKept, Hist, Reached, SameBut, DocAt;
    LastStep(log, lv);
    DocFacts(log, lv);
    ReachedLog(log, lv + 1);
    RangeEnds(lv);
    if log.ops[lv].Ins? {
      var c := InsertRecords(log, Range(0, lv), DocAt(log, lv), lv);
    } else {
      var c := DeleteRecords(log, Range(0, lv), DocAt(log, lv), lv);
    }
  }

  lemma {:induction false} ReachedLog<T>(log: Log<T>, n: nat)
    requires Reached(log, n)
    ensures ValidLog(log) && UniqueIds(log) && n <= |log.g| == |log.ops|
  {
  }

  lemma {:induction false} RangeEnds(lv: nat)
    ensures lv !in Range(0, lv)
  {
  }

  /** What an operation has recorded stays. */
  ghost predicate SameRecord(doc: Doc, doc': Doc, x: nat) {
    && (x in TreeOf(doc.order) <==> x in TreeOf(doc'.order))
    && (x in TreeOf(doc.order) && x in TreeOf(doc'.order) ==> TreeOf(doc.order)[x] == TreeOf(doc'.order)[x])
    && (x in doc.targets <==> x in doc'.targets)
    && (x in doc.targets && x in doc'.targets ==> doc.targets[x] == doc'.targets[x])
  }

  lemma {:induction false} RecordStays<T>(log: Log<T>, x: nat, n: nat)
    requires Reached(log, n) && x < n
    ensures Reached(log, x + 1) && SameRecord(DocAt(log, x + 1), DocAt(log, n), x)
    decreases n
  {
    hide DocAt, Reached, TreeOf;
    if x + 1 < n {
      StepRecords(log, n - 1);
      RecordStays(log, x, n - 1);
    }
  }

  // ---- The same records on both sides ----

  /** Operation `x` of one log has recorded what its twin `y` has. */
  ghost predicate MadeSame<T>(log: Log<T>, log': Log<T>, doc: Doc, doc': Doc, x: nat, y: nat) {
    var t, t' := TreeOf(doc.order), TreeOf(doc'.order);
    && (x in t <==> y in t') && (x in t && y in t' ==> SameOrigin(log, log', t[x], t'[y]))
    && (x in doc.targets <==> y in doc'.targets) && (x in doc.targets && y in doc'.targets ==> Twin(log, log', doc.targets[x], doc'.targets[y]))
  }

  ghost predicate AllMadeSame<T>(log: Log<T>, log': Log<T>, doc: Doc, doc': Doc, h: set<nat>) {
    forall x: nat, y: nat | Twin(log, log', x, y) && x in h :: MadeSame(log, log', doc, doc', x, y)
  }

  lemma {:induction false} MadeSameLater<T>(log: Log<T>, log': Log<T>, x: nat, y: nat, n: nat, n': nat)
    requires Reached(log, n) && Reached(log', n') && x < n && y < n'
    requires Reached(log, x + 1) && Reached(log', y + 1) && MadeSame(log, log', DocAt(log, x + 1), DocAt(log', y + 1), x, y)
    ensures MadeSame(log, log', DocAt(log, n), DocAt(log', n'), x, y)
  {
    hide DocAt, Reached, TreeOf, Twin, SameOrigin;
    RecordStays(log, x, n);
    RecordStays(log', y, n');
  }

  /** The versions of `h` have been replayed, with everything they build on. */
  ghost predicate Replayable<T>(log: Log<T>, n: nat, h: set<nat>) {
    ValidLog(log) && Closed(log.g, h) && forall x | x in h :: x < n
  }

  /** Documents that have recorded the same stand side by side. */
  lemma {:induction false} RecordsAgree<T>(log: Log<T>, log': Log<T>, n: nat, n': nat, h: set<nat>)
    requires LogsAgree(log, log') && Reached(log, n) && Reached(log', n') && Replayable(log, n, h)
    requires AllMadeSame(log, log', DocAt(log, n), DocAt(log', n'), h)
    ensures SideBySide(log, log', DocAt(log, n), DocAt(log', n'), h)
  {
    hide DocAt, Reached, TreeOf, Twin, LogsAgree, SameOrigin, Replayed, TreeKept, Closed;
    DocFacts(log, n);
    DocFacts(log', n');
    var t, t' := TreeOf(DocAt(log, n).order), TreeOf(DocAt(log', n').order);
    forall x: nat, y: nat | Twin(log, log', x, y) && x in h && x in t
      ensures y in t' && SameOrigin(log, log', t[x], t'[y])
    {
      assert MadeSame(log, log', DocAt(log, n), DocAt(log', n'), x, y);
    }
    forall x | x in h && x in t
      ensures (t[x].left == -1 || (t[x].left >= 0 && t[x].left in h)) && (t[x].right == -1 || (t[x].right >= 0 && t[x].right in h))
    {
      OriginsIn(log, DocAt(log, n), h, x);
    }
  }

  lemma {:induction false} OriginsIn<T>(log: Log<T>, doc: Doc, h: set<nat>, x: nat)
    requires TreeKept(log, doc) && Closed(log.g, h) && x in h && x in TreeOf(doc.order)
    ensures var o := TreeOf(doc.order)[x]; (o.left == -1 || (o.left >= 0 && o.left in h)) && (o.right == -1 || (o.right >= 0 && o.right in h))
  {
    hide Hist, TreeOf, LeftNested, RightNested, TiesById, LeftAt, RightAt;
    var i := IndexOf(doc.order, x);
    TreeAt(doc.order, i);
    HistLeast(log.g, log.g[x], h);
  }

  /** The items an operation's author saw, present or visible, are the same on both sides, in the same order. */
  ghost predicate SameViews<T>(log: Log<T>, log': Log<T>, doc: Doc, doc': Doc, h: set<nat>, h': set<nat>) {
    && SameLists(log, log', Chosen(doc.order, h), Chosen(doc'.order, h'))
    && SameLists(log, log', Chosen(doc.order, VisibleSet(doc, h)), Chosen(doc'.order, VisibleSet(doc', h')))
  }

  ghost predicate SameLists<T>(log: Log<T>, log': Log<T>, c: seq<nat>, c': seq<nat>) {
    |c| == |c'| && forall i | 0 <= i < |c| :: Twin(log, log', c[i], c'[i])
  }

  lemma {:induction false} OtherMade<T>(log: Log<T>, log': Log<T>, doc: Doc, doc': Doc, h: set<nat>, h': set<nat>)
    requires AllMadeSame(log, log', doc, doc', h) && SameSet(log, log', h, h')
    ensures AllMadeSame(log', log, doc', doc, h') && SameSet(log', log, h', h)
  {
    hide TreeOf;
    forall x: nat, y: nat | Twin(log', log, x, y)
      ensures x in h' <==> y in h
      ensures x in h' ==> MadeSame(log', log, doc', doc, x, y)
    {
      assert Twin(log, log', y, x);
      if y in h {
        assert MadeSame(log, log', doc, doc', y, x);
      }
    }
  }

  /** A delete in `h` has hit `x`. */
  ghost predicate HitIn(targets: map<nat, nat>, h: set<nat>, x: nat) {
    exists d :: d in targets && d in h && targets[d] == x
  }

  lemma {:induction false} HitThere<T>(log: Log<T>, log': Log<T>, doc: Doc, doc': Doc, h: set<nat>, h': set<nat>, x: nat, y: nat)
    requires LogsAgree(log, log') && AllMadeSame(log, log', doc, doc', h) && SameSet(log, log', h, h') && Twin(log, log', x, y)
    requires (forall d | d in h :: d < |log.g|) && HitIn(doc.targets, h, x)
    ensures HitIn(doc'.targets, h', y)
  {
    hide TreeOf, SameOp, ValidLog;
    var d :| d in doc.targets && d in h && doc.targets[d] == x;
    assert d < |log.g| && HasTwin(log, log', d);
    var e: nat :| Twin(log, log', d, e);
    assert MadeSame(log, log', doc, doc', d, e);
    TwinsOnce(log, log', x, y, doc.targets[d], doc'.targets[e]);
  }

  lemma {:induction false} VisibleIs<T>(log: Log<T>, doc: Doc, h: set<nat>, x: nat)
    requires TreeKept(log, doc)
    ensures x in VisibleSet(doc, h) <==> InOrder(doc.order, x) && x in h && !HitIn(doc.targets, h, x)
  {
    hide Nested, Hist, TreeOf;
    if InOrder(doc.order, x) {
      var i := IndexOf(doc.order, x);
      assert x < |log.g|;
      var deletes := DeletesOf(doc.targets, h, x);
      if HitIn(doc.targets, h, x) {
        var d :| d in doc.targets && d in h && doc.targets[d] == x;
        assert d in deletes;
      } else {
        assert deletes == {};
      }
    }
  }

  lemma {:induction false} ItemsSame<T>(log: Log<T>, log': Log<T>, doc: Doc, doc': Doc, h: set<nat>, h': set<nat>)
    requires AllMadeSame(log, log', doc, doc', h) && SameSet(log, log', h, h')
    ensures SameItems(log, log', doc, doc', h, h')
  {
    hide TreeOf, InOrder;
    forall x: nat, y: nat | Twin(log, log', x, y)
      ensures x in h && InOrder(doc.order, x) <==> y in h' && InOrder(doc'.order, y)
    {
      if x in h { assert MadeSame(log, log', doc, doc', x, y); }
    }
  }

  lemma {:induction false} VisibleSame<T>(log: Log<T>, log': Log<T>, doc: Doc, doc': Doc, h: set<nat>, h': set<nat>)
    requires LogsAgree(log, log') && TreeKept(log, doc) && TreeKept(log', doc')
    requires AllMadeSame(log, log', doc, doc', h) && SameSet(log, log', h, h')
    requires (forall d | d in h :: d < |log.g|) && (forall d | d in h' :: d < |log'.g|)
    ensures SameItems(log, log', doc, doc', VisibleSet(doc, h), VisibleSet(doc', h')) && VisibleSet(doc, h) <= h
  {
    hide TreeOf, InOrder, LogsAgree, TreeKept, AllMadeSame, SameSet, HitIn, VisibleSet, SameItems;
    ItemsSame(log, log', doc, doc', h, h');
    OtherMade(log, log', doc, doc', h, h');
    OtherWay(log, log');
    forall x: nat, y: nat | Twin(log, log', x, y)
      ensures x in VisibleSet(doc, h) && InOrder(doc.order, x) <==> y in VisibleSet(doc', h') && InOrder(doc'.order, y)
    {
      VisibleIs(log, doc, h, x);
      VisibleIs(log', doc', h', y);
      SameItem(log, log', doc, doc', h, h', x, y);
      if HitIn(doc.targets, h, x) { HitThere(log, log', doc, doc', h, h', x, y); }
      if HitIn(doc'.targets, h', y) {
        TwinBack(log, log', x, y);
        HitThere(log', log, doc', doc, h', h, y, x);
      }
    }
    VisibleInside(log, doc, h);
    VisibleInside(log', doc', h');
    PartTwinned(log, log', VisibleSet(doc, h), VisibleSet(doc', h'), h, h');
    AreSameItems(log, log', doc, doc', VisibleSet(doc, h), VisibleSet(doc', h'));
  }

  lemma {:induction false} AreSameItems<T>(log: Log<T>, log': Log<T>, doc: Doc, doc': Doc, s: set<nat>, s': set<nat>)
    requires forall x: nat, y: nat | Twin(log, log', x, y) :: x in s && InOrder(doc.order, x) <==> y in s' && InOrder(doc'.order, y)
    requires AllTwinned(log, log', s) && AllTwinned(log', log, s')
    ensures SameItems(log, log', doc, doc', s, s')
  {
  }

  lemma {:induction false} VisibleInside<T>(log: Log<T>, doc: Doc, h: set<nat>)
    requires TreeKept(log, doc)
    ensures VisibleSet(doc, h) <= h
  {
    hide VisibleSet, TreeKept;
    forall x | x in VisibleSet(doc, h) ensures x in h { VisibleIs(log, doc, h, x); }
  }

  lemma {:induction false} PartTwinned<T>(log: Log<T>, log': Log<T>, s: set<nat>, s': set<nat>, h: set<nat>, h': set<nat>)
    requires SameSet(log, log', h, h') && s <= h && s' <= h'
    ensures AllTwinned(log, log', s) && AllTwinned(log', log, s')
  {
    hide HasTwin;
  }

  lemma {:induction false} SameItem<T>(log: Log<T>, log': Log<T>, doc: Doc, doc': Doc, s: set<nat>, s': set<nat>, x: nat, y: nat)
    requires SameItems(log, log', doc, doc', s, s') && Twin(log, log', x, y)
    ensures x in s && InOrder(doc.order, x) <==> y in s' && InOrder(doc'.order, y)
  {
  }

  lemma {:induction false} TwinBack<T>(log: Log<T>, log': Log<T>, x: nat, y: nat)
    requires Twin(log, log', x, y)
    ensures Twin(log', log, y, x)
  {
  }

  /** With the same records, an author's view is the same on both sides. */
  lemma {:induction false} ViewsSame<T>(log: Log<T>, log': Log<T>, n: nat, n': nat, h: set<nat>, h': set<nat>)
    requires LogsAgree(log, log') && Reached(log, n) && Reached(log', n') && Replayable(log, n, h) && Replayable(log', n', h')
    requires AllMadeSame(log, log', DocAt(log, n), DocAt(log', n'), h) && SameSet(log, log', h, h')
    ensures SideBySide(log, log', DocAt(log, n), DocAt(log', n'), h)
    ensures SameViews(log, log', DocAt(log, n), DocAt(log', n'), h, h')
  {
    hide DocAt, Reached, TreeOf, LogsAgree, AllMadeSame, SameSet, SameItems, VisibleSet, Chosen, Closed, SideBySide, TreeKept, Replayed, Twin;
    var doc, doc' := DocAt(log, n), DocAt(log', n');
    ReachedLog(log, n);
    ReachedLog(log', n');
    DocFacts(log, n);
    DocFacts(log', n');
    RecordsAgree(log, log', n, n', h);
    ItemsSame(log, log', doc, doc', h, h');
    ChosenTwins(log, log', doc, doc', h, h, h');
    VisibleSame(log, log', doc, doc', h, h');
    ChosenTwins(log, log', doc, doc', h, VisibleSet(doc, h), VisibleSet(doc', h'));
  }

  // ---- Positions on both sides ----

  lemma {:induction false} VisibleAt(items: seq<Item>, i: nat)
    requires i < |items| && items[i].curState == INSERTED
    ensures |Visible(items[..i])| < |Visible(items)| && Visible(items)[|Visible(items[..i])|] == items[i].opId
  {
    hide Visible;
    VisiblePrefix(items, i);
    VisibleConcat(items[..i + 1], items[i + 1..]);
    assert items[..i + 1] + items[i + 1..] == items;
  }

  /** The item a delete hits, or an insert follows, in the list of visible ones. */
  lemma {:induction false} VisibleItem(doc: Doc, v: set<nat>, i: nat)
    requires i < |doc.order| && ViewAt(doc, v)[i].curState == INSERTED
    ensures var n := |Visible(ViewAt(doc, v)[..i])|;
            n < |Chosen(doc.order, VisibleSet(doc, v))| && Chosen(doc.order, VisibleSet(doc, v))[n] == doc.order[i].opId
  {
    hide Visible, Chosen, VisibleSet, StateAt, EndState;
    AllVisibleChosen(doc, v);
    VisibleAt(ViewAt(doc, v), i);
  }

  lemma {:induction false} TargetItem(doc: Doc, v: set<nat>, pos: nat, c: nat)
    requires TargetAt(ViewAt(doc, v), pos) == Some(c)
    ensures c < |doc.order| && pos < |Chosen(doc.order, VisibleSet(doc, v))| && Chosen(doc.order, VisibleSet(doc, v))[pos] == doc.order[c].opId
  {
    hide Visible, Chosen, VisibleSet, ViewAt;
    VisibleItem(doc, v, c);
  }

  lemma {:induction false} CursorItem(doc: Doc, v: set<nat>, pos: nat, c: nat)
    requires CursorAt(ViewAt(doc, v), pos) == Some(c)
    ensures c <= |doc.order| && (c == 0 <==> pos == 0)
    ensures c > 0 ==> ViewAt(doc, v)[c - 1].curState == INSERTED && pos - 1 < |Chosen(doc.order, VisibleSet(doc, v))|
                      && Chosen(doc.order, VisibleSet(doc, v))[pos - 1] == doc.order[c - 1].opId
  {
    hide Visible, Chosen, VisibleSet, ViewAt;
    if c > 0 {
      VisiblePrefix(ViewAt(doc, v), c - 1);
      VisibleItem(doc, v, c - 1);
    }
  }

  /** The setting in which an operation is replayed on both sides. */
  ghost predicate Facing<T>(log: Log<T>, log': Log<T>, doc: Doc, doc': Doc, h: set<nat>, h': set<nat>) {
    && SideBySide(log, log', doc, doc', h) && SameViews(log, log', doc, doc', h, h') && AllMadeSame(log, log', doc, doc', h)
  }

  /** The left origins of an insert. */
  ghost function LeftId(order: seq<Placed>, c: nat): int
    requires c <= |order|
  {
    if c == 0 then -1 else order[c - 1].opId
  }

  lemma {:induction false} SameLeft<T>(log: Log<T>, log': Log<T>, doc: Doc, doc': Doc, h: set<nat>, h': set<nat>, pos: nat, c: nat, c': nat)
    requires Facing(log, log', doc, doc', h, h')
    requires CursorAt(ViewAt(doc, h), pos) == Some(c) && CursorAt(ViewAt(doc', h'), pos) == Some(c')
    ensures c <= |doc.order| && c' <= |doc'.order| && SameRef(log, log', LeftId(doc.order, c), LeftId(doc'.order, c'))
  {
    hide SideBySide, AllMadeSame, Chosen, VisibleSet, ViewAt, CursorAt, Twin;
    CursorItem(doc, h, pos, c);
    CursorItem(doc', h', pos, c');
  }

  /** After corresponding items, the next ones present correspond. */
  lemma {:induction false} SameNext<T>(log: Log<T>, log': Log<T>, doc: Doc, doc': Doc, h: set<nat>, h': set<nat>, c: nat, c': nat)
    requires Facing(log, log', doc, doc', h, h') && c <= |doc.order| && c' <= |doc'.order| && (c > 0 <==> c' > 0)
    requires SameRef(log, log', LeftId(doc.order, c), LeftId(doc'.order, c'))
    requires (c > 0 ==> doc.order[c - 1].opId in h) && (c' > 0 ==> doc'.order[c' - 1].opId in h')
    ensures var x, x' := NextSettled(ViewAt(doc, h), c), NextSettled(ViewAt(doc', h'), c');
            && (x < |doc.order| <==> x' < |doc'.order|)
            && (x < |doc.order| ==> doc.order[x].opId in h && Twin(log, log', doc.order[x].opId, doc'.order[x'].opId))
  {
    hide SideBySide, AllMadeSame, Chosen, VisibleSet, ViewAt, Twin, TreeKept, DistinctOrder, LogsAgree, UniqueIds;
    SideFacts(log, log', doc, doc', h);
    UniqueBoth(log, log');
    NextChosen(log, doc, h, c);
    NextChosen(log', doc', h', c');
    var s, s', i, i' := Chosen(doc.order, h), Chosen(doc'.order, h'), |Chosen(doc.order[..c], h)|, |Chosen(doc'.order[..c'], h')|;
    if c > 0 {
      TwinsOnce(log, log', s[i - 1], s'[i - 1], s[i - 1], s'[i' - 1]);
      ChosenOnce(doc'.order, h', i - 1, i' - 1);
    }
    assert i == i';
    if i < |s| { ChosenMember(doc.order, h, i); }
  }

  lemma {:induction false} ChosenOnce(order: seq<Placed>, s: set<nat>, i: nat, j: nat)
    requires DistinctOrder(order) && i < |Chosen(order, s)| && j < |Chosen(order, s)| && Chosen(order, s)[i] == Chosen(order, s)[j]
    ensures i == j
  {
    hide Chosen, DistinctOrder;
    if i < j { ChosenSorted(order, s, i, j); }
    if j < i { ChosenSorted(order, s, j, i); }
  }

  /** The right parents of an insert. */
  lemma {:induction false} SameRightParent<T>(log: Log<T>, log': Log<T>, doc: Doc, doc': Doc, h: set<nat>, h': set<nat>, c: nat, c': nat)
    requires Facing(log, log', doc, doc', h, h') && c <= |doc.order| && c' <= |doc'.order| && (c > 0 <==> c' > 0)
    requires SameRef(log, log', LeftId(doc.order, c), LeftId(doc'.order, c'))
    requires (c > 0 ==> doc.order[c - 1].opId in h) && (c' > 0 ==> doc'.order[c' - 1].opId in h')
    ensures SameRef(log, log', RightParentAt(ViewAt(doc, h), c, LeftId(doc.order, c)), RightParentAt(ViewAt(doc', h'), c', LeftId(doc'.order, c')))
  {
    hide SideBySide, AllMadeSame, SameViews, StateAt, EndState, Twin, TreeKept, DistinctOrder, LogsAgree, UniqueIds, TreeOf;
    SideFacts(log, log', doc, doc', h);
    UniqueBoth(log, log');
    SameNext(log, log', doc, doc', h, h', c, c');
    var x, x' := NextSettled(ViewAt(doc, h), c), NextSettled(ViewAt(doc', h'), c');
    if x < |doc.order| {
      MadeOf(log, log', doc, doc', h, doc.order[x].opId, doc'.order[x'].opId);
      TreeAt(doc.order, x);
      TreeAt(doc'.order, x');
      SameRefs(log, log', doc.order[x].originLeft, doc'.order[x'].originLeft, LeftId(doc.order, c), LeftId(doc'.order, c'));
    }
  }

  lemma {:induction false} MadeOf<T>(log: Log<T>, log': Log<T>, doc: Doc, doc': Doc, h: set<nat>, x: nat, y: nat)
    requires AllMadeSame(log, log', doc, doc', h) && Twin(log, log', x, y) && x in h
    ensures MadeSame(log, log', doc, doc', x, y)
  {
  }

  // ---- By induction over history ----

  /** What an operation's author had seen has recorded the same on both sides, and stands in the same order. */
  lemma {:induction false} HistoryFaces<T>(log: Log<T>, log': Log<T>, x: nat, y: nat)
    requires LogsAgree(log, log') && Twin(log, log', x, y) && Reached(log, x) && Reached(log', y)
    ensures x < |log.g| && y < |log'.g| && InGraph(log.g, log.g[x]) && InGraph(log'.g, log'.g[y])
    ensures Facing(log, log', DocAt(log, x), DocAt(log', y), Hist(log.g, log.g[x]), Hist(log'.g, log'.g[y]))
    decreases x, 0
  {
    hide DocAt, Reached, LogsAgree, Twin, Hist, SideBySide, SameViews, MadeSame, SameSet;
    ReachedLog(log, x);
    ReachedLog(log', y);
    SameHist(log, log', x, y);
    HistReplayable(log, x);
    HistReplayable(log', y);
    var h, h' := Hist(log.g, log.g[x]), Hist(log'.g, log'.g[y]);
    forall a: nat, b: nat | Twin(log, log', a, b) && a in h
      ensures MadeSame(log, log', DocAt(log, x), DocAt(log', y), a, b)
    {
      InSameSet(log, log', h, h', a, b);
      RecordStays(log, a, x);
      RecordStays(log', b, y);
      SameMade(log, log', a, b);
      MadeSameLater(log, log', a, b, x, y);
    }
    ViewsSame(log, log', x, y, h, h');
  }

  lemma {:induction false} InSameSet<T>(log: Log<T>, log': Log<T>, s: set<nat>, s': set<nat>, x: nat, y: nat)
    requires SameSet(log, log', s, s') && Twin(log, log', x, y)
    ensures x in s <==> y in s'
  {
  }

  lemma {:induction false} HistReplayable<T>(log: Log<T>, x: nat)
    requires ValidLog(log) && x < |log.g| && InGraph(log.g, log.g[x])
    ensures Replayable(log, x, Hist(log.g, log.g[x]))
  {
    hide Hist;
    HistClosed(log.g, log.g[x]);
    forall a | a in Hist(log.g, log.g[x]) ensures a < x { EarlierThan(log.g, x, a); }
  }

  /** An operation records the same on both sides. */
  lemma {:induction false} SameMade<T>(log: Log<T>, log': Log<T>, x: nat, y: nat)
    requires LogsAgree(log, log') && Twin(log, log', x, y) && Reached(log, x + 1) && Reached(log', y + 1)
    ensures MadeSame(log, log', DocAt(log, x + 1), DocAt(log', y + 1), x, y)
    decreases x, 1
  {
    hide DocAt, Reached, LogsAgree, Twin, Hist, Facing, SameOp, MadeSame, DocApply, Replayed, TreeKept;
    LastStep(log, x);
    LastStep(log', y);
    DocFacts(log, x);
    DocFacts(log', y);
    TwinOps(log, log', x, y);
    RangeEnds(x);
    RangeEnds(y);
    HistoryFaces(log, log', x, y);
    SameKind(log, log', x, y);
    if log.ops[x].Del? {
      DeleteSame(log, log', x, y);
    } else {
      InsertSame(log, log', x, y);
    }
  }

  lemma {:induction false} SameKind<T>(log: Log<T>, log': Log<T>, x: nat, y: nat)
    requires LogsAgree(log, log') && Twin(log, log', x, y)
    ensures x < |log.ops| && y < |log'.ops| && log.ops[x] == log'.ops[y]
  {
  }

  /** Operation `x` and its twin `y`, about to be replayed. */
  ghost predicate AboutTo<T>(log: Log<T>, log': Log<T>, x: nat, y: nat) {
    && ValidLog(log) && ValidLog(log') && Reached(log, x) && Reached(log', y) && x < |log.g| && y < |log'.g|
    && InGraph(log.g, log.g[x]) && InGraph(log'.g, log'.g[y]) && log.ops[x] == log'.ops[y] && Twin(log, log', x, y)
    && Replayed(log, {}, Range(0, x), DocAt(log, x)) && Replayed(log', {}, Range(0, y), DocAt(log', y))
    && Facing(log, log', DocAt(log, x), DocAt(log', y), Hist(log.g, log.g[x]), Hist(log'.g, log'.g[y]))
  }

  lemma {:induction false} DeleteSame<T>(log: Log<T>, log': Log<T>, x: nat, y: nat)
    requires AboutTo(log, log', x, y) && log.ops[x].Del? && x !in Range(0, x) && y !in Range(0, y)
    requires DocApply(log, DocAt(log, x), x).Some? && DocApply(log', DocAt(log', y), y).Some?
    ensures MadeSame(log, log', DocApply(log, DocAt(log, x), x).value.0, DocApply(log', DocAt(log', y), y).value.0, x, y)
  {
    hide DocAt, Reached, Twin, Hist, SideBySide, AllMadeSame, DocApply, Replayed, Chosen, VisibleSet, ViewAt, TreeOf;
    var doc, doc', h, h' := DocAt(log, x), DocAt(log', y), Hist(log.g, log.g[x]), Hist(log'.g, log'.g[y]);
    var c := DeleteRecords(log, Range(0, x), doc, x);
    var c' := DeleteRecords(log', Range(0, y), doc', y);
    TargetItem(doc, h, log.ops[x].pos, c);
    TargetItem(doc', h', log.ops[x].pos, c');
  }

  lemma {:induction false} InsertSame<T>(log: Log<T>, log': Log<T>, x: nat, y: nat)
    requires AboutTo(log, log', x, y) && log.ops[x].Ins? && x !in Range(0, x) && y !in Range(0, y)
    requires DocApply(log, DocAt(log, x), x).Some? && DocApply(log', DocAt(log', y), y).Some?
    ensures MadeSame(log, log', DocApply(log, DocAt(log, x), x).value.0, DocApply(log', DocAt(log', y), y).value.0, x, y)
  {
    hide DocAt, Reached, Twin, Hist, Facing, DocApply, Replayed, ViewAt, TreeOf, CursorAt, NewPlaced, SameOrigin, MadeSame, SameBut;
    var doc, doc', h, h' := DocAt(log, x), DocAt(log', y), Hist(log.g, log.g[x]), Hist(log'.g, log'.g[y]);
    var c := InsertRecords(log, Range(0, x), doc, x);
    var c' := InsertRecords(log', Range(0, y), doc', y);
    SameNode(log, log', x, y, doc, doc', c, c');
    InsertMade(log, log', DocApply(log, doc, x).value.0, DocApply(log', doc', y).value.0, x, y);
  }

  lemma {:induction false} InsertMade<T>(log: Log<T>, log': Log<T>, doc: Doc, doc': Doc, x: nat, y: nat)
    requires x in TreeOf(doc.order) && y in TreeOf(doc'.order) && SameOrigin(log, log', TreeOf(doc.order)[x], TreeOf(doc'.order)[y])
    requires x !in doc.targets && y !in doc'.targets
    ensures MadeSame(log, log', doc, doc', x, y)
  {
    hide TreeOf, SameOrigin;
  }

  /** The new items on both sides have corresponding origins. */
  lemma {:induction false} SameNode<T>(log: Log<T>, log': Log<T>, x: nat, y: nat, doc: Doc, doc': Doc, c: nat, c': nat)
    requires ValidLog(log) && ValidLog(log') && x < |log.g| && y < |log'.g| && InGraph(log.g, log.g[x]) && InGraph(log'.g, log'.g[y])
    requires Facing(log, log', doc, doc', Hist(log.g, log.g[x]), Hist(log'.g, log'.g[y]))
    requires log.ops[x].Ins? && log'.ops[y].Ins? && log.ops[x].pos == log'.ops[y].pos
    requires c <= |doc.order| && CursorAt(ViewAt(doc, Hist(log.g, log.g[x])), log.ops[x].pos) == Some(c)
    requires c' <= |doc'.order| && CursorAt(ViewAt(doc', Hist(log'.g, log'.g[y])), log'.ops[y].pos) == Some(c')
    ensures var p, q := NewPlaced(log, doc, x, c), NewPlaced(log', doc', y, c');
            SameOrigin(log, log', Origins(p.originLeft, p.rightParent), Origins(q.originLeft, q.rightParent))
  {
    hide Twin, Hist, Facing, Chosen, VisibleSet, ViewAt, CursorAt, RightParentAt, NewPlaced, TreeKept, SameRef;
    var h, h', pos := Hist(log.g, log.g[x]), Hist(log'.g, log'.g[y]), log.ops[x].pos;
    SameLeft(log, log', doc, doc', h, h', pos, c, c');
    CursorItem(doc, h, pos, c);
    CursorItem(doc', h', pos, c');
    FacingKept(log, log', doc, doc', h, h');
    if c > 0 { PresentIn(log, doc, h, c - 1); }
    if c' > 0 { PresentIn(log', doc', h', c' - 1); }
    SameRightParent(log, log', doc, doc', h, h', c, c');
    NodeIs(log, doc, x, c);
    NodeIs(log', doc', y, c');
  }

  lemma {:induction false} FacingKept<T>(log: Log<T>, log': Log<T>, doc: Doc, doc': Doc, h: set<nat>, h': set<nat>)
    requires Facing(log, log', doc, doc', h, h')
    ensures TreeKept(log, doc) && TreeKept(log', doc')
  {
  }

  // ---- Whole logs ----

  /** An operation can be replayed on one side exactly when it can be on the other. */
  lemma {:induction false} SameRange<T>(log: Log<T>, log': Log<T>, x: nat, y: nat)
    requires LogsAgree(log, log') && Twin(log, log', x, y) && Reached(log, x) && Reached(log', y)
    ensures x < |log.g| && y < |log'.g| && (Reached(log, x + 1) <==> Reached(log', y + 1))
  {
    hide DocAt, LogsAgree, Twin, Hist, SideBySide, AllMadeSame, DocApply, Replayed, TreeKept, Chosen, VisibleSet, Visible, UniqueIds, ReplayRange, SameOp;
    ReachedLog(log, x);
    ReachedLog(log', y);
    TwinOps(log, log', x, y);
    HistoryFaces(log, log', x, y);
    SameKind(log, log', x, y);
    DocFacts(log, x);
    DocFacts(log', y);
    AllVisibleChosen(DocAt(log, x), Hist(log.g, log.g[x]));
    AllVisibleChosen(DocAt(log', y), Hist(log'.g, log'.g[y]));
    AppliesIffInRange(log, {}, Range(0, x), DocAt(log, x), x);
    AppliesIffInRange(log', {}, Range(0, y), DocAt(log', y), y);
    OneMoreReached(log, x);
    OneMoreReached(log', y);
  }

  lemma {:induction false} OneMoreReached<T>(log: Log<T>, x: nat)
    requires Reached(log, x) && x < |log.g| && InGraph(log.g, log.g[x])
    ensures Reached(log, x + 1) <==> DocApply(log, DocAt(log, x), x).Some?
  {
    hide DocApply, UniqueIds;
  }

  /** What can be replayed in one log can be replayed in the other. */
  lemma {:induction false} SharedReached<T>(log: Log<T>, log': Log<T>, x: nat, y: nat, n: nat)
    requires LogsAgree(log, log') && Twin(log, log', x, y) && Reached(log, n) && x < n && Reached(log', y)
    ensures Reached(log', y + 1)
  {
    hide Reached, LogsAgree, Twin;
    RecordStays(log, x, n);
    LastStep(log, x);
    SameRange(log, log', x, y);
  }

  /** Every operation of `log'` is in one of the other two. */
  ghost predicate FromEither<T>(a: Log<T>, b: Log<T>, log': Log<T>) {
    forall y | 0 <= y < |log'.g| :: HasTwin(log', a, y) || HasTwin(log', b, y)
  }

  lemma {:induction false} UnionReached<T>(a: Log<T>, b: Log<T>, log': Log<T>, n: nat)
    requires LogsAgree(a, log') && LogsAgree(b, log') && FromEither(a, b, log') && n <= |log'.g|
    requires Reached(a, |a.g|) && Reached(b, |b.g|)
    ensures Reached(log', n)
    decreases n
  {
    hide LogsAgree, SameOp;
    UniqueBoth(a, log');
    if n > 0 {
      UnionReached(a, b, log', n - 1);
      if HasTwin(log', a, n - 1) {
        var x: nat :| Twin(log', a, n - 1, x);
        TwinBack(log', a, n - 1, x);
        SharedReached(a, log', x, n - 1, |a.g|);
      } else {
        var x: nat :| Twin(log', b, n - 1, x);
        TwinBack(log', b, n - 1, x);
        SharedReached(b, log', x, n - 1, |b.g|);
      }
    }
  }

  lemma {:induction false} CheckoutReached<T>(log: Log<T>)
    requires ValidLog(log) && UniqueIds(log)
    ensures CheckoutOf(log).Some? <==> Reached(log, |log.g|)
    ensures CheckoutOf(log).Some? ==> CheckoutOf(log).value.doc == DocAt(log, |log.g|)
  {
    hide ReplayRange, UniqueIds;
  }

  /** A log whose operations come from logs that check out does so too. */
  lemma {:induction false} UnionChecksOut<T>(a: Log<T>, b: Log<T>, log': Log<T>)
    requires LogsAgree(a, log') && LogsAgree(b, log') && FromEither(a, b, log')
    ensures ValidLog(a) && ValidLog(b) && ValidLog(log')
    ensures CheckoutOf(a).Some? && CheckoutOf(b).Some? ==> CheckoutOf(log').Some?
  {
    hide LogsAgree, FromEither, CheckoutOf, Reached, DocAt, UniqueIds;
    UniqueBoth(a, log');
    UniqueBoth(b, log');
    CheckoutReached(a);
    CheckoutReached(b);
    CheckoutReached(log');
    if CheckoutOf(a).Some? && CheckoutOf(b).Some? {
      UnionReached(a, b, log', |log'.g|);
    }
  }

  // ---- The same operations ----

  /** The logs hold the same operations. */
  ghost predicate SameOps<T>(log: Log<T>, log': Log<T>) {
    LogsAgree(log, log') && AllTwinned(log, log', Range(0, |log.g|)) && AllTwinned(log', log, Range(0, |log'.g|))
  }

  lemma {:induction false} WholeSame<T>(log: Log<T>, log': Log<T>)
    requires SameOps(log, log')
    ensures SameSet(log, log', Range(0, |log.g|), Range(0, |log'.g|))
  {
    hide UniqueIds, HasTwin, SameOp;
  }

  lemma {:induction false} WholeReplayable<T>(log: Log<T>)
    requires ValidLog(log)
    ensures Replayable(log, |log.g|, Range(0, |log.g|))
  {
  }

  /** At the end everything has recorded the same. */
  lemma {:induction false} EndSame<T>(log: Log<T>, log': Log<T>)
    requires SameOps(log, log') && Reached(log, |log.g|) && Reached(log', |log'.g|)
    ensures AllMadeSame(log, log', DocAt(log, |log.g|), DocAt(log', |log'.g|), Range(0, |log.g|))
  {
    hide DocAt, Reached, LogsAgree, MadeSame;
    var n, n' := |log.g|, |log'.g|;
    UniqueBoth(log, log');
    forall x: nat, y: nat | Twin(log, log', x, y) && x in Range(0, n)
      ensures MadeSame(log, log', DocAt(log, n), DocAt(log', n'), x, y)
    {
      RecordStays(log, x, n);
      RecordStays(log', y, n');
      SameMade(log, log', x, y);
      MadeSameLater(log, log', x, y, n, n');
    }
  }

  /** The items that survive are those visible to someone who has seen everything. */
  lemma {:induction false} SurvivorsVisible<T>(log: Log<T>)
    requires Reached(log, |log.g|)
    ensures SurvivorSet(DocAt(log, |log.g|)) == VisibleSet(DocAt(log, |log.g|), Range(0, |log.g|))
  {
    hide DocAt, Reached, TreeOf, VisibleSet, TreeKept;
    var doc, all := DocAt(log, |log.g|), Range(0, |log.g|);
    DocFacts(log, |log.g|);
    TargetsIn(log, doc, all);
    forall x: nat
      ensures x in SurvivorSet(doc) <==> x in VisibleSet(doc, all)
    {
      VisibleIs(log, doc, all, x);
      if InOrder(doc.order, x) { InLog(log, doc, x); }
    }
  }

  lemma {:induction false} TargetsIn<T>(log: Log<T>, doc: Doc, done: set<nat>)
    requires Replayed(log, {}, done, doc)
    ensures forall d | d in doc.targets :: d in done
  {
    hide Hist, OriginsOrdered, Closed;
  }

  /** The surviving items are the same, in the same order. */
  lemma {:induction false} SurvivorsSame<T>(log: Log<T>, log': Log<T>)
    requires SameOps(log, log') && Reached(log, |log.g|) && Reached(log', |log'.g|)
    ensures SameLists(log, log', EndIds(DocAt(log, |log.g|)), EndIds(DocAt(log', |log'.g|)))
  {
    hide DocAt, Reached, LogsAgree, AllMadeSame, SameSet, SideBySide, Chosen, SurvivorSet, VisibleSet, SameLists, Visible, EndVisible, Range, AllTwinned;
    ReachedLog(log, |log.g|);
    ReachedLog(log', |log'.g|);
    EndSame(log, log');
    WholeSame(log, log');
    WholeReplayable(log);
    WholeReplayable(log');
    ViewsSame(log, log', |log.g|, |log'.g|, Range(0, |log.g|), Range(0, |log'.g|));
    SurvivorsVisible(log);
    SurvivorsVisible(log');
    AllVisibleChosen(DocAt(log, |log.g|), {});
    AllVisibleChosen(DocAt(log', |log'.g|), {});
  }

  /** Lists of the same inserts have the same contents. */
  lemma {:induction false} SameContents<T>(log: Log<T>, log': Log<T>, c: seq<nat>, c': seq<nat>)
    requires LogsAgree(log, log') && SameLists(log, log', c, c') && KnownIds(log, [], c) && KnownIds(log', [], c')
    ensures Render(log, [], c) == Render(log', [], c')
  {
    hide LogsAgree, Twin;
    forall i | 0 <= i < |c|
      ensures ContentOf(log, [], c[i]) == ContentOf(log', [], c'[i])
    {
      SameKind(log, log', c[i], c'[i]);
    }
  }

  /** Convergence: logs that hold the same operations check out to the same text, or both do not check out. */
  lemma {:induction false} CheckoutsConverge<T>(log: Log<T>, log': Log<T>)
    requires SameOps(log, log')
    ensures ValidLog(log) && ValidLog(log') && (CheckoutOf(log).Some? <==> CheckoutOf(log').Some?)
    ensures CheckoutOf(log).Some? ==> CheckoutOf(log).value.text == CheckoutOf(log').value.text
  {
    hide LogsAgree, Reached, DocAt, UniqueIds, CheckoutOf, EndIds, SameLists, KnownIds, Replayed, FromEither;
    UniqueBoth(log, log');
    OtherWay(log, log');
    AllFrom(log, log');
    AllFrom(log', log);
    UnionChecksOut(log, log, log');
    UnionChecksOut(log', log', log);
    CheckoutReached(log);
    CheckoutReached(log');
    if CheckoutOf(log).Some? {
      SurvivorsSame(log, log');
      CheckoutInSync(log);
      CheckoutInSync(log');
      SameContents(log, log', EndIds(CheckoutOf(log).value.doc), EndIds(CheckoutOf(log').value.doc));
    }
  }

  lemma {:induction false} AllFrom<T>(log: Log<T>, log': Log<T>)
    requires AllTwinned(log', log, Range(0, |log'.g|))
    ensures FromEither(log, log, log')
  {
    hide HasTwin;
  }
}
