/** A merge through placeholders is a replay: taking another version into a branch gives the text of
    replaying the branch's own history and then the operations that are new to it. */
module MergeReplay {
  import opened Dag
  import opened ListLog
  import opened ReplayRun
  import opened BranchMerge
  import opened MergeSimulation
  import R = Replay
  import I = Intent
  import M = MergeMeaning
  import Items
  import Traverse

  // ---- Any number of operations on both sides ----

  lemma {:induction false} StepOnBoth<T>(log: Log<T>, s: Sides, done: set<nat>, lv: nat) returns (s': Sides)
    requires InStep(log, s, done) && NextIn(log, s, done, lv) && R.DocApply(log, s.full, lv).Some?
    ensures R.DocApply(log, s.held, lv).Some?
    ensures s'.b == s.b && s'.ballast == s.ballast && s'.full == R.DocApply(log, s.full, lv).value.0 && s'.held == R.DocApply(log, s.held, lv).value.0
    ensures R.DocApply(log, s.full, lv).value.1 == R.DocApply(log, s.held, lv).value.1
    ensures InStep(log, s', done + {lv})
  {
    hide Linked, R.Replayed, R.DocApply, Hist;
    if log.ops[lv].Del? {
      s' := DeleteOnBoth(log, s, done, lv);
    } else {
      s' := InsertOnBoth(log, s, done, lv);
    }
    assert {} + (s.b + done) == s.b + done && s.b + done + {lv} == s.b + (done + {lv});
    StepKeeps(log, {}, s.b + done, s.full, lv);
    StepKeeps(log, s.b, done, s.held, lv);
    Orderly(log, {}, s.b + done + {lv}, s'.full);
    Orderly(log, s.b, done + {lv}, s'.held);
  }

  lemma {:induction false} Orderly<T>(log: Log<T>, base: set<nat>, done: set<nat>, doc: R.Doc)
    requires R.Replayed(log, base, done, doc)
    ensures ValidLog(log) && R.DistinctOrder(doc.order)
  {
  }

  lemma {:induction false} NextInSet<T>(log: Log<T>, b: set<nat>, done: set<nat>, s: set<nat>, lv: nat, sides: Sides)
    requires ValidLog(log) && sides.b == b && ReadySet(log, b, done, s) && AboveSet(log, b, s) && lv in s
    ensures NextIn(log, sides, done + Below(s, lv), lv)
    ensures done + Below(s, lv + 1) == done + Below(s, lv) + {lv}
  {
    hide Hist;
    HistOne(log.g, lv);
    forall p | p in log.g[lv]
      ensures p in b + (done + Below(s, lv))
    {
      assert p in b + done + s;
      assert p < lv;
    }
  }

  /** Whatever is replayed on top of the base is replayed on the placeholders, and edits the text alike. */
  lemma {:induction false} SetOnBoth<T>(log: Log<T>, s: Sides, done: set<nat>, text: seq<T>, ops: set<nat>, upTo: nat) returns (s': Sides)
    requires InStep(log, s, done) && ValidLog(log) && upTo <= |log.g| && ReadySet(log, s.b, done, ops) && AboveSet(log, s.b, ops)
    requires ReplaySet(log, s.full, text, ops, upTo).Some?
    ensures ReplaySet(log, s.held, text, ops, upTo).Some?
    ensures ReplaySet(log, s.full, text, ops, upTo).value == Outcome(s'.full, ReplaySet(log, s.held, text, ops, upTo).value.text)
    ensures ReplaySet(log, s.held, text, ops, upTo).value.doc == s'.held
    ensures s'.b == s.b && s'.ballast == s.ballast && InStep(log, s', done + Below(ops, upTo))
    decreases upTo
  {
    hide InStep, NextIn, R.DocApply, ReplayRange, ReadySet, AboveSet, ValidLog, Below;
    if upTo == 0 {
      NoneBelow(log, s.full, text, done, ops);
      s' := s;
    } else {
      var lv := upTo - 1;
      var before := SetOnBoth(log, s, done, text, ops, lv);
      if lv in ops {
        NextInSet(log, s.b, done, ops, lv, before);
        NextInGraph(log, before, done + Below(ops, lv), lv);
        var text' := ReplaySet(log, s.held, text, ops, lv).value.text;
        Traverse.ReplayNext(log, before.full, text', lv);
        Traverse.ReplayNext(log, before.held, text', lv);
        s' := StepOnBoth(log, before, done + Below(ops, lv), lv);
      } else {
        s' := before;
        BelowSame(ops, lv);
      }
    }
  }

  /** The replay on top of the base succeeds exactly when the one on placeholders stays off the surplus. */
  lemma {:induction false} SetFitsBoth<T>(log: Log<T>, s: Sides, done: set<nat>, text: seq<T>, ops: set<nat>, upTo: nat)
    requires InStep(log, s, done) && ValidLog(log) && upTo <= |log.g| && ReadySet(log, s.b, done, ops) && AboveSet(log, s.b, ops)
    ensures ReplaySet(log, s.full, text, ops, upTo).Some? <==> SetInRange(log, s.held, text, |s.ballast|, ops, upTo)
    decreases upTo
  {
    hide InStep, NextIn, R.DocApply, ReplayRange, ReadySet, AboveSet, ValidLog, Below, AllInRange;
    if upTo > 0 {
      var lv := upTo - 1;
      SetFitsBoth(log, s, done, text, ops, lv);
      if lv in ops && ReplaySet(log, s.full, text, ops, lv).Some? {
        var before := SetOnBoth(log, s, done, text, ops, lv);
        NextInSet(log, s.b, done, ops, lv, before);
        OneFits(log, before, done + Below(ops, lv), lv, ReplaySet(log, s.full, text, ops, lv).value.text);
      }
    }
  }

  lemma {:induction false} OneFits<T>(log: Log<T>, s: Sides, done: set<nat>, lv: nat, text: seq<T>)
    requires InStep(log, s, done) && NextIn(log, s, done, lv)
    ensures ReplayRange(log, s.full, text, lv, lv + 1).Some? <==> AllInRange(log, s.held, text, |s.ballast|, lv, lv + 1)
  {
    hide Linked, R.DocApply, R.Replayed, R.InRange, I.InRealRange, ReplayRange, Hist;
    Traverse.ReplayNext(log, s.full, text, lv);
    Traverse.NothingReplayed(log, s.held, text, lv);
    R.AppliesIffInRange(log, {}, s.b + done, s.full, lv);
    FitsBoth(log, s, done, lv);
    NothingInRange(log, s.held, text, |s.ballast|, lv);
  }

  lemma {:induction false} NothingInRange<T>(log: Log<T>, doc: R.Doc, text: seq<T>, extras: nat, lv: nat)
    requires ValidLog(log) && lv < |log.g|
    ensures AllInRange(log, doc, text, extras, lv, lv)
  {
  }

  lemma {:induction false} NextInGraph<T>(log: Log<T>, s: Sides, done: set<nat>, lv: nat)
    requires NextIn(log, s, done, lv)
    ensures lv < |log.g| && InGraph(log.g, log.g[lv])
  {
  }

  lemma {:induction false} BelowSame(s: set<nat>, lv: nat)
    requires lv !in s
    ensures Below(s, lv + 1) == Below(s, lv)
  {
  }

  // ---- The base ----

  ghost function Placeholders(n: nat): (r: seq<R.Placed>)
    ensures |r| == n
  {
    BaseDoc(n).order
  }

  /** The items of the base: those that are still there get the placeholders, in order. */
  ghost function BaseCells(order: seq<R.Placed>, targets: map<nat, nat>): (r: seq<Cell>)
    ensures |r| == |order|
  {
    if order == [] then []
    else
      var k := |order| - 1;
      var before := BaseCells(order[..k], targets);
      before + [Cell(if R.EndState(targets, order[k].opId) == Items.DELETED then Gone else Kept, order[k], Placeholder(|HeldOrder(before)|))]
  }

  lemma {:induction false} BaseCellAt(order: seq<R.Placed>, targets: map<nat, nat>, c: nat)
    requires c < |order|
    ensures var cell := BaseCells(order, targets)[c];
            && cell.full == order[c] && cell.held.opId >= PLACEHOLDER_BASE && cell.held.originLeft == -1
            && cell.kind == if R.EndState(targets, order[c].opId) == Items.DELETED then Gone else Kept
  {
    hide R.EndState;
    var k := |order| - 1;
    if c < k { BaseCellAt(order[..k], targets, c); }
  }

  lemma {:induction false} HeldSnoc(cells: seq<Cell>, cell: Cell)
    ensures HeldOrder(cells + [cell]) == HeldOrder(cells) + (if cell.kind.Gone? then [] else [cell.held])
  {
    assert (cells + [cell])[..|cells|] == cells;
  }

  lemma {:induction false} OneMorePlaceholder(n: nat)
    ensures Placeholders(n + 1) == Placeholders(n) + [Placeholder(n)]
  {
  }

  /** As many placeholders are used as items survive at the base. */
  lemma {:induction false} BaseHeld(order: seq<R.Placed>, targets: map<nat, nat>)
    ensures HeldOrder(BaseCells(order, targets)) == Placeholders(|I.EndIds(R.Doc(order, targets))|)
  {
    hide R.EndState, HeldOrder, Placeholder;
    if order == [] {
      NoCellsHeld();
      assert R.ViewAt(R.Doc([], targets), {}) == [];
    } else {
      var k := |order| - 1;
      var view := R.ViewAt(R.Doc(order, targets), {});
      BaseHeld(order[..k], targets);
      assert view[..k] == R.ViewAt(R.Doc(order[..k], targets), {});
      HeldSnoc(BaseCells(order[..k], targets), BaseCells(order, targets)[k]);
      OneMorePlaceholder(|I.EndIds(R.Doc(order[..k], targets))|);
      EndsAre(targets, order[k].opId);
    }
  }

  lemma {:induction false} EndsAre(targets: map<nat, nat>, id: nat)
    ensures R.EndState(targets, id) == Items.DELETED || R.EndState(targets, id) == Items.INSERTED
  {
  }

  lemma {:induction false} NoCellsHeld()
    ensures HeldOrder([]) == []
  {
  }

  /** The document at the base, next to as many placeholders as there are. */
  ghost function BaseSides(b: set<nat>, doc: R.Doc, count: nat): Sides {
    var used := |I.EndIds(doc)|;
    Sides(b, BaseCells(doc.order, doc.targets), if used <= count then Placeholders(count)[used..] else [], doc, BaseDoc(count))
  }

  lemma {:induction false} BaseOrders<T>(log: Log<T>, b: set<nat>, doc: R.Doc, count: nat)
    requires R.Replayed(log, {}, b, doc) && R.Replayed(log, b, {}, BaseDoc(count)) && |I.EndIds(doc)| <= count
    ensures Orders(BaseSides(b, doc, count))
  {
    hide BaseCells, HeldOrder, I.EndIds, R.OriginsOrdered, R.OrderMatches, R.TargetsMatch, Closed, R.DistinctOrder;
    var used, cells := |I.EndIds(doc)|, BaseCells(doc.order, doc.targets);
    BaseHeld(doc.order, doc.targets);
    forall c | 0 <= c < |doc.order|
      ensures cells[c].full == doc.order[c]
    {
      BaseCellAt(doc.order, doc.targets, c);
    }
    assert FullOrder(cells) == doc.order;
    FirstPlaceholders(used, count);
  }

  lemma {:induction false} FirstPlaceholders(used: nat, count: nat)
    requires used <= count
    ensures Placeholders(used) + Placeholders(count)[used..] == Placeholders(count)
  {
  }

  lemma {:induction false} BaseCellOk<T>(log: Log<T>, b: set<nat>, doc: R.Doc, count: nat, c: nat)
    requires R.Replayed(log, {}, b, doc) && I.HasFiller<T>([], 0, doc) && c < |doc.order|
    ensures CellOk(log, b, BaseSides(b, doc, count).cells, BaseSides(b, doc, count).ballast, c)
  {
    hide BaseCells, HeldOrder, I.EndIds, R.TargetsMatch, Closed, R.DistinctOrder, HasOrigin, HasRight, R.EndState;
    BaseCellAt(doc.order, doc.targets, c);
    var left := doc.order[c].originLeft;
    if left != -1 {
      var j :| 0 <= j < |doc.order| && j < c && doc.order[j].opId == left;
      assert doc.order[j].opId < PLACEHOLDER_BASE;
    }
    assert doc.order[c].opId < PLACEHOLDER_BASE;
  }

  lemma {:induction false} BaseTargets<T>(log: Log<T>, b: set<nat>, doc: R.Doc, count: nat)
    requires R.Replayed(log, {}, b, doc)
    ensures TargetsSame(b, BaseSides(b, doc, count).cells, doc.targets, map[])
  {
    hide BaseCells, HeldOrder, I.EndIds, R.OriginsOrdered, R.OrderMatches, Closed, R.DistinctOrder, HitSame;
    var cells := BaseCells(doc.order, doc.targets);
    forall c | 0 <= c < |cells|
      ensures cells[c].kind.Gone? <==> DeletedIn(b, doc.targets, cells[c].full.opId)
    {
      BaseCellAt(doc.order, doc.targets, c);
    }
  }

  /** To begin with the placeholders stand for what survives of the base document. */
  lemma {:induction false} BaseInStep<T>(log: Log<T>, b: set<nat>, doc: R.Doc, count: nat)
    requires R.Replayed(log, {}, b, doc) && R.Replayed(log, b, {}, BaseDoc(count))
    requires I.HasFiller<T>([], 0, doc) && |I.EndIds(doc)| <= count
    ensures InStep(log, BaseSides(b, doc, count), {})
  {
    hide Orders, CellOk, TargetsSame, BaseCells, HeldOrder, I.EndIds, R.Replayed, I.HasFiller;
    Orderly(log, {}, b, doc);
    BaseOrders(log, b, doc, count);
    forall c | 0 <= c < |doc.order|
      ensures CellOk(log, b, BaseSides(b, doc, count).cells, BaseSides(b, doc, count).ballast, c)
    {
      BaseCellOk(log, b, doc, count, c);
    }
    BaseTargets(log, b, doc, count);
    assert b + {} == b;
  }

  // ---- The branch's own history ----

  /** Only the members below `upTo` matter. */
  lemma {:induction false} SetAgree<T>(log: Log<T>, doc: R.Doc, text: seq<T>, s: set<nat>, s': set<nat>, upTo: nat)
    requires ValidLog(log) && upTo <= |log.g| && forall x | 0 <= x < upTo :: x in s <==> x in s'
    ensures ReplaySet(log, doc, text, s, upTo) == ReplaySet(log, doc, text, s', upTo)
  {
    hide ReplayRange;
    if upTo > 0 { SetAgree(log, doc, text, s, s', upTo - 1); }
  }

  /** A replay can be cut anywhere. */
  lemma {:induction false} SetCut<T>(log: Log<T>, doc: R.Doc, text: seq<T>, s: set<nat>, later: set<nat>, m: nat, upTo: nat)
    requires ValidLog(log) && m <= upTo <= |log.g|
    requires (forall x | x in later :: m <= x) && forall x | m <= x < upTo :: x in s <==> x in later
    ensures ReplaySet(log, doc, text, s, upTo) ==
            match ReplaySet(log, doc, text, s, m)
            case None => None
            case Some(mid) => ReplaySet(log, mid.doc, mid.text, later, upTo)
    decreases upTo
  {
    hide ReplayRange;
    if upTo == m {
      match ReplaySet(log, doc, text, s, m)
      case None =>
      case Some(mid) =>
        SetGap(log, mid.doc, mid.text, later, 0, m);
    } else {
      SetCut(log, doc, text, s, later, m, upTo - 1);
    }
  }

  /** What is above the base has larger versions than what is in it. */
  lemma {:induction false} BaseFirst(g: Graph, version: seq<nat>, base: seq<nat>)
    requires WellFormed(g) && InGraph(g, version) && IsMergeBase(g, version, version, base)
    ensures forall x | x in Hist(g, base) :: x < PlaceholderCount(base)
    ensures forall x | x in Conflict(g, version, base) :: PlaceholderCount(base) <= x
    ensures PlaceholderCount(base) <= |g|
  {
    hide InHist;
    M.HistBelowCount(g, base);
    HistClosed(g, base);
    forall x | x in Conflict(g, version, base)
      ensures PlaceholderCount(base) <= x
    {
      if base != [] {
        assert Largest(base) in Hist(g, g[x]);
        HistBelow(g, x, Largest(base));
      }
    }
  }

  lemma {:induction false} HistBelow(g: Graph, x: nat, y: nat)
    requires WellFormed(g) && x < |g| && InGraph(g, g[x]) && y in Hist(g, g[x])
    ensures y < x
  {
    var p :| p in g[x] && Reaches(g, p, y);
    ReachesLower(g, p, y);
  }

  lemma {:induction false} BaseOfOne(g: Graph, version: seq<nat>, mergeVersion: seq<nat>, base: seq<nat>)
    requires WellFormed(g) && InGraph(g, version) && InGraph(g, mergeVersion) && IsMergeBase(g, version, mergeVersion, base)
    ensures IsMergeBase(g, version, version, base)
  {
    hide Hist;
  }

  /** Replaying the history of a version is replaying its base and then what is above that. */
  lemma {:induction false} HistoryCut<T>(log: Log<T>, version: seq<nat>, base: seq<nat>)
    requires ValidLog(log) && InGraph(log.g, version) && IsMergeBase(log.g, version, version, base)
    ensures ReplaySet(log, EMPTY_DOC, [], Hist(log.g, version), |log.g|) ==
            match ReplaySet(log, EMPTY_DOC, [], Hist(log.g, base), |log.g|)
            case None => None
            case Some(mid) => ReplaySet(log, mid.doc, mid.text, Conflict(log.g, version, base), |log.g|)
  {
    hide Hist, ReplayRange, ReplaySet;
    var m, b, c := PlaceholderCount(base), Hist(log.g, base), Conflict(log.g, version, base);
    BaseFirst(log.g, version, base);
    forall x: nat
      ensures x < m ==> (x in Hist(log.g, version) <==> x in b)
    {
      assert x in Hist(log.g, version) && x !in b ==> x in c;
    }
    SetAgree(log, EMPTY_DOC, [], Hist(log.g, version), b, m);
    SetGap(log, EMPTY_DOC, [], b, m, |log.g|);
    SetCut(log, EMPTY_DOC, [], Hist(log.g, version), c, m, |log.g|);
  }

  lemma {:induction false} HistoryReady<T>(log: Log<T>, f: seq<nat>)
    requires ValidLog(log) && InGraph(log.g, f)
    ensures ReadySet(log, {}, {}, Hist(log.g, f)) && (forall x | x in Hist(log.g, f) :: x < |log.g|)
  {
    hide InHist;
    HistClosed(log.g, f);
  }

  /** Without ballast, whatever is replayed is in range. */
  lemma {:induction false} ReplayedInRange<T>(log: Log<T>, base: set<nat>, done: set<nat>, doc: R.Doc, text: seq<T>, s: set<nat>, upTo: nat)
    requires ValidLog(log) && upTo <= |log.g| && R.Replayed(log, base, done, doc) && ReadySet(log, base, done, s)
    requires ReplaySet(log, doc, text, s, upTo).Some?
    ensures SetInRange(log, doc, text, 0, s, upTo)
    decreases upTo
  {
    hide R.Replayed, ReadySet, ReplayRange, AllInRange, ValidLog;
    if upTo > 0 {
      ReplayedInRange(log, base, done, doc, text, s, upTo - 1);
      if upTo - 1 in s {
        var before := ReplaySet(log, doc, text, s, upTo - 1).value;
        SetKeeps(log, base, done, doc, text, s, upTo - 1);
        ReadyRun(log, base, done, s, upTo - 1, upTo);
        SucceedsInRange(log, base, done + Below(s, upTo - 1), before.doc, before.text, upTo - 1, upTo);
      }
    }
  }

  /** The document at a version: it has replayed the version's history, and holds no placeholders. */
  lemma {:induction false} HistoryDoc<T>(log: Log<T>, f: seq<nat>)
    requires ValidLog(log) && InGraph(log.g, f) && ReplaySet(log, EMPTY_DOC, [], Hist(log.g, f), |log.g|).Some?
    ensures var doc := ReplaySet(log, EMPTY_DOC, [], Hist(log.g, f), |log.g|).value.doc;
            && R.Replayed(log, {}, Hist(log.g, f), doc) && I.HasFiller<T>([], 0, doc)
            && |I.EndIds(doc)| == |ReplaySet(log, EMPTY_DOC, [], Hist(log.g, f), |log.g|).value.text|
  {
    hide Hist, ReplaySet, SetInRange, R.Replayed, I.HasFiller, I.InSync, ReadySet;
    var s := Hist(log.g, f);
    EmptyReplayed(log);
    HistoryReady(log, f);
    M.BelowAll(s, |log.g|);
    assert {} + s == s;
    SetKeeps(log, {}, {}, EMPTY_DOC, [], s, |log.g|);
    ReplayedInRange(log, {}, {}, EMPTY_DOC, [], s, |log.g|);
    SetKeepsSync(log, {}, {}, EMPTY_DOC, [], [], 0, s, |log.g|);
    var out := ReplaySet(log, EMPTY_DOC, [], s, |log.g|).value;
    SyncSize(log, out.doc, out.text);
  }

  lemma {:induction false} SyncSize<T>(log: Log<T>, doc: R.Doc, text: seq<T>)
    requires I.InSync(log, [], 0, doc, text)
    ensures |I.EndIds(doc)| == |text|
  {
    hide I.EndIds, I.KnownIds;
    assert text + [] == text;
  }

  // ---- The merge ----

  /** A merge carries on from the branch: if the branch's text comes from replaying its history, and the
      operations that are new to it can be replayed after that, then the merge through placeholders
      succeeds, and gives the text of that replay. */
  lemma {:induction false} MergeIsReplay<T>(log: Log<T>, version: seq<nat>, mergeVersion: seq<nat>, base: seq<nat>)
    requires ValidLog(log) && InGraph(log.g, version) && InGraph(log.g, mergeVersion)
    requires IsMergeBase(log.g, version, mergeVersion, base)
    requires var known := ReplaySet(log, EMPTY_DOC, [], Hist(log.g, version), |log.g|);
             known.Some? && ReplaySet(log, known.value.doc, known.value.text, Incoming(log.g, version, mergeVersion), |log.g|).Some?
    ensures var known := ReplaySet(log, EMPTY_DOC, [], Hist(log.g, version), |log.g|).value;
            var merged := MergeOf(log, version, mergeVersion, base, known.text);
            && merged.Some?
            && merged.value.text == ReplaySet(log, known.doc, known.text, Incoming(log.g, version, mergeVersion), |log.g|).value.text
  {
    hide Hist, ReplaySet, R.Replayed, I.HasFiller, InStep, ReadySet, AboveSet, I.EndIds, BaseDoc, IsMergeBase, Conflict, Incoming;
    var known := ReplaySet(log, EMPTY_DOC, [], Hist(log.g, version), |log.g|).value;
    var s := BranchInStep(log, version, mergeVersion, base);
    var b, c, n, size := Hist(log.g, base), Conflict(log.g, version, base), Incoming(log.g, version, mergeVersion), |log.g|;
    MergeReady(log, version, mergeVersion, base);
    var s' := SetOnBoth(log, s, {} + c, known.text, n, size);
  }

  /** That replay succeeds exactly when, on the placeholders, no operation that is new to the branch
      reaches the surplus: the placeholders beyond the length of the base document. */
  lemma {:induction false} MergeFitsExactly<T>(log: Log<T>, version: seq<nat>, mergeVersion: seq<nat>, base: seq<nat>)
    requires ValidLog(log) && InGraph(log.g, version) && InGraph(log.g, mergeVersion)
    requires IsMergeBase(log.g, version, mergeVersion, base) && ReplaySet(log, EMPTY_DOC, [], Hist(log.g, version), |log.g|).Some?
    ensures ReplaySet(log, EMPTY_DOC, [], Hist(log.g, base), |log.g|).Some?
    ensures ReplaySet(log, BaseDoc(PlaceholderCount(version)), [], Conflict(log.g, version, base), |log.g|).Some?
    ensures var known := ReplaySet(log, EMPTY_DOC, [], Hist(log.g, version), |log.g|).value;
            var held := ReplaySet(log, BaseDoc(PlaceholderCount(version)), [], Conflict(log.g, version, base), |log.g|).value;
            var surplus := PlaceholderCount(version) - |ReplaySet(log, EMPTY_DOC, [], Hist(log.g, base), |log.g|).value.text|;
            && surplus >= 0
            && (ReplaySet(log, known.doc, known.text, Incoming(log.g, version, mergeVersion), |log.g|).Some? <==>
                SetInRange(log, held.doc, known.text, surplus, Incoming(log.g, version, mergeVersion), |log.g|))
  {
    hide Hist, ReplaySet, R.Replayed, I.HasFiller, InStep, ReadySet, AboveSet, I.EndIds, BaseDoc, IsMergeBase, Conflict, Incoming, SetInRange;
    var known := ReplaySet(log, EMPTY_DOC, [], Hist(log.g, version), |log.g|).value;
    var s := BranchInStep(log, version, mergeVersion, base);
    MergeReady(log, version, mergeVersion, base);
    SetFitsBoth(log, s, {} + Conflict(log.g, version, base), known.text, Incoming(log.g, version, mergeVersion), |log.g|);
  }

  /** The merged text is that of the merged items, the placeholders holding the text of the base. */
  lemma {:induction false} MergeRenders<T>(log: Log<T>, version: seq<nat>, mergeVersion: seq<nat>, base: seq<nat>, surplus: seq<T>)
    requires ValidLog(log) && InGraph(log.g, version) && InGraph(log.g, mergeVersion)
    requires IsMergeBase(log.g, version, mergeVersion, base)
    requires var known := ReplaySet(log, EMPTY_DOC, [], Hist(log.g, version), |log.g|);
             known.Some? && ReplaySet(log, known.value.doc, known.value.text, Incoming(log.g, version, mergeVersion), |log.g|).Some?
    requires var below := ReplaySet(log, EMPTY_DOC, [], Hist(log.g, base), |log.g|);
             below.Some? && |below.value.text| + |surplus| == PlaceholderCount(version)
    ensures var filler := ReplaySet(log, EMPTY_DOC, [], Hist(log.g, base), |log.g|).value.text + surplus;
            var merged := MergeOf(log, version, mergeVersion, base, ReplaySet(log, EMPTY_DOC, [], Hist(log.g, version), |log.g|).value.text);
            merged.Some? && I.InSync(log, filler, |surplus|, merged.value.doc, merged.value.text)
  {
    hide Hist, ReplaySet, R.Replayed, I.HasFiller, I.InSync, InStep, ReadySet, AboveSet, I.EndIds, BaseDoc, IsMergeBase, Conflict, Incoming, SetInRange, MergeOf;
    var known := ReplaySet(log, EMPTY_DOC, [], Hist(log.g, version), |log.g|).value;
    var s := BranchInStep(log, version, mergeVersion, base);
    var text0 := ReplaySet(log, EMPTY_DOC, [], Hist(log.g, base), |log.g|).value.text;
    var filler, c, n, size := text0 + surplus, Conflict(log.g, version, base), Incoming(log.g, version, mergeVersion), |log.g|;
    MergeReady(log, version, mergeVersion, base);
    SetFitsBoth(log, s, {} + c, known.text, n, size);
    assert filler[..|filler| - |surplus|] == text0;
    M.MergeInSync(log, version, mergeVersion, base, known.text, filler, |surplus|);
  }

  /** The branch's document next to its placeholders, once the conflict has been replayed. */
  lemma {:induction false} BranchInStep<T>(log: Log<T>, version: seq<nat>, mergeVersion: seq<nat>, base: seq<nat>) returns (s: Sides)
    requires ValidLog(log) && InGraph(log.g, version) && InGraph(log.g, mergeVersion)
    requires IsMergeBase(log.g, version, mergeVersion, base) && ReplaySet(log, EMPTY_DOC, [], Hist(log.g, version), |log.g|).Some?
    ensures InGraph(log.g, base) && s.b == Hist(log.g, base) && InStep(log, s, {} + Conflict(log.g, version, base))
    ensures s.full == ReplaySet(log, EMPTY_DOC, [], Hist(log.g, version), |log.g|).value.doc
    ensures var below := ReplaySet(log, EMPTY_DOC, [], Hist(log.g, base), |log.g|);
            below.Some? && |s.ballast| == PlaceholderCount(version) - |below.value.text|
    ensures var known := ReplaySet(log, BaseDoc(PlaceholderCount(version)), [], Conflict(log.g, version, base), |log.g|);
            known.Some? && s.held == known.value.doc
    ensures var text0 := ReplaySet(log, EMPTY_DOC, [], Hist(log.g, base), |log.g|).value.text;
            && ReplaySet(log, BaseDoc(PlaceholderCount(version)), text0, Conflict(log.g, version, base), |log.g|) ==
               Some(Outcome(s.held, ReplaySet(log, EMPTY_DOC, [], Hist(log.g, version), |log.g|).value.text))
            && SetInRange(log, BaseDoc(PlaceholderCount(version)), text0, |s.ballast|, Conflict(log.g, version, base), |log.g|)
  {
    hide Hist, ReplaySet, SetInRange, R.Replayed, I.HasFiller, InStep, ReadySet, AboveSet, I.EndIds, BaseDoc, Conflict;
    var count, size := PlaceholderCount(version), |log.g|;
    var b, c := Hist(log.g, base), Conflict(log.g, version, base);
    MergeReady(log, version, mergeVersion, base);
    BaseOfOne(log.g, version, mergeVersion, base);
    HistoryCut(log, version, base);
    var mid := ReplaySet(log, EMPTY_DOC, [], b, size).value;
    HistoryDoc(log, base);
    M.EnoughPlaceholders(log, version, base, mid.doc, {});
    BaseInStep(log, b, mid.doc, count);
    M.BelowAll(c, size);
    s := SetOnBoth(log, BaseSides(b, mid.doc, count), {}, mid.text, c, size);
    SetFitsBoth(log, BaseSides(b, mid.doc, count), {}, mid.text, c, size);
    SetTextApart(log, BaseDoc(count), mid.text, [], c, size);
  }

  // ---- New operations at the end of the log ----

  /** A history that is a prefix of the log is replayed as that prefix. */
  lemma {:induction false} PrefixHistory<T>(log: Log<T>, s: set<nat>, n: nat)
    requires ValidLog(log) && n <= |log.g| && s == Range(0, n)
    ensures ReplaySet(log, EMPTY_DOC, [], s, |log.g|) == ReplayRange(log, EMPTY_DOC, [], 0, n)
  {
    hide ReplayRange, ReplaySet;
    NoneBelow(log, EMPTY_DOC, [], {}, s);
    SetRun(log, EMPTY_DOC, [], s, 0, n);
    SetGap(log, EMPTY_DOC, [], s, n, |log.g|);
  }

  /** What has been appended is replayed as a range. */
  lemma {:induction false} AppendedRange<T>(log: Log<T>, out: Outcome<T>, s: set<nat>, n: nat, m: nat)
    requires ValidLog(log) && n <= m <= |log.g| && s == Range(n, m)
    ensures ReplaySet(log, out.doc, out.text, s, |log.g|) == ReplayRange(log, out.doc, out.text, n, m)
  {
    hide ReplayRange, ReplaySet;
    NoneBelow(log, out.doc, out.text, {}, s);
    SetGap(log, out.doc, out.text, s, 0, n);
    SetRun(log, out.doc, out.text, s, n, m);
    SetGap(log, out.doc, out.text, s, m, |log.g|);
  }

  /** Merging what has been appended to the log into a branch at its earlier end is a fresh replay of
      everything, whatever the branch and the new operations are concurrent with. */
  lemma {:induction false} MergeCatchesUp<T>(log: Log<T>, version: seq<nat>, mergeVersion: seq<nat>, base: seq<nat>, n: nat, m: nat)
    requires ValidLog(log) && InGraph(log.g, version) && InGraph(log.g, mergeVersion)
    requires IsMergeBase(log.g, version, mergeVersion, base) && n <= m <= |log.g|
    requires Hist(log.g, version) == Range(0, n) && Hist(log.g, version) + Hist(log.g, mergeVersion) == Range(0, m)
    requires ReplayRange(log, EMPTY_DOC, [], 0, m).Some?
    ensures ReplayRange(log, EMPTY_DOC, [], 0, n).Some?
    ensures var merged := MergeOf(log, version, mergeVersion, base, ReplayRange(log, EMPTY_DOC, [], 0, n).value.text);
            merged.Some? && merged.value.text == ReplayRange(log, EMPTY_DOC, [], 0, m).value.text
  {
    hide ReplayRange, ReplaySet, MergeOf, Hist, IsMergeBase;
    var arrived := Incoming(log.g, version, mergeVersion);
    assert forall x :: x in Range(0, m) <==> x in Hist(log.g, version) || x in Hist(log.g, mergeVersion);
    assert arrived == Range(n, m);
    Traverse.ReplaySplit(log, EMPTY_DOC, [], 0, n, m);
    PrefixHistory(log, Hist(log.g, version), n);
    AppendedRange(log, ReplayRange(log, EMPTY_DOC, [], 0, n).value, arrived, n, m);
    MergeIsReplay(log, version, mergeVersion, base);
  }
}
