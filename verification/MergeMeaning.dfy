/** What `mergeChangesIntoBranch` does for a document: nothing is lost or replayed twice, the
    snapshot stays the text of the items, and on simple histories the result is the plain one. */
module MergeMeaning {
  import opened Dag
  import RleGraph
  import opened ListLog
  import opened ReplayRun
  import opened BranchMerge
  import opened Ordered
  import C = Conflicting
  import R = Replay
  import I = Intent
  import Items
  import Traverse

  // ---- Completeness ----

  lemma {:induction false} BelowAll(s: set<nat>, n: nat)
    requires forall x | x in s :: x < n
    ensures Below(s, n) == s
  {
  }

  /** After a merge exactly the operations of the two histories above the base have been replayed. */
  lemma {:induction false} MergeComplete<T>(log: Log<T>, version: seq<nat>, mergeVersion: seq<nat>, base: seq<nat>, snapshot: seq<T>)
    requires ValidLog(log) && InGraph(log.g, version) && InGraph(log.g, mergeVersion)
    requires IsMergeBase(log.g, version, mergeVersion, base)
    requires MergeOf(log, version, mergeVersion, base, snapshot).Some?
    ensures R.Replayed(log, Hist(log.g, base), Hist(log.g, version) + Hist(log.g, mergeVersion) - Hist(log.g, base),
                       MergeOf(log, version, mergeVersion, base, snapshot).value.doc)
  {
    hide R.Replayed, ReplaySet, ReadySet, AboveSet, Hist, BaseDoc;
    var b, c, n := Hist(log.g, base), Conflict(log.g, version, base), Incoming(log.g, version, mergeVersion);
    var start, size := BaseDoc(PlaceholderCount(version)), |log.g|;
    MergeReady(log, version, mergeVersion, base);
    var known := ReplaySet(log, start, [], c, size).value;
    BelowAll(c, size);
    BelowAll(n, size);
    SetKeeps(log, b, {}, start, [], c, size);
    SetKeeps(log, b, {} + c, known.doc, snapshot, n, size);
    assert {} + c + n == Hist(log.g, version) + Hist(log.g, mergeVersion) - Hist(log.g, base);
  }

  // ---- Placeholders ----

  ghost function IdsOf(order: seq<R.Placed>): set<nat> {
    if order == [] then {} else IdsOf(order[..|order| - 1]) + {order[|order| - 1].opId}
  }

  lemma {:induction false} InOrderLast(order: seq<R.Placed>, id: int)
    requires order != []
    ensures R.InOrder(order, id) <==> R.InOrder(order[..|order| - 1], id) || order[|order| - 1].opId == id
    ensures R.DistinctOrder(order) ==> R.DistinctOrder(order[..|order| - 1]) && !R.InOrder(order[..|order| - 1], order[|order| - 1].opId)
  {
    var k := |order| - 1;
    if R.InOrder(order[..k], id) {
      var i :| 0 <= i < k && order[..k][i].opId == id;
      assert order[i].opId == id;
    }
    if R.InOrder(order, id) {
      var i :| 0 <= i < |order| && order[i].opId == id;
      if i < k { assert order[..k][i].opId == id; }
    }
  }

  lemma {:induction false} IdsAre(order: seq<R.Placed>, id: nat)
    ensures id in IdsOf(order) <==> R.InOrder(order, id)
  {
    hide R.InOrder;
    if order == [] {
      NoneInOrder(id);
    } else {
      IdsAre(order[..|order| - 1], id);
      InOrderLast(order, id);
    }
  }

  lemma {:induction false} NoneInOrder(id: int)
    ensures !R.InOrder([], id)
  {
  }

  lemma {:induction false} IdsCount(order: seq<R.Placed>)
    requires R.DistinctOrder(order)
    ensures |IdsOf(order)| == |order|
  {
    hide R.InOrder, R.DistinctOrder;
    if order != [] {
      var last := order[|order| - 1].opId;
      InOrderLast(order, last);
      IdsCount(order[..|order| - 1]);
      IdsAre(order[..|order| - 1], last);
    }
  }

  lemma {:induction false} RangeSize(n: nat)
    ensures |Range(0, n)| == n
  {
    if n > 0 { RangeSize(n - 1); }
  }

  lemma {:induction false} SubsetSize(a: set<nat>, b: set<nat>)
    requires a <= b
    ensures |a| <= |b|
  {
    if a != {} {
      var x :| x in a;
      SubsetSize(a - {x}, b - {x});
    }
  }

  /** A history is below the placeholder count of its version. */
  lemma {:induction false} HistBelowCount(g: Graph, version: seq<nat>)
    requires WellFormed(g) && InGraph(g, version)
    ensures Hist(g, version) <= Range(0, PlaceholderCount(version))
  {
    forall x | x in Hist(g, version)
      ensures x < PlaceholderCount(version)
    {
      var v :| v in version && Reaches(g, v, x);
      ReachesLower(g, v, x);
    }
  }

  /** There are always enough placeholders for the document as it was at the base. */
  lemma {:induction false} EnoughPlaceholders<T>(log: Log<T>, version: seq<nat>, base: seq<nat>, doc: R.Doc, v: set<nat>)
    requires ValidLog(log) && InGraph(log.g, version) && InGraph(log.g, base) && Hist(log.g, base) <= Hist(log.g, version)
    requires R.Replayed(log, {}, Hist(log.g, base), doc) && I.HasFiller<T>([], 0, doc)
    ensures |Items.Visible(R.ViewAt(doc, v))| <= PlaceholderCount(version)
    ensures |I.EndIds(doc)| <= PlaceholderCount(version)
  {
    hide R.OriginsOrdered, R.TargetsMatch, Hist, Items.Visible, Items.EndVisible;
    HistBelowCount(log.g, version);
    IdsCount(doc.order);
    RangeSize(PlaceholderCount(version));
    forall id | id in IdsOf(doc.order)
      ensures id in Range(0, PlaceholderCount(version))
    {
      IdsAre(doc.order, id);
      var i :| 0 <= i < |doc.order| && doc.order[i].opId == id;
    }
    SubsetSize(IdsOf(doc.order), Range(0, PlaceholderCount(version)));
  }

  // ---- The snapshot ----

  lemma {:induction false} RealImpliesSome<T>(log: Log<T>, base: set<nat>, done: set<nat>, doc: R.Doc, text: seq<T>, extras: nat, lv: nat)
    requires ValidLog(log) && lv < |log.g| && R.Replayed(log, base, done, doc)
    requires AllInRange(log, doc, text, extras, lv, lv + 1)
    ensures ReplayRange(log, doc, text, lv, lv + 1).Some?
  {
    hide R.Replayed, R.DocApply, Hist, Items.Visible;
    Traverse.NothingReplayed(log, doc, text, lv);
    Traverse.ReplayNext(log, doc, text, lv);
    R.AppliesIffInRange(log, base, done, doc, lv);
  }

  /** Operations that fit the real document are all replayed. */
  lemma {:induction false} SetSucceeds<T>(log: Log<T>, base: set<nat>, done: set<nat>, doc: R.Doc, text: seq<T>, extras: nat, s: set<nat>, upTo: nat)
    requires ValidLog(log) && upTo <= |log.g|
    requires R.Replayed(log, base, done, doc) && ReadySet(log, base, done, s)
    requires SetInRange(log, doc, text, extras, s, upTo)
    ensures ReplaySet(log, doc, text, s, upTo).Some?
    decreases upTo
  {
    hide ReplayRange, AllInRange, R.Replayed, ReadySet, ValidLog;
    if upTo > 0 {
      SetSucceeds(log, base, done, doc, text, extras, s, upTo - 1);
      if upTo - 1 in s {
        var before := ReplaySet(log, doc, text, s, upTo - 1).value;
        SetKeeps(log, base, done, doc, text, s, upTo - 1);
        RealImpliesSome(log, base, done + Below(s, upTo - 1), before.doc, before.text, extras, upTo - 1);
      }
    }
  }

  lemma {:induction false} AllPlaceholders<T>(log: Log<T>, filler: seq<T>, extras: nat, k: nat)
    requires ValidLog(log) && extras <= |filler| && k <= |filler|
    ensures var items := R.ViewAt(BaseDoc(|filler|), {})[..k];
            && |Items.EndVisible(items)| == k
            && forall i | 0 <= i < k :: Items.EndVisible(items)[i] == PLACEHOLDER_BASE + i
  {
    hide Items.EndVisible;
    if k == 0 {
      Items.VisibleEmpty(R.ViewAt(BaseDoc(|filler|), {}));
    } else {
      var items := R.ViewAt(BaseDoc(|filler|), {});
      AllPlaceholders(log, filler, extras, k - 1);
      Items.VisiblePrefix(items, k - 1);
    }
  }

  /** To begin with the placeholders are the base document, and the rest of them is ballast. */
  lemma {:induction false} BaseInSync<T>(log: Log<T>, filler: seq<T>, extras: nat)
    requires ValidLog(log) && extras <= |filler|
    ensures I.HasFiller(filler, extras, BaseDoc(|filler|))
    ensures I.InSync(log, filler, extras, BaseDoc(|filler|), filler[..|filler| - extras])
  {
    var items := R.ViewAt(BaseDoc(|filler|), {});
    assert items[..|filler|] == items;
    AllPlaceholders(log, filler, extras, |filler|);
    assert filler == filler[..|filler| - extras] + filler[|filler| - extras..];
    assert I.Render(log, filler, I.EndIds(BaseDoc(|filler|))) == filler;
  }

  /** A merge whose operations fit carries on from the branch's text: the result is what a replay
      of everything above the base would have made of the base document. */
  lemma {:induction false} MergeInSync<T>(log: Log<T>, version: seq<nat>, mergeVersion: seq<nat>, base: seq<nat>, snapshot: seq<T>, filler: seq<T>, extras: nat)
    requires ValidLog(log) && InGraph(log.g, version) && InGraph(log.g, mergeVersion)
    requires IsMergeBase(log.g, version, mergeVersion, base)
    requires |filler| == PlaceholderCount(version) && extras <= |filler|
    requires var c := Conflict(log.g, version, base);
             var text0 := filler[..|filler| - extras];
             var known := ReplaySet(log, BaseDoc(|filler|), text0, c, |log.g|);
             && SetInRange(log, BaseDoc(|filler|), text0, extras, c, |log.g|)
             && known.Some? && known.value.text == snapshot
             && SetInRange(log, known.value.doc, snapshot, extras, Incoming(log.g, version, mergeVersion), |log.g|)
    ensures var merged := MergeOf(log, version, mergeVersion, base, snapshot);
            merged.Some? && I.InSync(log, filler, extras, merged.value.doc, merged.value.text)
  {
    hide R.Replayed, ReplaySet, ReadySet, AboveSet, Hist, BaseDoc, SetInRange, I.InSync, I.HasFiller;
    var b, c, n := Hist(log.g, base), Conflict(log.g, version, base), Incoming(log.g, version, mergeVersion);
    var start, text0, size := BaseDoc(|filler|), filler[..|filler| - extras], |log.g|;
    var known := ReplaySet(log, start, text0, c, size).value;
    MergeReady(log, version, mergeVersion, base);
    BaseInSync(log, filler, extras);
    BelowAll(c, size);
    SetKeeps(log, b, {}, start, text0, c, size);
    SetKeepsSync(log, b, {}, start, text0, filler, extras, c, size);
    SetTextApart(log, start, text0, [], c, size);
    SetSucceeds(log, b, {} + c, known.doc, snapshot, extras, n, size);
    SetKeepsSync(log, b, {} + c, known.doc, snapshot, filler, extras, n, size);
  }

  // ---- From nothing ----

  /** Merging everything into an empty branch is a checkout. */
  lemma {:induction false} EmptyMergeIsCheckout<T>(log: Log<T>, mergeVersion: seq<nat>, base: seq<nat>)
    requires ValidLog(log) && InGraph(log.g, mergeVersion) && Hist(log.g, mergeVersion) == Range(0, |log.g|)
    requires IsMergeBase(log.g, [], mergeVersion, base)
    ensures MergeOf(log, [], mergeVersion, base, []) == CheckoutOf(log)
  {
    hide ReplayRange;
    var size := |log.g|;
    assert Hist(log.g, []) == {};
    var c, n := Conflict(log.g, [], base), Incoming(log.g, [], mergeVersion);
    assert c == {} && n == Range(0, size);
    assert BaseDoc(0) == EMPTY_DOC;
    SetGap(log, EMPTY_DOC, [], c, 0, size);
    SetRun(log, EMPTY_DOC, [], n, 0, size);
  }

  // ---- Without concurrency ----

  lemma {:induction false} FoldSplit<T>(log: Log<T>, text: seq<T>, from: nat, mid: nat, upTo: nat)
    requires from <= mid <= upTo <= |log.ops|
    ensures Fold(log, text, from, upTo) == Fold(log, Fold(log, text, from, mid), mid, upTo)
    ensures FoldInRange(log, text, from, upTo) <==> FoldInRange(log, text, from, mid) && FoldInRange(log, Fold(log, text, from, mid), mid, upTo)
    decreases upTo
  {
    if mid < upTo { FoldSplit(log, text, from, mid, upTo - 1); }
  }

  lemma {:induction false} FoldSize<T>(log: Log<T>, upTo: nat)
    requires upTo <= |log.ops|
    ensures |Fold(log, [], 0, upTo)| <= upTo
  {
    if upTo > 0 { FoldSize(log, upTo - 1); }
  }

  /** The version after the first `v` operations of a linear log. */
  function LinearVersion(v: nat): seq<nat> {
    if v == 0 then [] else [v - 1]
  }

  lemma {:induction false} LinearVersionHist(g: Graph, v: nat)
    requires WellFormed(g) && Linear(g) && v <= |g|
    ensures InGraph(g, LinearVersion(v)) && Hist(g, LinearVersion(v)) == Range(0, v)
    ensures PlaceholderCount(LinearVersion(v)) == v
  {
    if v > 0 {
      LinearHist(g, v - 1);
      HistOne(g, v - 1);
    } else {
      assert Hist(g, []) == {};
    }
  }

  lemma {:induction false} LinearDown(g: Graph, s: set<nat>, v: nat, x: nat)
    requires WellFormed(g) && Linear(g) && Closed(g, s) && v in s && v < |g| && x <= v
    ensures x in s
    decreases v
  {
    if x < v {
      assert g[v] == [v - 1];
      assert v - 1 in g[v];
      LinearDown(g, s, v - 1, x);
    }
  }

  /** On a linear log every history is a prefix. */
  lemma {:induction false} LinearPrefix(g: Graph, f: seq<nat>)
    requires WellFormed(g) && Linear(g) && InGraph(g, f)
    ensures Hist(g, f) == Range(0, PlaceholderCount(f))
  {
    HistBelowCount(g, f);
    HistClosed(g, f);
    if f != [] {
      forall x | x in Range(0, PlaceholderCount(f))
        ensures x in Hist(g, f)
      {
        LinearDown(g, Hist(g, f), Largest(f), x);
      }
    }
  }

  lemma {:induction false} LinearSequential<T>(log: Log<T>, base: set<nat>, done: set<nat>, from: nat, upTo: nat)
    requires ValidLog(log) && Linear(log.g) && from <= upTo <= |log.g| && base + done == Range(0, from)
    ensures Sequential(log, base, done, from, upTo)
  {
    forall lv | from <= lv < upTo
      ensures InGraph(log.g, log.g[lv]) && Hist(log.g, log.g[lv]) == base + done + Range(from, lv)
    {
      LinearHist(log.g, lv);
    }
  }

  /** A run of consecutive versions as a set, replayed sequentially: the fold of plain splices. */
  lemma {:induction false} LinearPart<T>(log: Log<T>, base: set<nat>, done: set<nat>, doc: R.Doc, text: seq<T>, filler: seq<T>, extras: nat, from: nat, upTo: nat)
    requires ValidLog(log) && Linear(log.g) && from <= upTo <= |log.g| && base + done == Range(0, from)
    requires R.Replayed(log, base, done, doc) && ReadySet(log, base, done, Range(from, upTo))
    requires I.HasFiller(filler, extras, doc) && I.InSync(log, filler, extras, doc, text)
    requires FoldInRange(log, text, from, upTo)
    ensures var out := ReplaySet(log, doc, text, Range(from, upTo), |log.g|);
            && out.Some? && out.value.text == Fold(log, text, from, upTo)
            && R.Replayed(log, base, done + Range(from, upTo), out.value.doc)
            && I.HasFiller(filler, extras, out.value.doc) && I.InSync(log, filler, extras, out.value.doc, out.value.text)
  {
    hide R.Replayed, ReplayRange, I.InSync, I.HasFiller, ReadySet, ValidLog, AllInRange, Fold, FoldInRange, Sequential, Ready;
    var s, size := Range(from, upTo), |log.g|;
    SetGap(log, doc, text, s, 0, from);
    SetRun(log, doc, text, s, from, upTo);
    SetGap(log, doc, text, s, upTo, size);
    ReadyRun(log, base, done, s, from, upTo);
    assert done + Below(s, from) == done;
    LinearSequential(log, base, done, from, upTo);
    SequentialReplay(log, base, done, doc, text, filler, extras, from, upTo);
    RangeKeeps(log, base, done, doc, text, from, upTo);
    RangeKeepsSync(log, base, done, doc, text, filler, extras, from, upTo);
  }

  /** On a linear log, merging the rest into a branch at any prefix, through any base and its
      placeholders, folds the remaining operations onto the branch's text. */
  lemma {:induction false} LinearMerge<T>(log: Log<T>, v: nat, upTo: nat, base: seq<nat>)
    requires ValidLog(log) && Linear(log.g) && v <= upTo <= |log.g|
    requires InGraph(log.g, LinearVersion(v)) && InGraph(log.g, LinearVersion(upTo))
    requires IsMergeBase(log.g, LinearVersion(v), LinearVersion(upTo), base)
    requires FoldInRange(log, [], 0, upTo)
    ensures var merged := MergeOf(log, LinearVersion(v), LinearVersion(upTo), base, Fold(log, [], 0, v));
            merged.Some? && merged.value.text == Fold(log, [], 0, upTo)
  {
    hide R.Replayed, ReplaySet, I.InSync, I.HasFiller, ReadySet, Fold, FoldInRange, Hist, BaseDoc, IsMergeBase;
    var k := PlaceholderCount(base);
    LinearCases(log, v, upTo, base);
    FoldSplit(log, [], 0, v, upTo);
    FoldSplit(log, [], 0, k, v);
    var filler := LinearFiller(log, k, v);
    var text0 := Fold(log, [], 0, k);
    var extras := |filler| - |text0|;
    var b := Hist(log.g, base);
    MergeReady(log, LinearVersion(v), LinearVersion(upTo), base);
    BaseInSync(log, filler, extras);
    assert b + {} == Range(0, k);
    LinearPart(log, b, {}, BaseDoc(v), text0, filler, extras, k, v);
    SetTextApart(log, BaseDoc(v), text0, [], Range(k, v), |log.g|);
    var known := ReplaySet(log, BaseDoc(v), text0, Range(k, v), |log.g|).value;
    assert b + ({} + Range(k, v)) == Range(0, v);
    LinearPart(log, b, {} + Range(k, v), known.doc, known.text, filler, extras, v, upTo);
  }

  /** The parts of a linear merge: `[0, k)` is the base, `[k, v)` the conflict, and the rest is new. */
  lemma {:induction false} LinearCases<T>(log: Log<T>, v: nat, upTo: nat, base: seq<nat>)
    requires ValidLog(log) && Linear(log.g) && v <= upTo <= |log.g|
    requires InGraph(log.g, LinearVersion(v)) && InGraph(log.g, LinearVersion(upTo))
    requires IsMergeBase(log.g, LinearVersion(v), LinearVersion(upTo), base)
    ensures PlaceholderCount(base) <= v == PlaceholderCount(LinearVersion(v)) && InGraph(log.g, base)
    ensures Hist(log.g, base) == Range(0, PlaceholderCount(base))
    ensures Conflict(log.g, LinearVersion(v), base) == Range(PlaceholderCount(base), v)
    ensures Incoming(log.g, LinearVersion(v), LinearVersion(upTo)) == Range(v, upTo)
  {
    hide Hist;
    LinearVersionHist(log.g, v);
    LinearVersionHist(log.g, upTo);
    LinearPrefix(log.g, base);
    var k := PlaceholderCount(base);
    if k > 0 { assert k - 1 in Range(0, k); }
  }

  /** A text of `v` characters that starts with the document after `k` operations. */
  lemma {:induction false} LinearFiller<T>(log: Log<T>, k: nat, v: nat) returns (filler: seq<T>)
    requires k <= v <= |log.ops| && FoldInRange(log, [], 0, v)
    ensures |Fold(log, [], 0, k)| <= |filler| == v
    ensures filler[..|Fold(log, [], 0, k)|] == Fold(log, [], 0, k)
  {
    var text0 := Fold(log, [], 0, k);
    FoldSize(log, k);
    if v == 0 {
      filler := [];
    } else {
      FoldSplit(log, [], 0, 1, v);
      assert Fold(log, [], 0, 0) == [];
      assert Fits(log.ops[0], Fold(log, [], 0, 0));
      var x := log.ops[0].content;
      filler := text0 + seq(v - |text0|, _ => x);
    }
  }

  // ---- Positions past the end ----

  lemma {:induction false} AllPlaceholdersVisible(count: nat, v: set<nat>, k: nat)
    requires k <= count
    ensures |Items.Visible(R.ViewAt(BaseDoc(count), v)[..k])| == k
  {
    var doc := BaseDoc(count);
    if k > 0 {
      AllPlaceholdersVisible(count, v, k - 1);
      Items.VisiblePrefix(R.ViewAt(doc, v), k - 1);
      assert R.DeletesOf(doc.targets, v, doc.order[k - 1].opId) == {};
    }
  }

  /** Merging the next operation of a linear log into a branch at its latest version: the merge
      accepts every position up to the number of placeholders, however short the document is. */
  lemma {:induction false} SurplusAccepts<T>(log: Log<T>, v: nat, snapshot: seq<T>)
    requires ValidLog(log) && Linear(log.g) && 0 < v && |log.g| == v + 1
    ensures InGraph(log.g, LinearVersion(v)) && InGraph(log.g, LinearVersion(v + 1))
    ensures IsMergeBase(log.g, LinearVersion(v), LinearVersion(v + 1), LinearVersion(v))
    ensures MergeOf(log, LinearVersion(v), LinearVersion(v + 1), LinearVersion(v), snapshot).Some? <==>
              match log.ops[v]
              case Ins(pos, _) => pos <= v
              case Del(pos) => pos < v
  {
    hide R.Replayed, R.DocApply, Hist, Items.Visible, R.ViewAt, BaseDoc, ReplayRange;
    var g, doc := log.g, BaseDoc(v);
    LinearVersionHist(g, v);
    LinearVersionHist(g, v + 1);
    LinearHist(g, v);
    HistClosed(g, LinearVersion(v));
    var b, c, n := Range(0, v), Conflict(g, LinearVersion(v), LinearVersion(v)), Incoming(g, LinearVersion(v), LinearVersion(v + 1));
    assert c == {} && n == {v};
    BaseReplayed(log, b, v);
    SetGap(log, doc, [], c, 0, v + 1);
    SetGap(log, doc, snapshot, n, 0, v);
    SetRun(log, doc, snapshot, n, v, v + 1);
    Traverse.ReplayNext(log, doc, snapshot, v);
    R.AppliesIffInRange(log, b, {}, doc, v);
    AllPlaceholdersVisible(v, Hist(g, g[v]), v);
    BaseLength(v, Hist(g, g[v]));
  }

  /** Whether a run of consecutive operations of a linear log can be replayed on a document that is all
      in sync: exactly if the fold of plain splices stays in range. */
  lemma {:induction false} LinearSucceeds<T>(log: Log<T>, base: set<nat>, done: set<nat>, doc: R.Doc, text: seq<T>, filler: seq<T>, from: nat, upTo: nat)
    requires ValidLog(log) && Linear(log.g) && from <= upTo <= |log.g| && base + done == Range(0, from)
    requires R.Replayed(log, base, done, doc) && ReadySet(log, base, done, Range(from, upTo))
    requires I.HasFiller(filler, 0, doc) && I.InSync(log, filler, 0, doc, text)
    ensures ReplaySet(log, doc, text, Range(from, upTo), |log.g|).Some? <==> FoldInRange(log, text, from, upTo)
  {
    hide R.Replayed, ReplayRange, I.InSync, I.HasFiller, ReadySet, ValidLog, AllInRange, Fold, FoldInRange, Sequential, Ready;
    var s, size := Range(from, upTo), |log.g|;
    SetGap(log, doc, text, s, 0, from);
    SetRun(log, doc, text, s, from, upTo);
    SetGap(log, doc, text, s, upTo, size);
    ReadyRun(log, base, done, s, from, upTo);
    assert done + Below(s, from) == done;
    LinearSequential(log, base, done, from, upTo);
    SequentialReplay(log, base, done, doc, text, filler, 0, from, upTo);
    SucceedsInRange(log, base, done, doc, text, from, upTo);
  }

  /** On a linear log a merge takes the placeholders for a document as long as they are many: it
      accepts the operations exactly if they fit such a document, one after the other. */
  lemma {:induction false} LinearMergeAccepts<T>(log: Log<T>, v: nat, upTo: nat, base: seq<nat>, snapshot: seq<T>, filler: seq<T>)
    requires ValidLog(log) && Linear(log.g) && v <= upTo <= |log.g| && |filler| == v
    requires InGraph(log.g, LinearVersion(v)) && InGraph(log.g, LinearVersion(upTo))
    requires IsMergeBase(log.g, LinearVersion(v), LinearVersion(upTo), base)
    ensures InGraph(log.g, base) && PlaceholderCount(base) <= v
    ensures MergeOf(log, LinearVersion(v), LinearVersion(upTo), base, snapshot).Some? <==> FoldInRange(log, filler, PlaceholderCount(base), upTo)
  {
    hide R.Replayed, ReplaySet, I.InSync, I.HasFiller, ReadySet, Fold, FoldInRange, Hist, BaseDoc, IsMergeBase;
    LinearCases(log, v, upTo, base);
    var k, b, size := PlaceholderCount(base), Hist(log.g, base), |log.g|;
    MergeReady(log, LinearVersion(v), LinearVersion(upTo), base);
    BaseInSync(log, filler, 0);
    assert filler[..|filler|] == filler && b + {} == Range(0, k);
    LinearSucceeds(log, b, {}, BaseDoc(v), filler, filler, k, v);
    SetTextApart(log, BaseDoc(v), filler, [], Range(k, v), size);
    FoldSplit(log, filler, k, v, upTo);
    if FoldInRange(log, filler, k, v) {
      var known := ReplaySet(log, BaseDoc(v), filler, Range(k, v), size).value;
      assert b + ({} + Range(k, v)) == Range(0, v);
      LinearPart(log, b, {}, BaseDoc(v), filler, filler, 0, k, v);
      LinearSucceeds(log, b, {} + Range(k, v), known.doc, known.text, filler, v, upTo);
      SetTextApart(log, known.doc, known.text, snapshot, Range(v, upTo), size);
    }
  }

  /** A log that a merge accepts and a checkout rejects: it inserts past the end of an empty document. */
  lemma {:induction false} MergeAcceptsMore(ids: seq<RleGraph.RawVersion>)
    requires |ids| == 3
    ensures var log := Log([Ins(0, 'a'), Del(0), Ins(1, 'b')], [[], [0], [1]], ids);
            && ValidLog(log) && InGraph(log.g, [1]) && InGraph(log.g, [2]) && IsMergeBase(log.g, [1], [2], [1])
            && MergeOf(log, [1], [2], [1], []).Some? && CheckoutOf(log).None?
  {
    var log := Log([Ins(0, 'a'), Del(0), Ins(1, 'b')], [[], [0], [1]], ids);
    assert ValidLog(log) && Linear(log.g);
    hide ValidLog, WellFormed, Linear, Hist, IsMergeBase, MergeOf, CheckoutOf, Fold, FoldInRange;
    SurplusAccepts(log, 2, []);
    LinearCheckout(log);
    PastTheEnd(log);
  }

  lemma {:induction false} PastTheEnd(log: Log<char>)
    requires log.ops == [Ins(0, 'a'), Del(0), Ins(1, 'b')]
    ensures !FoldInRange(log, [], 0, 3)
  {
    assert Fold(log, [], 0, 1) == ['a'];
    assert Fold(log, [], 0, 2) == [];
  }

  lemma {:induction false} BaseLength(count: nat, v: set<nat>)
    ensures R.ViewAt(BaseDoc(count), v)[..count] == R.ViewAt(BaseDoc(count), v)
  {
  }

  // ---- The base ----

  /** What `findConflicting` returns is determined: there is one highest base. */
  lemma {:induction false} BaseDetermined(g: Graph, a: seq<nat>, b: seq<nat>, base: seq<nat>, base': seq<nat>)
    requires WellFormed(g) && InGraph(g, a) && InGraph(g, b) && C.AllApart(g, a, b)
    requires C.Highest(g, a, b, base) && C.Highest(g, a, b, base')
    ensures InGraph(g, base) && InGraph(g, base') && Hist(g, base) == Hist(g, base')
  {
    hide InHist, C.AllApart, C.Apart;
    assert C.SubHist(g, base, base') && C.SubHist(g, base', base);
    forall x: nat
      ensures x in Hist(g, base) <==> x in Hist(g, base')
    {
      assert InHist(g, base, x) <==> InHist(g, base', x);
    }
  }

  lemma {:induction false} LinearApart(g: Graph, v: nat, w: nat)
    requires WellFormed(g) && Linear(g) && v < |g| && w < |g|
    ensures InGraph(g, [v]) && InGraph(g, [w]) && C.AllApart(g, [v], [w])
  {
    hide Reaches;
  }

  /** On a linear log the base is the earlier of the two versions, so that nothing of it is replayed. */
  lemma {:induction false} LinearBase(g: Graph, v: nat, w: nat, base: seq<nat>)
    requires WellFormed(g) && Linear(g) && v <= w < |g| && InGraph(g, [v]) && InGraph(g, [w])
    requires C.Highest(g, [v], [w], base) || C.Highest(g, [w], [v], base)
    ensures base == [v]
  {
    hide InHist, Reaches, C.AllApart, C.Apart;
    LinearApart(g, v, w);
    LinearApart(g, w, v);
    LinearJoint(g, v, w);
    OnlyThere(g, base, v);
  }

  lemma {:induction false} LinearIn(g: Graph, u: nat, x: nat)
    requires WellFormed(g) && Linear(g) && u < |g|
    ensures InGraph(g, [u]) && (InHist(g, [u], x) <==> x <= u) && (Reaches(g, u, x) <==> x <= u)
  {
    hide Reaches;
    LinearPrefix(g, [u]);
    assert x in Hist(g, [u]) <==> x < u + 1;
    assert u in [u];
    if InHist(g, [u], x) { InHistBound(g, [u], x); }
  }

  lemma {:induction false} LinearJoint(g: Graph, v: nat, w: nat)
    requires WellFormed(g) && Linear(g) && v <= w < |g| && InGraph(g, [v]) && InGraph(g, [w])
    ensures C.Joint(g, [v], [w], [v]) && C.Joint(g, [w], [v], [v])
  {
    hide InHist, Reaches;
    forall u, x: nat | u in {v, w}
      ensures InHist(g, [u], x) <==> x <= u
    {
      LinearIn(g, u, x);
    }
    forall x: nat | x < |g| && v < x
      ensures C.SubHist(g, [v], [x])
    {
      forall y: nat | InHist(g, [v], y)
        ensures InHist(g, [x], y)
      {
        LinearIn(g, x, y);
      }
    }
  }

  lemma {:induction false} OnlyThere(g: Graph, base: seq<nat>, v: nat)
    requires WellFormed(g) && Linear(g) && v < |g| && InGraph(g, [v])
    requires C.SubHist(g, base, [v]) && C.SubHist(g, [v], base) && C.Apart(g, base)
    ensures base == [v]
  {
    hide Reaches, InHist;
    var y := C.MemberReaches(g, [v], base, v);
    LinearIn(g, y, v);
    forall z | z in base
      ensures z <= v && Reaches(g, v, z)
    {
      var u := C.MemberReaches(g, base, [v], z);
      LinearIn(g, v, z);
    }
    forall i | 0 <= i < |base|
      ensures base[i] == v
    {
      assert base[i] in base;
      C.ApartMembers(g, base, v, base[i]);
    }
    OnlyOne(base, v);
  }

  lemma {:induction false} OnlyOne(s: seq<nat>, v: nat)
    requires s != [] && (forall i | 0 <= i < |s| :: s[i] == v) && forall i, j | 0 <= i < j < |s| :: s[i] != s[j]
    ensures s == [v]
  {
    assert s[0] == s[|s| - 1];
  }
}
