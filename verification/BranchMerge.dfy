/** `mergeChangesIntoBranch`: a document at one version takes in the changes of another, by
    replaying only what lies above a version that everything concurrent builds on. */
module BranchMerge {
  import opened Dag
  import opened RleGraph
  import opened Ranges
  import opened ListLog
  import opened ReplayRun
  import opened Traverse
  import E = EditContext
  import R = Replay
  import I = Intent
  import C = Conflicting
  import Dominators

  // ---- What a merge means ----

  /** Replays the members of `s` below `upTo` in ascending order, each once, at its own parents. */
  ghost function ReplaySet<T>(log: Log<T>, doc: R.Doc, text: seq<T>, s: set<nat>, upTo: nat): Option<Outcome<T>>
    requires ValidLog(log) && upTo <= |log.g|
  {
    if upTo == 0 then Some(Outcome(doc, text))
    else
      match ReplaySet(log, doc, text, s, upTo - 1)
      case None => None
      case Some(before) =>
        if upTo - 1 !in s then Some(before)
        else ReplayRange(log, before.doc, before.text, upTo - 1, upTo)
  }

  function Largest(version: seq<nat>): (r: nat)
    requires version != []
    ensures r in version && forall v | v in version :: v <= r
  {
    if |version| == 1 then version[0]
    else
      var rest := Largest(version[1..]);
      assert version == [version[0]] + version[1..];
      if version[0] >= rest then version[0] else rest
  }

  /** `Math.max(...version) + 1`, which is no iteration at all for the empty version. */
  function PlaceholderCount(version: seq<nat>): nat {
    if version == [] then 0 else Largest(version) + 1
  }

  ghost function Placeholder(i: nat): R.Placed {
    R.Placed(PLACEHOLDER_BASE + i, -1, -1)
  }

  /** The items that stand for the document before the first replayed operation. */
  ghost function BaseDoc(count: nat): R.Doc {
    R.Doc(seq(count, i requires 0 <= i < count => Placeholder(i)), map[])
  }

  /** Everything that is not in both histories, and is replayed, builds on the whole base. */
  ghost predicate IsMergeBase(g: Graph, version: seq<nat>, mergeVersion: seq<nat>, base: seq<nat>)
    requires WellFormed(g) && InGraph(g, version) && InGraph(g, mergeVersion)
  {
    && InGraph(g, base)
    && Hist(g, base) <= Hist(g, version) && Hist(g, base) <= Hist(g, mergeVersion)
    && (forall x | x in Hist(g, version) + Hist(g, mergeVersion) && x !in Hist(g, base) ::
          InGraph(g, g[x]) && Hist(g, base) <= Hist(g, g[x]))
  }

  /** The operations the branch already has and that are replayed without the snapshot. */
  ghost function Conflict(g: Graph, version: seq<nat>, base: seq<nat>): set<nat>
    requires WellFormed(g) && InGraph(g, version) && InGraph(g, base)
  {
    Hist(g, version) - Hist(g, base)
  }

  /** The operations that are new to the branch. */
  ghost function Incoming(g: Graph, version: seq<nat>, mergeVersion: seq<nat>): set<nat>
    requires WellFormed(g) && InGraph(g, version) && InGraph(g, mergeVersion)
  {
    Hist(g, mergeVersion) - Hist(g, version)
  }

  ghost function MergeOf<T>(log: Log<T>, version: seq<nat>, mergeVersion: seq<nat>, base: seq<nat>, snapshot: seq<T>): Option<Outcome<T>>
    requires ValidLog(log) && InGraph(log.g, version) && InGraph(log.g, mergeVersion) && InGraph(log.g, base)
  {
    match ReplaySet(log, BaseDoc(PlaceholderCount(version)), [], Conflict(log.g, version, base), |log.g|)
    case None => None
    case Some(known) => ReplaySet(log, known.doc, snapshot, Incoming(log.g, version, mergeVersion), |log.g|)
  }

  // ---- Sets of versions against runs of versions ----

  lemma {:induction false} SetGap<T>(log: Log<T>, doc: R.Doc, text: seq<T>, s: set<nat>, lo: nat, hi: nat)
    requires ValidLog(log) && lo <= hi <= |log.g|
    requires forall x | lo <= x < hi :: x !in s
    ensures ReplaySet(log, doc, text, s, lo) == ReplaySet(log, doc, text, s, hi)
    decreases hi
  {
    if lo < hi { SetGap(log, doc, text, s, lo, hi - 1); }
  }

  lemma {:induction false} SetRun<T>(log: Log<T>, doc: R.Doc, text: seq<T>, s: set<nat>, lo: nat, hi: nat)
    requires ValidLog(log) && lo <= hi <= |log.g|
    requires forall x | lo <= x < hi :: x in s
    ensures ReplaySet(log, doc, text, s, hi) ==
            match ReplaySet(log, doc, text, s, lo)
            case None => None
            case Some(out) => ReplayRange(log, out.doc, out.text, lo, hi)
    decreases hi
  {
    hide R.DocApply;
    match ReplaySet(log, doc, text, s, lo)
    case None =>
      if lo < hi { SetRun(log, doc, text, s, lo, hi - 1); }
    case Some(out) =>
      NothingReplayed(log, out.doc, out.text, lo);
      if lo < hi {
        SetRun(log, doc, text, s, lo, hi - 1);
        ReplaySplit(log, out.doc, out.text, lo, hi - 1, hi);
      }
  }

  lemma {:induction false} SetStays<T>(log: Log<T>, doc: R.Doc, text: seq<T>, s: set<nat>, lo: nat, hi: nat)
    requires ValidLog(log) && lo <= hi <= |log.g|
    requires ReplaySet(log, doc, text, s, lo).None?
    ensures ReplaySet(log, doc, text, s, hi).None?
    decreases hi
  {
    if lo < hi { SetStays(log, doc, text, s, lo, hi - 1); }
  }

  // ---- The invariant over a set of versions ----

  /** The members of `s` are new, and their parents are there or come first. */
  ghost predicate ReadySet<T>(log: Log<T>, base: set<nat>, done: set<nat>, s: set<nat>) {
    && s !! base + done
    && (forall x | x in s :: x < |log.g|)
    && (forall x, p | x in s && x < |log.g| && p in log.g[x] :: p in base + done + s)
  }

  ghost function Below(s: set<nat>, n: nat): set<nat> {
    set x | x in s && x < n
  }

  lemma {:induction false} BelowRun(s: set<nat>, lo: nat, hi: nat)
    requires lo <= hi && forall x | lo <= x < hi :: x in s
    ensures Below(s, hi) == Below(s, lo) + Range(lo, hi)
  {
  }

  lemma {:induction false} ReadyRun<T>(log: Log<T>, base: set<nat>, done: set<nat>, s: set<nat>, lo: nat, hi: nat)
    requires ValidLog(log) && ReadySet(log, base, done, s) && lo <= hi <= |log.g|
    requires forall x | lo <= x < hi :: x in s
    ensures Ready(log, base, done + Below(s, lo), lo, hi)
  {
    forall lv | lo <= lv < hi
      ensures lv !in base + (done + Below(s, lo))
    {
      assert lv in s;
    }
    forall lv, p | lo <= lv < hi && p in log.g[lv]
      ensures p in base + (done + Below(s, lo)) || lo <= p < lv
    {
      assert p in base + done + s;
      assert p < lv;
    }
  }

  /** The document invariant holds after any number of members. */
  lemma {:induction false} SetKeeps<T>(log: Log<T>, base: set<nat>, done: set<nat>, doc: R.Doc, text: seq<T>, s: set<nat>, upTo: nat)
    requires ValidLog(log) && upTo <= |log.g|
    requires R.Replayed(log, base, done, doc) && ReadySet(log, base, done, s)
    requires ReplaySet(log, doc, text, s, upTo).Some?
    ensures R.Replayed(log, base, done + Below(s, upTo), ReplaySet(log, doc, text, s, upTo).value.doc)
    decreases upTo
  {
    hide ReplayRange, R.Replayed, ReadySet, ValidLog;
    if upTo == 0 {
      assert done + Below(s, 0) == done;
    } else {
      SetKeeps(log, base, done, doc, text, s, upTo - 1);
      var before := ReplaySet(log, doc, text, s, upTo - 1).value;
      if upTo - 1 in s {
        ReadyRun(log, base, done, s, upTo - 1, upTo);
        RangeKeeps(log, base, done + Below(s, upTo - 1), before.doc, before.text, upTo - 1, upTo);
        assert done + Below(s, upTo - 1) + Range(upTo - 1, upTo) == done + Below(s, upTo);
      } else {
        assert done + Below(s, upTo - 1) == done + Below(s, upTo);
      }
    }
  }

  /** Whatever is replayed fits into the real document at the time, ballast aside. */
  ghost predicate SetInRange<T>(log: Log<T>, doc: R.Doc, text: seq<T>, extras: nat, s: set<nat>, upTo: nat)
    requires ValidLog(log) && upTo <= |log.g|
  {
    upTo > 0 ==>
      && SetInRange(log, doc, text, extras, s, upTo - 1)
      && (upTo - 1 in s ==>
            var before := ReplaySet(log, doc, text, s, upTo - 1);
            before.Some? && AllInRange(log, before.value.doc, before.value.text, extras, upTo - 1, upTo))
  }

  lemma {:induction false} SetKeepsSync<T>(log: Log<T>, base: set<nat>, done: set<nat>, doc: R.Doc, text: seq<T>, filler: seq<T>, extras: nat, s: set<nat>, upTo: nat)
    requires ValidLog(log) && upTo <= |log.g|
    requires R.Replayed(log, base, done, doc) && ReadySet(log, base, done, s)
    requires I.HasFiller(filler, extras, doc) && I.InSync(log, filler, extras, doc, text)
    requires ReplaySet(log, doc, text, s, upTo).Some? && SetInRange(log, doc, text, extras, s, upTo)
    ensures var after := ReplaySet(log, doc, text, s, upTo).value;
            I.HasFiller(filler, extras, after.doc) && I.InSync(log, filler, extras, after.doc, after.text)
    decreases upTo
  {
    hide ReplayRange, R.Replayed, ReadySet, ValidLog, I.InSync, I.HasFiller, AllInRange;
    if upTo > 0 {
      SetKeepsSync(log, base, done, doc, text, filler, extras, s, upTo - 1);
      var before := ReplaySet(log, doc, text, s, upTo - 1).value;
      if upTo - 1 in s {
        SetKeeps(log, base, done, doc, text, s, upTo - 1);
        ReadyRun(log, base, done, s, upTo - 1, upTo);
        RangeKeepsSync(log, base, done + Below(s, upTo - 1), before.doc, before.text, filler, extras, upTo - 1, upTo);
      }
    }
  }

  /** The text plays no part in what is replayed. */
  lemma {:induction false} TextApart<T>(log: Log<T>, doc: R.Doc, text: seq<T>, text': seq<T>, from: nat, upTo: nat)
    requires ValidLog(log) && from <= upTo <= |log.g|
    ensures ReplayRange(log, doc, text, from, upTo).Some? == ReplayRange(log, doc, text', from, upTo).Some?
    ensures ReplayRange(log, doc, text, from, upTo).Some? ==>
              ReplayRange(log, doc, text, from, upTo).value.doc == ReplayRange(log, doc, text', from, upTo).value.doc
    decreases upTo
  {
    hide R.DocApply;
    if from < upTo { TextApart(log, doc, text, text', from, upTo - 1); }
  }

  lemma {:induction false} SetTextApart<T>(log: Log<T>, doc: R.Doc, text: seq<T>, text': seq<T>, s: set<nat>, upTo: nat)
    requires ValidLog(log) && upTo <= |log.g|
    ensures ReplaySet(log, doc, text, s, upTo).Some? == ReplaySet(log, doc, text', s, upTo).Some?
    ensures ReplaySet(log, doc, text, s, upTo).Some? ==>
              ReplaySet(log, doc, text, s, upTo).value.doc == ReplaySet(log, doc, text', s, upTo).value.doc
    decreases upTo
  {
    hide ReplayRange;
    if upTo > 0 {
      SetTextApart(log, doc, text, text', s, upTo - 1);
      if ReplaySet(log, doc, text, s, upTo - 1).Some? {
        var before, before' := ReplaySet(log, doc, text, s, upTo - 1).value, ReplaySet(log, doc, text', s, upTo - 1).value;
        TextApart(log, before.doc, before.text, before'.text, upTo - 1, upTo);
      }
    }
  }

  // ---- The merge, step by step ----

  /** Sorts the visited ranges into those the branch has and those it lacks, joining neighbours. */
  method SplitVisits(visits: seq<C.Visit>) returns (conflictOps: seq<LVRange>, newOps: seq<LVRange>)
    requires C.VisitsDescend(visits)
    ensures Ascending(conflictOps) && Ascending(newOps)
    ensures forall x: nat :: InRanges(newOps, x) <==> C.VisitedAs(visits, x, B)
    ensures forall x: nat :: InRanges(conflictOps, x) <==> C.VisitedAs(visits, x, A) || C.VisitedAs(visits, x, Shared)
  {
    conflictOps, newOps := [], [];
    for i := 0 to |visits|
      invariant Descending(conflictOps) && Descending(newOps)
      invariant forall j, k | i <= j < |visits| && 0 <= k < |conflictOps| :: visits[j].range.end <= conflictOps[k].start
      invariant forall j, k | i <= j < |visits| && 0 <= k < |newOps| :: visits[j].range.end <= newOps[k].start
      invariant forall x: nat :: InRanges(newOps, x) <==> C.VisitedAs(visits[..i], x, B)
      invariant forall x: nat :: InRanges(conflictOps, x) <==> C.VisitedAs(visits[..i], x, A) || C.VisitedAs(visits[..i], x, Shared)
    {
      var span, flag := visits[i].range, visits[i].flag;
      OneMoreVisit(visits, i);
      if flag == B {
        PushReversedRanges(newOps, span);
        newOps := PushReversed(newOps, span);
      } else {
        PushReversedRanges(conflictOps, span);
        conflictOps := PushReversed(conflictOps, span);
      }
    }
    assert visits[..|visits|] == visits;
    ReverseRanges(newOps);
    ReverseRanges(conflictOps);
    conflictOps, newOps := Reverse(conflictOps), Reverse(newOps);
  }

  lemma {:induction false} OneMoreVisit(visits: seq<C.Visit>, i: nat)
    requires i < |visits|
    ensures forall x: nat, flag :: C.VisitedAs(visits[..i + 1], x, flag) <==>
              C.VisitedAs(visits[..i], x, flag) || (flag == visits[i].flag && visits[i].range.start <= x < visits[i].range.end)
  {
    forall x: nat, flag
      ensures C.VisitedAs(visits[..i + 1], x, flag) <==>
              C.VisitedAs(visits[..i], x, flag) || (flag == visits[i].flag && visits[i].range.start <= x < visits[i].range.end)
    {
      if C.VisitedAs(visits[..i], x, flag) {
        var vis :| vis in visits[..i] && vis.flag == flag && vis.range.start <= x < vis.range.end;
        assert vis in visits[..i + 1];
      }
      assert visits[i] in visits[..i + 1];
    }
  }

  lemma {:induction false} BaseView(count: nat, v: set<nat>, items: seq<Items.Item>)
    requires |items| == count
    requires forall i | 0 <= i < count :: items[i] == Items.Item(PLACEHOLDER_BASE + i, Items.INSERTED, Items.INSERTED, -1, -1)
    ensures items == R.ViewAt(BaseDoc(count), v)
  {
    var doc := BaseDoc(count);
    forall i | 0 <= i < count
      ensures items[i] == R.ItemAt(doc.targets, v, doc.order[i])
    {
      assert R.DeletesOf(doc.targets, v, doc.order[i].opId) == {};
    }
  }

  /** The context holds exactly the first `count` placeholders. */
  ghost predicate HasPlaceholders(ctx: E.Context, count: nat)
    reads ctx, ctx.items
  {
    && ctx.Valid() && |ctx.items| == count
    && (forall k | 0 <= k < count :: ctx.items[k].Value() == Items.Item(PLACEHOLDER_BASE + k, Items.INSERTED, Items.INSERTED, -1, -1))
  }

  method PushPlaceholder(ctx: E.Context, i: nat)
    requires HasPlaceholders(ctx, i)
    modifies ctx`items, ctx`itemsByLV
    ensures HasPlaceholders(ctx, i + 1)
    ensures forall r | r in ctx.items :: r in old(ctx.items) || fresh(r)
  {
    hide E.Values;
    var item := new E.ItemRef(PLACEHOLDER_BASE + i, -1, -1);
    ctx.AddItem(item, |ctx.items|);
  }

  /** Fills an empty context with placeholders for the document at the base. */
  method AddPlaceholders(ctx: E.Context, count: nat, ghost v: set<nat>)
    requires ctx.Valid() && ctx.items == []
    requires ctx.delTargets == map[]
    modifies ctx`items, ctx`itemsByLV
    ensures Shows(ctx, BaseDoc(count), v)
    ensures fresh(ctx.items)
  {
    hide HasPlaceholders, E.Values, R.ViewAt, BaseDoc;
    assert HasPlaceholders(ctx, 0) by { NoPlaceholders(ctx); }
    for i := 0 to count
      invariant HasPlaceholders(ctx, i) && (forall r | r in ctx.items :: fresh(r)) && ctx.delTargets == map[]
    {
      PushPlaceholder(ctx, i);
    }
    forall k | 0 <= k < |ctx.items|
      ensures fresh(ctx.items[k])
    {
      assert ctx.items[k] in ctx.items;
    }
    PlaceholdersShow(ctx, count, v);
  }

  lemma {:induction false} NoPlaceholders(ctx: E.Context)
    requires ctx.Valid() && ctx.items == []
    ensures HasPlaceholders(ctx, 0)
  {
  }

  lemma {:induction false} PlaceholdersShow(ctx: E.Context, count: nat, v: set<nat>)
    requires HasPlaceholders(ctx, count) && ctx.delTargets == map[]
    ensures Shows(ctx, BaseDoc(count), v)
  {
    BaseView(count, v, E.Values(ctx.items));
  }

  lemma {:induction false} BaseReplayed<T>(log: Log<T>, base: set<nat>, count: nat)
    requires ValidLog(log) && Closed(log.g, base) && forall x | x in base :: x < |log.g|
    ensures R.Replayed(log, base, {}, BaseDoc(count))
  {
    assert base + {} == base;
  }

  /** The ranges between those listed hold no members. */
  lemma {:induction false} OutsideRanges(rs: seq<LVRange>, s: set<nat>, i: nat, n: nat)
    requires Ascending(rs) && i <= |rs| && forall x: nat :: InRanges(rs, x) <==> x in s
    requires forall x | x in s :: x < n
    ensures GapStart(rs, i) <= GapEnd(rs, i, n) <= n
    ensures forall x | GapStart(rs, i) <= x < GapEnd(rs, i, n) :: x !in s
    ensures i < |rs| ==> rs[i].end <= n && forall x | rs[i].start <= x < rs[i].end :: x in s
  {
    forall x: nat | x in s
      ensures x < GapStart(rs, i) <==> x < GapEnd(rs, i, n)
    {
      assert InRanges(rs, x);
      var j :| 0 <= j < |rs| && rs[j].start <= x < rs[j].end;
      if j + 1 < i { assert rs[j].end < rs[i - 1].start; }
      if i < j { assert rs[i].end < rs[j].start; }
    }
    if i < |rs| {
      forall x: nat | rs[i].start <= x < rs[i].end
        ensures x in s
      {
        assert InRanges(rs, x);
      }
      assert rs[i].end - 1 in s;
    }
    if 0 < i {
      assert InRanges(rs, rs[i - 1].end - 1);
    }
  }

  ghost predicate AboveSet<T>(log: Log<T>, base: set<nat>, s: set<nat>)
    requires ValidLog(log)
  {
    forall x | x in s && x < |log.g| :: InGraph(log.g, log.g[x]) && base <= Hist(log.g, log.g[x])
  }

  /** Walks over the listed ranges in order. */
  method TraverseRanges<T>(ctx: E.Context, es: seq<CGEntry>, ops: seq<ListOp<T>>, snapshot0: Option<seq<T>>, rs: seq<LVRange>,
                           ghost log: Log<T>, ghost base: set<nat>, ghost done: set<nat>, ghost doc: R.Doc, ghost text: seq<T>, ghost s: set<nat>)
    returns (ok: bool, snapshot: Option<seq<T>>)
    requires ValidEntries(es) && log.g == Expand(es) && log.ids == RawIds(es) && log.ops == ops && ValidLog(log)
    requires Ascending(rs) && forall x: nat :: InRanges(rs, x) <==> x in s
    requires (forall x | x in s :: x < |log.g|) && ReadySet(log, base, done, s) && AboveSet(log, base, s)
    requires Standing(ctx, log, base, done, doc) && Holds(snapshot0, text)
    modifies ctx, ctx.items
    ensures forall r | r in ctx.items :: r in old(ctx.items) || fresh(r)
    ensures ok == ReplaySet(log, doc, text, s, |log.g|).Some?
    ensures ok ==>
              var out := ReplaySet(log, doc, text, s, |log.g|).value;
              && Standing(ctx, log, base, done + s, out.doc)
              && Holds(snapshot, out.text) && snapshot.Some? == snapshot0.Some?
  {
    hide Standing, Expand, RawIds, ReplayRange, ValidEntries, Ready, ReadySet, AboveSet, ReplaySet, Ascending, InRanges, ValidLog, AboveBase;
    ghost var n := |log.g|;
    ok, snapshot := true, snapshot0;
    ghost var out := Outcome(doc, text);
    NoneBelow(log, doc, text, done, s);
    OutsideRanges(rs, s, 0, n);
    var i: nat := 0;
    while i < |rs|
      invariant i <= |rs| && GapStart(rs, i) <= n
      invariant ReplaySet(log, doc, text, s, GapStart(rs, i)) == Some(out)
      invariant Holds(snapshot, out.text) && snapshot.Some? == snapshot0.Some?
      invariant Standing(ctx, log, base, done + Below(s, GapStart(rs, i)), out.doc)
      invariant forall r | r in ctx.items :: r in old(ctx.items) || fresh(r)
    {
      var start, end := rs[i].start, rs[i].end;
      NextRange(log, base, done, doc, text, s, rs, i);
      assert forall k | 0 <= k < |ctx.items| :: ctx.items[k] in old(ctx.items) || fresh(ctx.items[k]);
      ok, snapshot := TraverseAndApply(ctx, es, ops, snapshot, start, end, log, base, done + Below(s, start), out.doc, out.text);
      if !ok {
        SetStays(log, doc, text, s, end, n);
        return;
      }
      out := ReplayRange(log, out.doc, out.text, start, end).value;
      i := i + 1;
    }
    OutsideRanges(rs, s, |rs|, n);
    SetGap(log, doc, text, s, GapStart(rs, |rs|), n);
    assert done + Below(s, GapStart(rs, |rs|)) == done + s;
  }

  lemma {:induction false} NoneBelow<T>(log: Log<T>, doc: R.Doc, text: seq<T>, done: set<nat>, s: set<nat>)
    requires ValidLog(log)
    ensures done + Below(s, 0) == done && ReplaySet(log, doc, text, s, 0) == Some(Outcome(doc, text))
  {
  }

  /** The next range is ready to be replayed, and replaying it is the next part of the set. */
  lemma {:induction false} NextRange<T>(log: Log<T>, base: set<nat>, done: set<nat>, doc: R.Doc, text: seq<T>, s: set<nat>, rs: seq<LVRange>, i: nat)
    requires ValidLog(log) && Ascending(rs) && i < |rs| && forall x: nat :: InRanges(rs, x) <==> x in s
    requires (forall x | x in s :: x < |log.g|) && ReadySet(log, base, done, s) && AboveSet(log, base, s)
    ensures GapStart(rs, i) <= rs[i].start < rs[i].end <= |log.g|
    ensures Ready(log, base, done + Below(s, rs[i].start), rs[i].start, rs[i].end) && AboveBase(log, base, rs[i].start, rs[i].end)
    ensures done + Below(s, GapStart(rs, i)) == done + Below(s, rs[i].start)
    ensures done + Below(s, rs[i].start) + Range(rs[i].start, rs[i].end) == done + Below(s, rs[i].end)
    ensures ReplaySet(log, doc, text, s, rs[i].end) ==
            match ReplaySet(log, doc, text, s, GapStart(rs, i))
            case None => None
            case Some(out) => ReplayRange(log, out.doc, out.text, rs[i].start, rs[i].end)
  {
    hide ReplayRange, Ready, ReadySet, InRanges, ReplaySet;
    OutsideRanges(rs, s, i, |log.g|);
    SetGap(log, doc, text, s, GapStart(rs, i), rs[i].start);
    SetRun(log, doc, text, s, rs[i].start, rs[i].end);
    ReadyRun(log, base, done, s, rs[i].start, rs[i].end);
    BelowRun(s, rs[i].start, rs[i].end);
    assert Below(s, GapStart(rs, i)) == Below(s, rs[i].start);
  }

  /** What `findConflicting` visited is the conflicting and the incoming operations. */
  lemma {:induction false} SplitMeans(g: Graph, version: seq<nat>, mergeVersion: seq<nat>, base: seq<nat>, visits: seq<C.Visit>)
    requires WellFormed(g) && InGraph(g, version) && InGraph(g, mergeVersion)
    requires C.SplitAt(g, version, mergeVersion, base, visits)
    ensures InGraph(g, base) && IsMergeBase(g, version, mergeVersion, base)
    ensures forall x: nat :: C.VisitedAs(visits, x, B) <==> x in Incoming(g, version, mergeVersion)
    ensures forall x: nat :: C.VisitedAs(visits, x, A) || C.VisitedAs(visits, x, Shared) <==> x in Conflict(g, version, base)
  {
    hide InHist, C.VisitedAs;
    forall x: nat
      ensures InHist(g, version, x) <==> x in Hist(g, version)
      ensures InHist(g, mergeVersion, x) <==> x in Hist(g, mergeVersion)
      ensures InHist(g, base, x) <==> x in Hist(g, base)
    {
      if InHist(g, version, x) { InHistBound(g, version, x); }
      if InHist(g, mergeVersion, x) { InHistBound(g, mergeVersion, x); }
      if InHist(g, base, x) { InHistBound(g, base, x); }
    }
    forall x | x in Hist(g, version) + Hist(g, mergeVersion) && x !in Hist(g, base)
      ensures InGraph(g, g[x]) && Hist(g, base) <= Hist(g, g[x])
    {
      assert C.VisitedAs(visits, x, A) || C.VisitedAs(visits, x, B) || C.VisitedAs(visits, x, Shared);
      assert C.Visited(visits, x);
      assert C.SubHist(g, base, g[x]);
    }
  }

  /** Both parts of the merge can be replayed on the base, the conflict first. */
  lemma {:induction false} MergeReady<T>(log: Log<T>, version: seq<nat>, mergeVersion: seq<nat>, base: seq<nat>)
    requires ValidLog(log) && InGraph(log.g, version) && InGraph(log.g, mergeVersion)
    requires IsMergeBase(log.g, version, mergeVersion, base)
    ensures var b, c, n := Hist(log.g, base), Conflict(log.g, version, base), Incoming(log.g, version, mergeVersion);
            && ReadySet(log, b, {}, c) && ReadySet(log, b, {} + c, n) && AboveSet(log, b, c) && AboveSet(log, b, n)
            && (forall x | x in c :: x < |log.g|) && (forall x | x in n :: x < |log.g|)
            && R.Replayed(log, b, {}, BaseDoc(PlaceholderCount(version)))
            && c + n == Hist(log.g, version) + Hist(log.g, mergeVersion) - b
  {
    hide InHist;
    HistClosed(log.g, base);
    HistClosed(log.g, version);
    HistClosed(log.g, mergeVersion);
    BaseReplayed(log, Hist(log.g, base), PlaceholderCount(version));
  }

  /** Brings the changes of `mergeVersion` into the branch; it fails exactly where the source throws. */
  method MergeChangesIntoBranch<T>(branch: Branch<T>, es: seq<CGEntry>, ops: seq<ListOp<T>>, mergeVersion: seq<nat>)
    returns (ok: bool, ghost base: seq<nat>)
    requires ValidEntries(es) && |ops| == NextLV(es) <= PLACEHOLDER_BASE && WellFormed(Expand(es))
    requires InGraph(Expand(es), branch.version) && InGraph(Expand(es), mergeVersion)
    modifies branch
    ensures ValidLog(LogOf(es, ops)) && IsMergeBase(Expand(es), old(branch.version), mergeVersion, base)
    ensures C.Highest(Expand(es), old(branch.version), mergeVersion, base)
    ensures ok == MergeOf(LogOf(es, ops), old(branch.version), mergeVersion, base, old(branch.snapshot)).Some?
    ensures ok ==>
              && branch.snapshot == MergeOf(LogOf(es, ops), old(branch.version), mergeVersion, base, old(branch.snapshot)).value.text
              && Dominators.IsFrontier(Expand(es), branch.version)
              && Hist(Expand(es), branch.version) == Hist(Expand(es), old(branch.version)) + Hist(Expand(es), mergeVersion)
  {
    hide Expand, RawIds, ReplayRange, ReplaySet, ReadySet, AboveSet, ValidEntries, ValidLog, Standing, Shows, InRanges, Hist, WellFormed, C.VisitedAs, IsMergeBase, Dominators.IsFrontier, C.SplitAt, C.Highest;
    ghost var log, v0 := LogOf(es, ops), branch.version;
    LogOfValid(es, ops);
    var commonAncestor, visits := C.FindConflicting(es, branch.version, mergeVersion);
    base := commonAncestor;
    SplitMeans(log.g, branch.version, mergeVersion, base, visits);
    ConflictVisits(log.g, branch.version, mergeVersion, base, visits);
    var conflictOps, newOps := SplitVisits(visits);
    MergeReady(log, branch.version, mergeVersion, base);
    ghost var b, c, n := Hist(log.g, base), Conflict(log.g, v0, base), Incoming(log.g, v0, mergeVersion);
    var ctx := new E.Context(commonAncestor);
    AddPlaceholders(ctx, PlaceholderCount(branch.version), b);
    BaseStanding(ctx, log, base, PlaceholderCount(v0));
    var nothing;
    ok, nothing := TraverseRanges(ctx, es, ops, None, conflictOps, log, b, {}, BaseDoc(PlaceholderCount(v0)), [], c);
    if !ok { return; }
    ghost var known := ReplaySet(log, BaseDoc(PlaceholderCount(v0)), [], c, |log.g|).value;
    var snapshot;
    forall k | 0 <= k < |ctx.items|
      ensures fresh(ctx.items[k])
    {
      assert ctx.items[k] in ctx.items;
    }
    ok, snapshot := TraverseRanges(ctx, es, ops, Some(branch.snapshot), newOps, log, b, {} + c, known.doc, branch.snapshot, n);
    if !ok { return; }
    HistJoin(log.g, branch.version, mergeVersion);
    branch.snapshot := snapshot.value;
    branch.version := Dominators.FindDominators(es, branch.version + mergeVersion);
  }

  lemma {:induction false} ConflictVisits(g: Graph, a: seq<nat>, b: seq<nat>, base: seq<nat>, visits: seq<C.Visit>)
    requires WellFormed(g) && InGraph(g, a) && InGraph(g, b) && C.SplitAt(g, a, b, base, visits)
    ensures C.VisitsDescend(visits)
  {
  }

  lemma {:induction false} BaseStanding<T>(ctx: E.Context, log: Log<T>, base: seq<nat>, count: nat)
    requires ValidLog(log) && InGraph(log.g, base) && ctx.curVersion == base
    requires Shows(ctx, BaseDoc(count), Hist(log.g, base)) && R.Replayed(log, Hist(log.g, base), {}, BaseDoc(count))
    ensures Standing(ctx, log, Hist(log.g, base), {}, BaseDoc(count))
  {
  }
}
