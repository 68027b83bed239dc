/** The walk of `traverseAndApply` and the whole of `checkout`: a context that is moved from
    version to version, edited in place, and refines the replay of ReplayRun. */
module Traverse {
  import opened Dag
  import opened RleGraph
  import opened Ranges
  import opened ListLog
  import opened ReplayRun
  import opened EditContext
  import R = Replay
  import I = Intent
  import D = Diff

  // ---- The versions passed on the way from `a` to `b` ----

  /** What is left of `a` once everything outside `b` from `t` up has been dropped. */
  ghost function Kept(a: set<nat>, b: set<nat>, t: nat): set<nat> {
    set x | x in a && (x in b || x < t)
  }

  lemma {:induction false} KeptClosed(g: Graph, a: set<nat>, b: set<nat>, t: nat)
    requires WellFormed(g) && Closed(g, a) && Closed(g, b)
    ensures Closed(g, Kept(a, b, t))
  {
  }

  lemma {:induction false} KeptEnds(a: set<nat>, b: set<nat>, n: nat)
    requires forall x | x in a :: x < n
    ensures Kept(a, b, n) == a && Kept(a, b, 0) == a * b
  {
  }

  lemma {:induction false} KeptStep(a: set<nat>, b: set<nat>, t: nat)
    requires t in a && t !in b
    ensures t in Kept(a, b, t + 1) && t !in Kept(a, b, t)
    ensures Kept(a, b, t) == Kept(a, b, t + 1) - {t} && Kept(a, b, t + 1) == Kept(a, b, t) + {t}
  {
  }

  ghost function GapStart(rs: seq<LVRange>, i: nat): nat
    requires i <= |rs|
  {
    if i == 0 then 0 else rs[i - 1].end
  }

  ghost function GapEnd(rs: seq<LVRange>, i: nat, n: nat): nat
    requires i <= |rs|
  {
    if i == |rs| then n else rs[i].start
  }

  /** Nothing is dropped between two ranges. */
  lemma {:induction false} KeptGap(a: set<nat>, b: set<nat>, rs: seq<LVRange>, i: nat, n: nat)
    requires Ascending(rs) && i <= |rs| && forall x: nat :: InRanges(rs, x) <==> x in a && x !in b
    requires forall x | x in a :: x < n
    ensures Kept(a, b, GapStart(rs, i)) == Kept(a, b, GapEnd(rs, i, n))
  {
    forall x: nat | x in a && x !in b
      ensures x < GapStart(rs, i) <==> x < GapEnd(rs, i, n)
    {
      assert InRanges(rs, x);
      var j :| 0 <= j < |rs| && rs[j].start <= x < rs[j].end;
      if j + 1 < i { assert rs[j].end < rs[i - 1].start; }
      if i < j { assert rs[i].end < rs[j].start; }
    }
  }

  // ---- Moving the context ----

  /** The context shows `doc` as it is at the version with history `v`. */
  ghost predicate Shows(ctx: Context, doc: R.Doc, v: set<nat>)
    reads ctx, ctx.items
  {
    ctx.Valid() && ctx.View() == R.Ctx(R.ViewAt(doc, v), doc.targets)
  }

  method RetreatOne<T>(ctx: Context, ops: seq<ListOp<T>>, lv: nat, ghost log: Log<T>, ghost base: set<nat>, ghost done: set<nat>, ghost doc: R.Doc, ghost v: set<nat>)
    requires R.Replayed(log, base, done, doc) && log.ops == ops && Shows(ctx, doc, v)
    requires v <= base + done && Closed(log.g, v) && Closed(log.g, v - {lv}) && lv in done && lv in v
    modifies ctx.items
    ensures Shows(ctx, doc, v - {lv})
  {
    hide R.ViewAt, R.Replayed, R.Retreat1, Closed;
    R.RetreatStep(log, base, done, doc, v, lv);
    var ok := ctx.Retreat1(ops, lv, log);
    assert ok;
  }

  method AdvanceOne<T>(ctx: Context, ops: seq<ListOp<T>>, lv: nat, ghost log: Log<T>, ghost base: set<nat>, ghost done: set<nat>, ghost doc: R.Doc, ghost v: set<nat>)
    requires R.Replayed(log, base, done, doc) && log.ops == ops && Shows(ctx, doc, v)
    requires v <= base + done && Closed(log.g, v) && lv < |log.g| && lv in done && lv !in v && forall p | p in log.g[lv] :: p in v
    modifies ctx.items
    ensures Shows(ctx, doc, v + {lv})
  {
    hide R.ViewAt, R.Replayed, R.Advance1, Closed;
    R.AdvanceStep(log, base, done, doc, v, lv);
    var ok := ctx.Advance1(ops, lv, log);
    assert ok;
  }

  /** Leaves everything outside `b`, latest operation first; no assertion of the source can fail. */
  method RetreatAll<T>(ctx: Context, ops: seq<ListOp<T>>, ranges: seq<LVRange>,
                       ghost log: Log<T>, ghost base: set<nat>, ghost done: set<nat>, ghost doc: R.Doc, ghost a: set<nat>, ghost b: set<nat>)
    requires R.Replayed(log, base, done, doc) && log.ops == ops && Shows(ctx, doc, a)
    requires WellFormed(log.g) && Closed(log.g, a) && Closed(log.g, b) && a <= base + done && base <= b
    requires forall x | x in base + done :: x < |log.g|
    requires Ascending(ranges) && forall x: nat :: InRanges(ranges, x) <==> x in a && x !in b
    modifies ctx.items
    ensures Shows(ctx, doc, a * b)
  {
    hide Shows, R.Replayed, Closed, Kept, WellFormed;
    ghost var n := |log.g|;
    KeptEnds(a, b, n);
    var i: nat := |ranges|;
    while i > 0
      invariant i <= |ranges| && Shows(ctx, doc, Kept(a, b, GapEnd(ranges, i, n)))
    {
      KeptGap(a, b, ranges, i, n);
      i := i - 1;
      var lv := ranges[i].end;
      while lv > ranges[i].start
        invariant ranges[i].start <= lv <= ranges[i].end && Shows(ctx, doc, Kept(a, b, lv))
      {
        lv := lv - 1;
        assert InRanges(ranges, lv);
        KeptStep(a, b, lv);
        KeptClosed(log.g, a, b, lv);
        KeptClosed(log.g, a, b, lv + 1);
        KeptInside(a, b, lv + 1);
        RetreatOne(ctx, ops, lv, log, base, done, doc, Kept(a, b, lv + 1));
      }
    }
    KeptGap(a, b, ranges, 0, n);
  }

  lemma {:induction false} KeptInside(a: set<nat>, b: set<nat>, t: nat)
    ensures Kept(a, b, t) <= a
  {
  }

  /** Re-enters everything of `b` that is missing, earliest operation first. */
  method AdvanceAll<T>(ctx: Context, ops: seq<ListOp<T>>, ranges: seq<LVRange>,
                       ghost log: Log<T>, ghost base: set<nat>, ghost done: set<nat>, ghost doc: R.Doc, ghost a: set<nat>, ghost b: set<nat>)
    requires R.Replayed(log, base, done, doc) && log.ops == ops && Shows(ctx, doc, b * a)
    requires WellFormed(log.g) && Closed(log.g, a) && Closed(log.g, b) && b <= base + done && base <= a
    requires forall x | x in base + done :: x < |log.g|
    requires Ascending(ranges) && forall x: nat :: InRanges(ranges, x) <==> x in b && x !in a
    modifies ctx.items
    ensures Shows(ctx, doc, b)
  {
    hide Shows, R.Replayed, Closed, Kept, WellFormed;
    ghost var n := |log.g|;
    KeptEnds(b, a, n);
    KeptGap(b, a, ranges, 0, n);
    var i: nat := 0;
    while i < |ranges|
      invariant i <= |ranges| && Shows(ctx, doc, Kept(b, a, GapEnd(ranges, i, n)))
    {
      var lv := ranges[i].start;
      while lv < ranges[i].end
        invariant ranges[i].start <= lv <= ranges[i].end && Shows(ctx, doc, Kept(b, a, lv))
      {
        assert InRanges(ranges, lv);
        KeptStep(b, a, lv);
        KeptClosed(log.g, a, b, lv);
        KeptParents(log.g, b, a, lv);
        KeptInside(b, a, lv);
        AdvanceOne(ctx, ops, lv, log, base, done, doc, Kept(b, a, lv));
        lv := lv + 1;
      }
      i := i + 1;
      KeptGap(b, a, ranges, i, n);
    }
  }

  lemma {:induction false} KeptParents(g: Graph, a: set<nat>, b: set<nat>, t: nat)
    requires WellFormed(g) && Closed(g, a) && Closed(g, b) && t in a && t < |g|
    ensures Closed(g, Kept(a, b, t))
    ensures forall p | p in g[t] :: p in Kept(a, b, t)
  {
  }

  // ---- Applying ----

  /** The snapshot, when there is one, is `text`. */
  ghost predicate Holds<T>(snapshot: Option<seq<T>>, text: seq<T>) {
    snapshot.Some? ==> snapshot.value == text
  }

  /** Replaying up to a middle point and then on from there is replaying the whole range. */
  lemma {:induction false} ReplaySplit<T>(log: Log<T>, doc: R.Doc, text: seq<T>, from: nat, mid: nat, upTo: nat)
    requires ValidLog(log) && from <= mid <= upTo <= |log.g|
    ensures ReplayRange(log, doc, text, from, upTo) ==
            match ReplayRange(log, doc, text, from, mid)
            case None => None
            case Some(out) => ReplayRange(log, out.doc, out.text, mid, upTo)
    decreases upTo
  {
    hide R.DocApply, ValidLog;
    if mid < upTo {
      ReplaySplit(log, doc, text, from, mid, upTo - 1);
    }
  }

  /** One operation of the log replayed at its parents, in terms of plain values. */
  lemma {:induction false} ReplayNext<T>(log: Log<T>, doc: R.Doc, text: seq<T>, lv: nat)
    requires ValidLog(log) && lv < |log.g|
    ensures InGraph(log.g, log.g[lv])
    ensures ReplayRange(log, doc, text, lv, lv + 1) ==
            match R.DocApply(log, doc, lv)
            case None => None
            case Some(step) => Some(Outcome(step.0, I.Spliced(text, step.1)))
  {
    hide R.DocApply;
    HistOne(log.g, lv);
    assert ReplayRange(log, doc, text, lv, lv) == Some(Outcome(doc, text));
  }

  /** What applying an operation at its parents does to the items and to the document. */
  lemma {:induction false} ApplyNext<T>(log: Log<T>, base: set<nat>, done: set<nat>, doc: R.Doc, lv: nat)
    requires ValidLog(log) && R.Replayed(log, base, done, doc) && lv < |log.g| && lv !in base + done
    requires InGraph(log.g, log.g[lv]) && forall p | p in log.g[lv] :: p in base + done
    ensures var v := Hist(log.g, log.g[lv]);
            var applied := R.Apply1(log, R.Ctx(R.ViewAt(doc, v), doc.targets), lv);
            && applied.Some? == R.DocApply(log, doc, lv).Some?
            && (applied.Some? ==>
                  var (doc', edit) := R.DocApply(log, doc, lv).value;
                  && applied.value == R.Applied(R.Ctx(R.ViewAt(doc', v + {lv}), doc'.targets), edit)
                  && R.Replayed(log, base, done + {lv}, doc'))
    ensures Hist(log.g, [lv]) == Hist(log.g, log.g[lv]) + {lv}
  {
    hide R.Apply1, R.ViewAt, R.Replayed, Hist;
    HistOne(log.g, lv);
    if R.DocApply(log, doc, lv).Some? {
      StepKeeps(log, base, done, doc, lv);
    }
  }

  /** No replayed item carries the ID of an operation still to come. */
  lemma {:induction false} NotYetIndexed<T>(ctx: Context, log: Log<T>, base: set<nat>, done: set<nat>, doc: R.Doc, v: set<nat>, lv: nat)
    requires R.Replayed(log, base, done, doc) && Shows(ctx, doc, v) && lv < |log.g| && lv !in done
    ensures lv !in ctx.itemsByLV
  {
    ctx.IndexFinds(lv);
    forall i | 0 <= i < |doc.order|
      ensures R.ViewAt(doc, v)[i].opId != lv
    {
    }
  }

  method ApplyOne<T>(ctx: Context, es: seq<CGEntry>, ops: seq<ListOp<T>>, snapshot0: Option<seq<T>>, lv: nat,
                     ghost log: Log<T>, ghost base: set<nat>, ghost done: set<nat>, ghost doc: R.Doc, ghost text: seq<T>)
    returns (ok: bool, snapshot: Option<seq<T>>)
    requires ValidEntries(es) && log.g == Expand(es) && log.ids == RawIds(es) && log.ops == ops
    requires ValidLog(log) && R.Replayed(log, base, done, doc) && lv < |log.g| && lv !in base + done
    requires InGraph(log.g, log.g[lv]) && forall p | p in log.g[lv] :: p in base + done
    requires Shows(ctx, doc, Hist(log.g, log.g[lv])) && Holds(snapshot0, text)
    modifies ctx`items, ctx`itemsByLV, ctx`delTargets, ctx.items
    ensures forall r | r in ctx.items :: r in old(ctx.items) || fresh(r)
    ensures ok == ReplayRange(log, doc, text, lv, lv + 1).Some?
    ensures ok ==>
              var out := ReplayRange(log, doc, text, lv, lv + 1).value;
              && Shows(ctx, out.doc, Hist(log.g, [lv])) && R.Replayed(log, base, done + {lv}, out.doc)
              && Holds(snapshot, out.text) && snapshot.Some? == snapshot0.Some?
  {
    hide R.Apply1, R.ViewAt, R.Replayed, R.DocApply, Hist, Expand, RawIds, ReplayRange;
    ApplyNext(log, base, done, doc, lv);
    ReplayNext(log, doc, text, lv);
    NotYetIndexed(ctx, log, base, done, doc, Hist(log.g, log.g[lv]), lv);
    ok, snapshot := ctx.Apply1(es, ops, lv, snapshot0, log);
  }

  /** Consumes one run of operations, each of which has the one before as its only parent. */
  method ApplyRun<T>(ctx: Context, es: seq<CGEntry>, ops: seq<ListOp<T>>, snapshot0: Option<seq<T>>, start: nat, end: nat,
                     ghost log: Log<T>, ghost base: set<nat>, ghost done: set<nat>, ghost doc: R.Doc, ghost text: seq<T>)
    returns (ok: bool, snapshot: Option<seq<T>>)
    requires ValidEntries(es) && log.g == Expand(es) && log.ids == RawIds(es) && log.ops == ops
    requires ValidLog(log) && R.Replayed(log, base, done, doc) && Ready(log, base, done, start, end) && start < end <= |log.g|
    requires forall v | start < v < end :: log.g[v] == [v - 1]
    requires InGraph(log.g, log.g[start]) && Shows(ctx, doc, Hist(log.g, log.g[start])) && Holds(snapshot0, text)
    modifies ctx`items, ctx`itemsByLV, ctx`delTargets, ctx.items
    ensures forall r | r in ctx.items :: r in old(ctx.items) || fresh(r)
    ensures ok == ReplayRange(log, doc, text, start, end).Some?
    ensures ok ==>
              var out := ReplayRange(log, doc, text, start, end).value;
              && Shows(ctx, out.doc, Hist(log.g, [end - 1])) && R.Replayed(log, base, done + Range(start, end), out.doc)
              && Holds(snapshot, out.text) && snapshot.Some? == snapshot0.Some?
  {
    hide Shows, R.Replayed, Hist, Expand, RawIds, ReplayRange, Ready, ValidEntries;
    ok, snapshot := true, snapshot0;
    var lv := start;
    ghost var out := Outcome(doc, text);
    NothingReplayed(log, doc, text, start);
    assert done + Range(start, start) == done;
    while lv < end
      invariant start <= lv <= end <= |log.g|
      invariant ReplayRange(log, doc, text, start, lv) == Some(out)
      invariant Holds(snapshot, out.text) && snapshot.Some? == snapshot0.Some?
      invariant R.Replayed(log, base, done + Range(start, lv), out.doc)
      invariant InGraph(log.g, if lv == start then log.g[start] else [lv - 1])
      invariant Shows(ctx, out.doc, Hist(log.g, if lv == start then log.g[start] else [lv - 1]))
      invariant forall r | r in ctx.items :: r in old(ctx.items) || fresh(r)
    {
      ReadyAt(log, base, done, start, lv, end);
      ReplaySplit(log, doc, text, start, lv, lv + 1);
      ReplaySplit(log, doc, text, start, lv + 1, end);
      assert forall i | 0 <= i < |ctx.items| :: ctx.items[i] in old(ctx.items) || fresh(ctx.items[i]);
      ok, snapshot := ApplyOne(ctx, es, ops, snapshot, lv, log, base, done + Range(start, lv), out.doc, out.text);
      if !ok { return; }
      out := ReplayRange(log, doc, text, start, lv + 1).value;
      lv := lv + 1;
    }
  }

  lemma {:induction false} NothingReplayed<T>(log: Log<T>, doc: R.Doc, text: seq<T>, from: nat)
    requires ValidLog(log) && from <= |log.g|
    ensures ReplayRange(log, doc, text, from, from) == Some(Outcome(doc, text))
  {
  }

  /** Part of a range that is ready is ready, and the rest is once that part has been replayed. */
  lemma {:induction false} ReadySplit<T>(log: Log<T>, base: set<nat>, done: set<nat>, from: nat, mid: nat, upTo: nat)
    requires ValidLog(log) && Ready(log, base, done, from, upTo) && from <= mid <= upTo
    ensures Ready(log, base, done, from, mid) && Ready(log, base, done + Range(from, mid), mid, upTo)
  {
    forall lv | mid <= lv < upTo
      ensures lv !in base + (done + Range(from, mid))
    {
      assert lv !in base + done;
    }
    forall lv, p | mid <= lv < upTo && p in log.g[lv]
      ensures p in base + (done + Range(from, mid)) || mid <= p < lv
    {
      assert p in base + done || from <= p < lv;
    }
  }

  lemma {:induction false} ReadyAt<T>(log: Log<T>, base: set<nat>, done: set<nat>, from: nat, lv: nat, upTo: nat)
    requires ValidLog(log) && Ready(log, base, done, from, upTo) && from <= lv < upTo
    ensures lv < |log.g| && InGraph(log.g, log.g[lv]) && lv !in base + (done + Range(from, lv))
    ensures forall p | p in log.g[lv] :: p in base + (done + Range(from, lv))
    ensures done + Range(from, lv + 1) == done + Range(from, lv) + {lv}
  {
    hide Range;
    ReadySplit(log, base, done, from, lv + 1, upTo);
    ReadyLast(log, base, done, from, lv + 1);
  }

  // ---- Walking ----

  /** The context is at a version made of replayed operations, above the base. */
  ghost predicate Standing<T>(ctx: Context, log: Log<T>, base: set<nat>, done: set<nat>, doc: R.Doc)
    reads ctx, ctx.items
  {
    && R.Replayed(log, base, done, doc) && ValidLog(log)
    && InGraph(log.g, ctx.curVersion)
    && Shows(ctx, doc, Hist(log.g, ctx.curVersion))
    && base <= Hist(log.g, ctx.curVersion) <= base + done
  }

  /** Takes the context from the current version to the parents of `entry`. */
  method MoveTo<T>(ctx: Context, es: seq<CGEntry>, ops: seq<ListOp<T>>, parents: seq<nat>,
                   ghost log: Log<T>, ghost base: set<nat>, ghost done: set<nat>, ghost doc: R.Doc)
    requires ValidEntries(es) && log.g == Expand(es) && log.ops == ops && ValidLog(log)
    requires Standing(ctx, log, base, done, doc)
    requires InGraph(log.g, parents) && base <= Hist(log.g, parents) <= base + done
    modifies ctx.items
    ensures Shows(ctx, doc, Hist(log.g, parents))
  {
    hide Shows, Hist, Expand, ValidEntries, Closed, Ascending, InRanges;
    ghost var g, a, b := log.g, Hist(log.g, ctx.curVersion), Hist(log.g, parents);
    HistClosed(g, ctx.curVersion);
    HistClosed(g, parents);
    var aOnly, bOnly := D.Diff(es, ctx.curVersion, parents);
    DiffIsHist(g, ctx.curVersion, parents, aOnly);
    DiffIsHist(g, parents, ctx.curVersion, bOnly);
    RetreatAll(ctx, ops, aOnly, log, base, done, doc, a, b);
    assert a * b == b * a;
    AdvanceAll(ctx, ops, bOnly, log, base, done, doc, a, b);
  }

  lemma {:induction false} DiffIsHist(g: Graph, a: seq<nat>, b: seq<nat>, rs: seq<LVRange>)
    requires WellFormed(g) && InGraph(g, a) && InGraph(g, b)
    requires forall x: nat :: InRanges(rs, x) <==> InHist(g, a, x) && !InHist(g, b, x)
    ensures forall x: nat :: InRanges(rs, x) <==> x in Hist(g, a) && x !in Hist(g, b)
  {
    forall x: nat
      ensures InHist(g, a, x) <==> x in Hist(g, a)
      ensures InHist(g, b, x) <==> x in Hist(g, b)
    {
      if InHist(g, a, x) { InHistBound(g, a, x); }
      if InHist(g, b, x) { InHistBound(g, b, x); }
    }
  }

  /** Every version of the range was written on top of the whole base. */
  ghost predicate AboveBase<T>(log: Log<T>, base: set<nat>, from: nat, upTo: nat)
    requires ValidLog(log) && upTo <= |log.g|
  {
    forall lv | from <= lv < upTo :: InGraph(log.g, log.g[lv]) && base <= Hist(log.g, log.g[lv])
  }

  lemma {:induction false} RunHist(g: Graph, start: nat, v: nat)
    requires WellFormed(g) && start <= v < |g| && InGraph(g, g[start])
    requires forall w | start < w <= v :: g[w] == [w - 1]
    ensures Hist(g, g[start]) <= Hist(g, [v])
    decreases v
  {
    HistOne(g, v);
    if start < v {
      RunHist(g, start, v - 1);
    }
  }

  /** After a run the context stands at its last version. */
  lemma {:induction false} StandsAfter<T>(ctx: Context, log: Log<T>, base: set<nat>, done: set<nat>, doc: R.Doc, start: nat, end: nat)
    requires ValidLog(log) && R.Replayed(log, base, done, doc) && start < end <= |log.g| && end - 1 in done
    requires InGraph(log.g, log.g[start]) && base <= Hist(log.g, log.g[start])
    requires forall v | start < v < end :: log.g[v] == [v - 1]
    requires ctx.curVersion == [end - 1] && Shows(ctx, doc, Hist(log.g, [end - 1]))
    ensures Standing(ctx, log, base, done, doc)
  {
    hide Hist;
    RunHist(log.g, start, end - 1);
    HistLeast(log.g, [end - 1], base + done);
  }

  lemma {:induction false} EntryReady<T>(ctx: Context, es: seq<CGEntry>, entry: CGEntry, log: Log<T>, base: set<nat>, done: set<nat>, doc: R.Doc)
    requires ValidEntries(es) && log.g == Expand(es) && ValidLog(log) && IsSlice(es, entry) && entry.vEnd <= |log.g|
    requires Ready(log, base, done, entry.version, entry.vEnd) && AboveBase(log, base, entry.version, entry.vEnd)
    requires Standing(ctx, log, base, done, doc)
    ensures WellFormed(log.g) && entry.version < entry.vEnd && log.g[entry.version] == entry.parents && InGraph(log.g, entry.parents)
    ensures base <= Hist(log.g, entry.parents) <= base + done && R.Replayed(log, base, done, doc)
    ensures forall v | entry.version < v < entry.vEnd :: log.g[v] == [v - 1]
  {
    hide Shows, Expand, ValidEntries, Hist, LvToRaw, R.OrderMatches, R.TargetsMatch, R.OriginsOrdered;
    ReadyAt(log, base, done, entry.version, entry.version, entry.vEnd);
    HistLeast(log.g, entry.parents, base + done);
  }

  method SetVersion(ctx: Context, version: seq<nat>, ghost doc: R.Doc, ghost v: set<nat>)
    requires Shows(ctx, doc, v)
    modifies ctx`curVersion
    ensures Shows(ctx, doc, v) && ctx.curVersion == version
  {
    ctx.curVersion := version;
  }

  method TraverseEntry<T>(ctx: Context, es: seq<CGEntry>, ops: seq<ListOp<T>>, snapshot0: Option<seq<T>>, entry: CGEntry,
                          ghost log: Log<T>, ghost base: set<nat>, ghost done: set<nat>, ghost doc: R.Doc, ghost text: seq<T>)
    returns (ok: bool, snapshot: Option<seq<T>>)
    requires ValidEntries(es) && log.g == Expand(es) && log.ids == RawIds(es) && log.ops == ops && ValidLog(log)
    requires IsSlice(es, entry) && entry.version < entry.vEnd <= |log.g|
    requires Ready(log, base, done, entry.version, entry.vEnd) && AboveBase(log, base, entry.version, entry.vEnd)
    requires Standing(ctx, log, base, done, doc) && Holds(snapshot0, text)
    modifies ctx, ctx.items
    ensures forall r | r in ctx.items :: r in old(ctx.items) || fresh(r)
    ensures ok == ReplayRange(log, doc, text, entry.version, entry.vEnd).Some?
    ensures ok ==>
              var out := ReplayRange(log, doc, text, entry.version, entry.vEnd).value;
              && Standing(ctx, log, base, done + Range(entry.version, entry.vEnd), out.doc) && ctx.curVersion == [entry.vEnd - 1]
              && Holds(snapshot, out.text) && snapshot.Some? == snapshot0.Some?
  {
    hide Shows, Expand, RawIds, ReplayRange, Hist, ValidEntries, Closed, Ready, AboveBase, IsSlice, Standing, R.Replayed, ValidLog, WellFormed, LvToRaw;
    ghost var start, end := entry.version, entry.vEnd;
    EntryReady(ctx, es, entry, log, base, done, doc);
    MoveTo(ctx, es, ops, entry.parents, log, base, done, doc);
    ok, snapshot := ApplyRun(ctx, es, ops, snapshot0, entry.version, entry.vEnd, log, base, done, doc, text);
    if ok {
      ghost var out := ReplayRange(log, doc, text, start, end).value;
      SetVersion(ctx, [entry.vEnd - 1], out.doc, Hist(log.g, [end - 1]));
      StandsAfter(ctx, log, base, done + Range(start, end), out.doc, start, end);
    }
  }

  /** Replays the operations from `fromOp` up to `toOp`; it fails exactly where the source throws. */
  method TraverseAndApply<T>(ctx: Context, es: seq<CGEntry>, ops: seq<ListOp<T>>, snapshot0: Option<seq<T>>, fromOp: nat, toOp: nat,
                             ghost log: Log<T>, ghost base: set<nat>, ghost done: set<nat>, ghost doc: R.Doc, ghost text: seq<T>)
    returns (ok: bool, snapshot: Option<seq<T>>)
    requires ValidEntries(es) && log.g == Expand(es) && log.ids == RawIds(es) && log.ops == ops && ValidLog(log)
    requires fromOp <= toOp <= |log.g| && Ready(log, base, done, fromOp, toOp) && AboveBase(log, base, fromOp, toOp)
    requires Standing(ctx, log, base, done, doc) && Holds(snapshot0, text)
    modifies ctx, ctx.items
    ensures forall r | r in ctx.items :: r in old(ctx.items) || fresh(r)
    ensures ok == ReplayRange(log, doc, text, fromOp, toOp).Some?
    ensures ok ==>
              var out := ReplayRange(log, doc, text, fromOp, toOp).value;
              && Standing(ctx, log, base, done + Range(fromOp, toOp), out.doc)
              && ctx.curVersion == (if fromOp == toOp then old(ctx.curVersion) else [toOp - 1])
              && Holds(snapshot, out.text) && snapshot.Some? == snapshot0.Some?
  {
    hide Standing, Expand, RawIds, ReplayRange, Hist, ValidEntries, Ready, IsSlice;
    ExpandLength(es);
    var slices := IterVersionsBetween(es, fromOp, toOp);
    ok, snapshot := true, snapshot0;
    ghost var mid: nat, out := fromOp, Outcome(doc, text);
    NothingReplayed(log, doc, text, fromOp);
    assert done + Range(fromOp, fromOp) == done;
    var i: nat := 0;
    while i < |slices|
      invariant i <= |slices| && fromOp <= mid <= toOp
      invariant mid == if i < |slices| then slices[i].version else toOp
      invariant ReplayRange(log, doc, text, fromOp, mid) == Some(out)
      invariant Holds(snapshot, out.text) && snapshot.Some? == snapshot0.Some?
      invariant Standing(ctx, log, base, done + Range(fromOp, mid), out.doc)
      invariant ctx.curVersion == if fromOp == mid then old(ctx.curVersion) else [mid - 1]
      invariant forall r | r in ctx.items :: r in old(ctx.items) || fresh(r)
    {
      var entry := slices[i];
      SliceBounds(es, entry);
      ReadySplit(log, base, done, fromOp, mid, toOp);
      ReadySplit(log, base, done + Range(fromOp, mid), mid, entry.vEnd, toOp);
      ReplaySplit(log, doc, text, fromOp, mid, entry.vEnd);
      ReplaySplit(log, doc, text, fromOp, entry.vEnd, toOp);
      RangeJoin(done, fromOp, mid, entry.vEnd);
      assert forall k | 0 <= k < |ctx.items| :: ctx.items[k] in old(ctx.items) || fresh(ctx.items[k]);
      ok, snapshot := TraverseEntry(ctx, es, ops, snapshot, entry, log, base, done + Range(fromOp, mid), out.doc, out.text);
      if !ok { return; }
      out := ReplayRange(log, doc, text, fromOp, entry.vEnd).value;
      mid := entry.vEnd;
      i := i + 1;
    }
  }

  lemma {:induction false} SliceBounds(es: seq<CGEntry>, entry: CGEntry)
    requires ValidEntries(es) && IsSlice(es, entry)
    ensures entry.version < entry.vEnd <= |Expand(es)|
  {
  }

  lemma {:induction false} RangeJoin(done: set<nat>, from: nat, mid: nat, upTo: nat)
    requires from <= mid <= upTo
    ensures done + Range(from, mid) + Range(mid, upTo) == done + Range(from, upTo)
  {
    hide Range;
  }

  // ---- Checking out ----

  /** A document at some version, as the application holds it. */
  class Branch<T> {
    var snapshot: seq<T>
    var version: seq<nat>

    constructor (snapshot: seq<T>, version: seq<nat>)
      ensures this.snapshot == snapshot && this.version == version
    {
      this.snapshot, this.version := snapshot, version;
    }
  }

  ghost function LogOf<T>(es: seq<CGEntry>, ops: seq<ListOp<T>>): Log<T>
    requires ValidEntries(es)
  {
    Log(ops, Expand(es), RawIds(es))
  }

  lemma {:induction false} LogOfValid<T>(es: seq<CGEntry>, ops: seq<ListOp<T>>)
    requires ValidEntries(es) && |ops| == NextLV(es) <= PLACEHOLDER_BASE
    ensures ValidLog(LogOf(es, ops))
  {
    ExpandWellFormed(es);
  }

  /** The whole log, replayed into a new document. */
  method Checkout<T>(es: seq<CGEntry>, ops: seq<ListOp<T>>, heads: seq<nat>) returns (ok: bool, branch: Branch<T>)
    requires ValidEntries(es) && |ops| == NextLV(es) <= PLACEHOLDER_BASE
    ensures ValidLog(LogOf(es, ops)) && fresh(branch)
    ensures ok == CheckoutOf(LogOf(es, ops)).Some?
    ensures ok ==> branch.snapshot == CheckoutOf(LogOf(es, ops)).value.text && branch.version == heads
  {
    hide Expand, RawIds, ReplayRange, Ready, ValidEntries, ValidLog;
    ghost var log := LogOf(es, ops);
    LogOfValid(es, ops);
    var ctx := new Context([]);
    EmptyReplayed(log);
    StartStanding(ctx, log);
    var snapshot;
    ok, snapshot := TraverseAndApply(ctx, es, ops, Some([]), 0, |ops|, log, {}, {}, EMPTY_DOC, []);
    branch := new Branch(if ok then snapshot.value else [], heads);
  }

  lemma {:induction false} StartStanding<T>(ctx: Context, log: Log<T>)
    requires ValidLog(log) && ctx.Valid() && ctx.View() == R.Ctx([], map[]) && ctx.curVersion == []
    ensures Standing(ctx, log, {}, {}, EMPTY_DOC)
    ensures AboveBase(log, {}, 0, |log.g|)
  {
    EmptyReplayed(log);
    forall lv | 0 <= lv < |log.g|
      ensures InGraph(log.g, log.g[lv])
    {
      HistOne(log.g, lv);
    }
  }
}
