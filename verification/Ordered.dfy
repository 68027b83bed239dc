/** Histories without concurrency: replay is the fold of plain positional splices. */
module Ordered {
  import opened Dag
  import opened ListLog
  import opened Items
  import opened Replay
  import opened Intent
  import opened ReplayRun

  /** The plain reading of a log: each operation spliced into the text at its own position. */
  ghost function Fold<T>(log: Log<T>, text: seq<T>, from: nat, upTo: nat): seq<T>
    requires from <= upTo <= |log.ops|
    decreases upTo
  {
    if from == upTo then text else Spliced(Fold(log, text, from, upTo - 1), Asked(log.ops[upTo - 1]))
  }

  ghost predicate Fits<T, U>(op: ListOp<T>, text: seq<U>) {
    match op
    case Ins(pos, _) => pos <= |text|
    case Del(pos) => pos < |text|
  }

  ghost predicate FoldInRange<T>(log: Log<T>, text: seq<T>, from: nat, upTo: nat)
    requires from <= upTo <= |log.ops|
    decreases upTo
  {
    from < upTo ==> FoldInRange(log, text, from, upTo - 1) && Fits(log.ops[upTo - 1], Fold(log, text, from, upTo - 1))
  }

  lemma {:induction false} SameVisible(items: seq<Item>)
    requires forall i | 0 <= i < |items| :: items[i].curState == INSERTED <==> items[i].endState == INSERTED
    ensures Visible(items) == EndVisible(items)
  {
    if items != [] {
      SameVisible(items[..|items| - 1]);
    }
  }

  /** At a version that contains everything replayed so far, what is visible is what survives. */
  lemma {:induction false} LatestVisible<T>(log: Log<T>, base: set<nat>, done: set<nat>, doc: Doc, v: set<nat>)
    requires Replayed(log, base, done, doc) && base + done <= v
    ensures Visible(ViewAt(doc, v)) == EndIds(doc)
  {
    hide OriginsOrdered, Closed, DistinctOrder, Hist;
    var items := ViewAt(doc, v);
    forall i | 0 <= i < |items|
      ensures items[i].curState == INSERTED <==> items[i].endState == INSERTED
    {
      var id := doc.order[i].opId;
      var deletes := DeletesOf(doc.targets, v, id);
      if exists d :: d in doc.targets && doc.targets[d] == id {
        var d :| d in doc.targets && doc.targets[d] == id;
        assert d in deletes;
      } else {
        assert deletes == {};
      }
    }
    SameVisible(items);
    EndIdsAt(doc, v);
  }

  lemma {:induction false} SuffixCancel<T>(a: seq<T>, b: seq<T>, rest: seq<T>)
    requires a + rest == b + rest
    ensures a == b
  {
    assert |a| == |b|;
    assert a == (a + rest)[..|a|];
    assert b == (b + rest)[..|b|];
  }

  /** An operation whose author had seen everything replayed so far is a plain splice of the text. */
  lemma {:induction false} OrderedStep<T>(log: Log<T>, base: set<nat>, done: set<nat>, doc: Doc, lv: nat, filler: seq<T>, extras: nat, text: seq<T>)
    requires Replayed(log, base, done, doc) && lv < |log.g| && lv !in base + done && InGraph(log.g, log.g[lv])
    requires HasFiller(filler, extras, doc) && InSync(log, filler, extras, doc, text)
    requires Hist(log.g, log.g[lv]) == base + done
    ensures InRealRange(log, doc, extras, lv) <==> Fits(log.ops[lv], text)
    ensures InRealRange(log, doc, extras, lv) ==>
              && DocApply(log, doc, lv).Some?
              && Spliced(text, DocApply(log, doc, lv).value.1) == Spliced(text, Asked(log.ops[lv]))
  {
    hide Visible, EndVisible, OriginsOrdered, OrderMatches, TargetsMatch, HasFiller, ViewAt, Scan, Integrate;
    var v := Hist(log.g, log.g[lv]);
    LatestVisible(log, base, done, doc, v);
    assert |EndIds(doc)| == |text| + extras;
    if InRealRange(log, doc, extras, lv) {
      HistClosed(log.g, log.g[lv]);
      AppliesIffInRange(log, base, done, doc, lv);
      OrderedEdit(log, base, done, doc, lv, filler, extras, text);
    }
  }

  lemma {:induction false} OrderedEdit<T>(log: Log<T>, base: set<nat>, done: set<nat>, doc: Doc, lv: nat, filler: seq<T>, extras: nat, text: seq<T>)
    requires Replayed(log, base, done, doc) && lv < |log.g| && lv !in base + done && InGraph(log.g, log.g[lv])
    requires forall p | p in log.g[lv] :: p in base + done
    requires HasFiller(filler, extras, doc) && InSync(log, filler, extras, doc, text)
    requires Hist(log.g, log.g[lv]) == base + done
    requires InRealRange(log, doc, extras, lv) && Fits(log.ops[lv], text) && DocApply(log, doc, lv).Some?
    ensures Spliced(text, DocApply(log, doc, lv).value.1) == Spliced(text, Asked(log.ops[lv]))
  {
    hide Visible, EndVisible, OriginsOrdered, OrderMatches, TargetsMatch, HasFiller, ViewAt, Scan, Integrate, Apply1, InRealRange, Render, KnownIds, Spliced;
    var v := Hist(log.g, log.g[lv]);
    var (doc', edit) := DocApply(log, doc, lv).value;
    var suffix := filler[|filler| - extras..];
    StepKeepsSync(log, base, done, doc, lv, filler, extras, text);
    StepKeeps(log, base, done, doc, lv);
    LatestVisible(log, base, done, doc, v);
    LatestVisible(log, base, done + {lv}, doc', v + {lv});
    ViewRefersInside(log, base, done, doc, v);
    AppliedAsAsked(log, Ctx(ViewAt(doc, v), doc.targets), lv);
    assert EndIds(doc') == Spliced(EndIds(doc), AskedId(log.ops[lv], lv));
    AskedRender(log, filler, EndIds(doc), lv);
    SplicedBefore(text, suffix, Asked(log.ops[lv]));
    SuffixCancel(Spliced(text, edit), Spliced(text, Asked(log.ops[lv])), suffix);
  }

  lemma {:induction false} AskedRender<T>(log: Log<T>, filler: seq<T>, ids: seq<nat>, lv: nat)
    requires KnownIds(log, filler, ids) && lv < |log.ops| && Fits(log.ops[lv], ids)
    ensures KnownIds(log, filler, Spliced(ids, AskedId(log.ops[lv], lv)))
    ensures Render(log, filler, Spliced(ids, AskedId(log.ops[lv], lv))) == Spliced(Render(log, filler, ids), Asked(log.ops[lv]))
  {
    RenderSpliced(log, filler, ids, Asked(log.ops[lv]), lv);
  }

  /** Every operation of the range was made by someone who had seen everything before it. */
  ghost predicate Sequential<T>(log: Log<T>, base: set<nat>, done: set<nat>, from: nat, upTo: nat)
    requires ValidLog(log) && upTo <= |log.g|
  {
    forall lv | from <= lv < upTo :: InGraph(log.g, log.g[lv]) && Hist(log.g, log.g[lv]) == base + done + Range(from, lv)
  }

  /** Replaying a sequential range succeeds exactly when the fold stays in range, and gives the fold. */
  lemma {:induction false} SequentialReplay<T>(log: Log<T>, base: set<nat>, done: set<nat>, doc: Doc, text: seq<T>, filler: seq<T>, extras: nat, from: nat, upTo: nat)
    requires ValidLog(log) && from <= upTo <= |log.g|
    requires Replayed(log, base, done, doc) && Ready(log, base, done, from, upTo)
    requires HasFiller(filler, extras, doc) && InSync(log, filler, extras, doc, text)
    requires Sequential(log, base, done, from, upTo)
    ensures AllInRange(log, doc, text, extras, from, upTo) <==> FoldInRange(log, text, from, upTo)
    ensures FoldInRange(log, text, from, upTo) ==>
              && ReplayRange(log, doc, text, from, upTo).Some?
              && ReplayRange(log, doc, text, from, upTo).value.text == Fold(log, text, from, upTo)
    decreases upTo
  {
    hide InSync, HasFiller, InRealRange, DocApply, Replayed, Ready, Hist, WellFormed, Fits, Spliced;
    if from < upTo {
      ReadyLast(log, base, done, from, upTo);
      SequentialReplay(log, base, done, doc, text, filler, extras, from, upTo - 1);
      if FoldInRange(log, text, from, upTo - 1) {
        var before := ReplayRange(log, doc, text, from, upTo - 1).value;
        RangeKeeps(log, base, done, doc, text, from, upTo - 1);
        RangeKeepsSync(log, base, done, doc, text, filler, extras, from, upTo - 1);
        assert base + done + Range(from, upTo - 1) == base + (done + Range(from, upTo - 1));
        OrderedStep(log, base, done + Range(from, upTo - 1), before.doc, upTo - 1, filler, extras, before.text);
      }
    }
  }

  /** A log written by one author, or by authors taking turns. */
  ghost predicate Linear(g: Graph) {
    forall v | 0 <= v < |g| :: g[v] == if v == 0 then [] else [v - 1]
  }

  lemma {:induction false} LinearHist(g: Graph, v: nat)
    requires WellFormed(g) && Linear(g) && v < |g|
    ensures InGraph(g, g[v]) && Hist(g, g[v]) == Range(0, v)
    decreases v
  {
    HistOne(g, v);
    if v == 0 {
      assert Hist(g, g[0]) == {};
    } else {
      LinearHist(g, v - 1);
      HistOne(g, v - 1);
    }
  }

  /** On a linear log, checkout fails only for a position outside the text, and is the fold of splices. */
  lemma {:induction false} LinearCheckout<T>(log: Log<T>)
    requires ValidLog(log) && Linear(log.g)
    ensures CheckoutOf(log).Some? <==> FoldInRange(log, [], 0, |log.g|)
    ensures CheckoutOf(log).Some? ==> CheckoutOf(log).value.text == Fold(log, [], 0, |log.g|)
  {
    hide InSync, HasFiller, Replayed, Ready, ReplayRange, AllInRange, FoldInRange, Fold;
    EmptyReplayed(log);
    forall lv | 0 <= lv < |log.g|
      ensures InGraph(log.g, log.g[lv]) && Hist(log.g, log.g[lv]) == {} + {} + Range(0, lv)
    {
      LinearHist(log.g, lv);
    }
    SucceedsInRange(log, {}, {}, EMPTY_DOC, [], 0, |log.g|);
    SequentialReplay(log, {}, {}, EMPTY_DOC, [], [], 0, 0, |log.g|);
  }
}
