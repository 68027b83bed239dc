/** Whole replays: a range of versions in order, each applied at its own parents. */
module ReplayRun {
  import opened Dag
  import opened ListLog
  import opened Items
  import opened Replay
  import opened Intent

  datatype Outcome<T> = Outcome(doc: Doc, text: seq<T>)

  const EMPTY_DOC: Doc := Doc([], map[])

  /** Replays the versions `[from, to)`; None if some position lies outside the document. */
  ghost function ReplayRange<T>(log: Log<T>, doc: Doc, text: seq<T>, from: nat, upTo: nat): Option<Outcome<T>>
    requires ValidLog(log) && from <= upTo <= |log.g|
    decreases upTo
  {
    if from == upTo then Some(Outcome(doc, text))
    else
      match ReplayRange(log, doc, text, from, upTo - 1)
      case None => None
      case Some(before) =>
        assert InGraph(log.g, log.g[upTo - 1]) by { HistOne(log.g, upTo - 1); }
        match DocApply(log, before.doc, upTo - 1)
        case None => None
        case Some(step) => Some(Outcome(step.0, Spliced(before.text, step.1)))
  }

  /** The versions `[from, to)` are new, and their parents come before them. */
  ghost predicate Ready<T>(log: Log<T>, base: set<nat>, done: set<nat>, from: nat, upTo: nat) {
    && from <= upTo <= |log.g|
    && (forall lv | from <= lv < upTo :: lv !in base + done)
    && (forall lv, p | from <= lv < upTo && p in log.g[lv] :: p in base + done || from <= p < lv)
  }

  /** Every version of the range was replayed inside the real document. */
  ghost predicate AllInRange<T>(log: Log<T>, doc: Doc, text: seq<T>, extras: nat, from: nat, upTo: nat)
    requires ValidLog(log) && from <= upTo <= |log.g|
    decreases upTo
  {
    from < upTo ==>
      && AllInRange(log, doc, text, extras, from, upTo - 1)
      && var before := ReplayRange(log, doc, text, from, upTo - 1);
         assert InGraph(log.g, log.g[upTo - 1]) by { HistOne(log.g, upTo - 1); }
         before.Some? && InRealRange(log, before.value.doc, extras, upTo - 1)
  }

  lemma {:induction false} StepKeeps<T>(log: Log<T>, base: set<nat>, done: set<nat>, doc: Doc, lv: nat)
    requires Replayed(log, base, done, doc) && lv < |log.g| && lv !in base + done
    requires (forall p | p in log.g[lv] :: p in base + done) && InGraph(log.g, log.g[lv])
    requires DocApply(log, doc, lv).Some?
    ensures Replayed(log, base, done + {lv}, DocApply(log, doc, lv).value.0)
    ensures Apply1(log, Ctx(ViewAt(doc, Hist(log.g, log.g[lv])), doc.targets), lv).value.ctx ==
            Ctx(ViewAt(DocApply(log, doc, lv).value.0, Hist(log.g, log.g[lv]) + {lv}), DocApply(log, doc, lv).value.0.targets)
  {
    if log.ops[lv].Del? {
      DeleteStep(log, base, done, doc, lv);
    } else {
      InsertStep(log, base, done, doc, lv);
    }
  }

  lemma {:induction false} ReadyLast<T>(log: Log<T>, base: set<nat>, done: set<nat>, from: nat, upTo: nat)
    requires ValidLog(log) && Ready(log, base, done, from, upTo) && from < upTo
    ensures Ready(log, base, done, from, upTo - 1) && upTo - 1 < |log.g| && InGraph(log.g, log.g[upTo - 1])
    ensures upTo - 1 !in base + (done + Range(from, upTo - 1))
    ensures var parents := log.g[upTo - 1]; forall p | p in parents :: p in base + (done + Range(from, upTo - 1))
    ensures done + Range(from, upTo) == done + Range(from, upTo - 1) + {upTo - 1}
  {
    hide Hist;
    HistOne(log.g, upTo - 1);
    var parents := log.g[upTo - 1];
    var last := upTo - 1;
    assert last !in base + done;
    forall p | p in parents
      ensures p in base + (done + Range(from, upTo - 1))
    {
      assert p in base + done || from <= p < upTo - 1;
    }
  }

  /** Everything a replay promises: the document invariant, and a snapshot in step with it. */
  lemma {:induction false} RangeKeeps<T>(log: Log<T>, base: set<nat>, done: set<nat>, doc: Doc, text: seq<T>, from: nat, upTo: nat)
    requires ValidLog(log) && from <= upTo <= |log.g|
    requires Replayed(log, base, done, doc) && Ready(log, base, done, from, upTo)
    requires ReplayRange(log, doc, text, from, upTo).Some?
    ensures Replayed(log, base, done + Range(from, upTo), ReplayRange(log, doc, text, from, upTo).value.doc)
    decreases upTo
  {
    hide DocApply, Replayed, Ready, Hist, WellFormed;
    if from == upTo {
      assert done + Range(from, upTo) == done;
    } else {
      ReadyLast(log, base, done, from, upTo);
      var before := ReplayRange(log, doc, text, from, upTo - 1).value;
      RangeKeeps(log, base, done, doc, text, from, upTo - 1);
      StepKeeps(log, base, done + Range(from, upTo - 1), before.doc, upTo - 1);
    }
  }

  lemma {:induction false} RangeKeepsSync<T>(log: Log<T>, base: set<nat>, done: set<nat>, doc: Doc, text: seq<T>, filler: seq<T>, extras: nat, from: nat, upTo: nat)
    requires ValidLog(log) && from <= upTo <= |log.g|
    requires Replayed(log, base, done, doc) && Ready(log, base, done, from, upTo)
    requires HasFiller(filler, extras, doc) && InSync(log, filler, extras, doc, text)
    requires ReplayRange(log, doc, text, from, upTo).Some? && AllInRange(log, doc, text, extras, from, upTo)
    ensures var after := ReplayRange(log, doc, text, from, upTo).value;
            HasFiller(filler, extras, after.doc) && InSync(log, filler, extras, after.doc, after.text)
    decreases upTo
  {
    hide InSync, HasFiller, InRealRange, DocApply, Replayed, Ready, Hist, WellFormed;
    if from < upTo {
      ReadyLast(log, base, done, from, upTo);
      var before := ReplayRange(log, doc, text, from, upTo - 1).value;
      RangeKeepsSync(log, base, done, doc, text, filler, extras, from, upTo - 1);
      RangeKeeps(log, base, done, doc, text, from, upTo - 1);
      StepKeepsSync(log, base, done + Range(from, upTo - 1), before.doc, upTo - 1, filler, extras, before.text);
    }
  }

  // ---- Checking out a whole log ----

  ghost function CheckoutOf<T>(log: Log<T>): Option<Outcome<T>>
    requires ValidLog(log)
  {
    ReplayRange(log, EMPTY_DOC, [], 0, |log.g|)
  }

  lemma {:induction false} EmptyReplayed<T>(log: Log<T>)
    requires ValidLog(log)
    ensures Replayed(log, {}, {}, EMPTY_DOC) && Ready(log, {}, {}, 0, |log.g|)
    ensures HasFiller<T>([], 0, EMPTY_DOC) && InSync(log, [], 0, EMPTY_DOC, [])
  {
  }

  /** Without ballast the two notions of a position in range agree. */
  lemma {:induction false} SucceedsInRange<T>(log: Log<T>, base: set<nat>, done: set<nat>, doc: Doc, text: seq<T>, from: nat, upTo: nat)
    requires ValidLog(log) && from <= upTo <= |log.g|
    requires Replayed(log, base, done, doc) && Ready(log, base, done, from, upTo)
    ensures ReplayRange(log, doc, text, from, upTo).Some? <==> AllInRange(log, doc, text, 0, from, upTo)
    decreases upTo
  {
    hide DocApply, Replayed, Ready, Hist, WellFormed, Visible;
    if from < upTo {
      ReadyLast(log, base, done, from, upTo);
      SucceedsInRange(log, base, done, doc, text, from, upTo - 1);
      if ReplayRange(log, doc, text, from, upTo - 1).Some? {
        var before := ReplayRange(log, doc, text, from, upTo - 1).value;
        RangeKeeps(log, base, done, doc, text, from, upTo - 1);
        AppliesIffInRange(log, base, done + Range(from, upTo - 1), before.doc, upTo - 1);
      }
    }
  }

  /** Exactly the inserts that no replayed delete hits survive. */
  lemma {:induction false} Survivors<T>(log: Log<T>, done: set<nat>, doc: Doc)
    requires Replayed(log, {}, done, doc) && HasFiller<T>([], 0, doc)
    ensures forall lv: nat :: lv in EndIds(doc) <==>
              lv in done && log.ops[lv].Ins? && forall d | d in doc.targets :: doc.targets[d] != lv
  {
    hide OriginsOrdered, TargetsMatch, Closed, Hist;
    forall lv: nat
      ensures lv in EndIds(doc) <==> lv in done && log.ops[lv].Ins? && forall d | d in doc.targets :: doc.targets[d] != lv
    {
      var items := ViewAt(doc, {});
      SurvivorIn(items, lv);
      if lv in EndIds(doc) {
        var i :| 0 <= i < |items| && items[i].opId == lv && items[i].endState == INSERTED;
        assert doc.order[i].opId == lv;
      }
      if lv in done && log.ops[lv].Ins? {
        assert InOrder(doc.order, lv);
        var i :| 0 <= i < |doc.order| && doc.order[i].opId == lv;
        assert items[i].opId == lv;
      }
    }
  }

  /** A checkout's text is the content of the inserts that no operation deletes, in item order. */
  lemma {:induction false} CheckoutInSync<T>(log: Log<T>)
    requires ValidLog(log) && CheckoutOf(log).Some?
    ensures var out := CheckoutOf(log).value;
            && Replayed(log, {}, Range(0, |log.g|), out.doc)
            && KnownIds(log, [], EndIds(out.doc)) && out.text == Render(log, [], EndIds(out.doc))
            && (forall lv: nat :: lv in EndIds(out.doc) <==>
                 lv in Range(0, |log.g|) && log.ops[lv].Ins? && forall d | d in out.doc.targets :: out.doc.targets[d] != lv)
  {
    hide ReplayRange, AllInRange, Ready, Replayed, EndIds, HasFiller;
    var out := CheckoutOf(log).value;
    EmptyReplayed(log);
    SucceedsInRange(log, {}, {}, EMPTY_DOC, [], 0, |log.g|);
    RangeKeeps(log, {}, {}, EMPTY_DOC, [], 0, |log.g|);
    RangeKeepsSync(log, {}, {}, EMPTY_DOC, [], [], 0, 0, |log.g|);
    assert {} + Range(0, |log.g|) == Range(0, |log.g|);
    Survivors(log, Range(0, |log.g|), out.doc);
  }

  lemma {:induction false} SurvivorIn(items: seq<Item>, id: nat)
    ensures id in EndVisible(items) <==> exists i :: 0 <= i < |items| && items[i].opId == id && items[i].endState == INSERTED
  {
    if items != [] {
      var k := |items| - 1;
      SurvivorIn(items[..k], id);
      if exists i :: 0 <= i < |items| && items[i].opId == id && items[i].endState == INSERTED {
        var i :| 0 <= i < |items| && items[i].opId == id && items[i].endState == INSERTED;
        if i < k { assert items[..k][i] == items[i]; }
      }
      if exists i :: 0 <= i < |items[..k]| && items[..k][i].opId == id && items[..k][i].endState == INSERTED {
        var i :| 0 <= i < |items[..k]| && items[..k][i].opId == id && items[..k][i].endState == INSERTED;
        assert items[i].opId == id;
      }
    }
  }
}
