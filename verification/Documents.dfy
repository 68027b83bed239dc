/** A document kept up to date: its content follows local edits directly and other people's through
    merges, and is at all times what a fresh checkout of its log would give. */
module Documents {
  import opened Dag
  import opened ListLog
  import opened ReplayRun
  import opened Ordered
  import opened BranchMerge
  import CR = ConcurrentRuns
  import I = Intent
  import MR = MergeReplay
  import R = Replay
  import Traverse

  datatype Document<T> = Document(log: Log<T>, content: seq<T>)

  /** The content is the checkout. */
  ghost predicate Checks<T>(d: Document<T>) {
    ValidLog(d.log) && CheckoutOf(d.log).Some? && CheckoutOf(d.log).value.text == d.content
  }

  /** `docInsert`, and `docDelete` for one item: the operation is put on top of everything in the log,
      and spliced into the content as it stands. */
  ghost predicate Edited<T>(d: Document<T>, d': Document<T>) {
    var n := |d.log.g|;
    && CR.SamePrefix(d.log, d'.log, n) && |d'.log.g| == n + 1
    && InGraph(d'.log.g, d'.log.g[n]) && Hist(d'.log.g, d'.log.g[n]) == Range(0, n)
    && d'.content == I.Spliced(d.content, I.Asked(d'.log.ops[n]))
  }

  /** `docMergeInto`: other operations are appended to the log, whatever they build on, and merged into
      the content from the old heads `version` to the new heads `mergeVersion`. */
  ghost predicate Received<T>(d: Document<T>, d': Document<T>, version: seq<nat>, mergeVersion: seq<nat>, base: seq<nat>) {
    var n, g := |d.log.g|, d'.log.g;
    && CR.SamePrefix(d.log, d'.log, n)
    && InGraph(g, version) && InGraph(g, mergeVersion) && IsMergeBase(g, version, mergeVersion, base)
    && Hist(g, version) == Range(0, n) && Hist(g, mergeVersion) == Range(0, |g|)
  }

  /** The earlier state of a log that checks out does so, and gives the first part of the replay. */
  lemma {:induction false} Earlier<T>(log: Log<T>, log': Log<T>)
    requires CR.SamePrefix(log, log', |log.g|) && CheckoutOf(log').Some?
    ensures CheckoutOf(log).Some? && CheckoutOf(log) == ReplayRange(log', EMPTY_DOC, [], 0, |log.g|)
  {
    hide ReplayRange;
    CR.PrefixReplay(log, log', |log.g|, |log.g|);
    Traverse.ReplaySplit(log', EMPTY_DOC, [], 0, |log.g|, |log'.g|);
  }

  /** A local edit of a document that is up to date leaves it so, if it fits the content; else the log
      cannot be checked out any more. */
  lemma {:induction false} EditChecks<T>(d: Document<T>, d': Document<T>)
    requires Checks(d) && Edited(d, d')
    ensures CheckoutOf(d'.log).Some? <==> Fits(d'.log.ops[|d.log.g|], d.content)
    ensures CheckoutOf(d'.log).Some? ==> Checks(d')
  {
    hide ReplayRange, R.Replayed, I.HasFiller, I.InSync, R.InRange, R.DocApply, I.InRealRange, Fits, I.Spliced, CR.SamePrefix;
    var n, log := |d.log.g|, d'.log;
    CR.PrefixValid(d.log, log, n);
    CR.PrefixReplay(d.log, log, n, n);
    Traverse.ReplaySplit(log, EMPTY_DOC, [], 0, n, n + 1);
    var before := ReplayRange(log, EMPTY_DOC, [], 0, n).value;
    UpTo(log, n);
    Traverse.ReplayNext(log, before.doc, before.text, n);
    assert {} + Range(0, n) == Range(0, n);
    OrderedStep(log, {}, Range(0, n), before.doc, n, [], 0, before.text);
    R.AppliesIffInRange(log, {}, Range(0, n), before.doc, n);
    NoSurplus(log, before.doc, n);
  }

  lemma {:induction false} NoSurplus<T>(log: Log<T>, doc: R.Doc, lv: nat)
    requires ValidLog(log) && lv < |log.g| && InGraph(log.g, log.g[lv])
    ensures R.InRange(log, doc, lv) <==> I.InRealRange(log, doc, 0, lv)
  {
  }

  /** The document invariant after the first `n` operations. */
  lemma {:induction false} UpTo<T>(log: Log<T>, n: nat)
    requires ValidLog(log) && n <= |log.g| && ReplayRange(log, EMPTY_DOC, [], 0, n).Some?
    ensures var out := ReplayRange(log, EMPTY_DOC, [], 0, n).value;
            R.Replayed(log, {}, Range(0, n), out.doc) && I.HasFiller<T>([], 0, out.doc) && I.InSync(log, [], 0, out.doc, out.text)
  {
    hide ReplayRange, R.Replayed, I.HasFiller, I.InSync, AllInRange, Ready;
    EmptyReplayed(log);
    CR.ReadyPart(log, n);
    assert {} + Range(0, n) == Range(0, n);
    RangeKeeps(log, {}, {}, EMPTY_DOC, [], 0, n);
    SucceedsInRange(log, {}, {}, EMPTY_DOC, [], 0, n);
    RangeKeepsSync(log, {}, {}, EMPTY_DOC, [], [], 0, 0, n);
  }

  /** Merging into a document that is up to date throws no error and gives the checkout of the new log. */
  lemma {:induction false} ReceiveChecks<T>(d: Document<T>, d': Document<T>, version: seq<nat>, mergeVersion: seq<nat>, base: seq<nat>)
    requires Checks(d) && Received(d, d', version, mergeVersion, base) && CheckoutOf(d'.log).Some?
    ensures var merged := MergeOf(d'.log, version, mergeVersion, base, d.content);
            merged.Some? && merged.value.text == CheckoutOf(d'.log).value.text
  {
    hide ReplayRange, MergeOf, Hist, IsMergeBase;
    Earlier(d.log, d'.log);
    assert Range(0, |d.log.g|) + Range(0, |d'.log.g|) == Range(0, |d'.log.g|);
    MR.MergeCatchesUp(d'.log, version, mergeVersion, base, |d.log.g|, |d'.log.g|);
  }

  // ---- Whole runs ----

  /** The merge that `docMergeInto` makes, where it throws no error. */
  ghost predicate Merged<T>(d: Document<T>, d': Document<T>, version: seq<nat>, mergeVersion: seq<nat>, base: seq<nat>) {
    && Received(d, d', version, mergeVersion, base)
    && var merged := MergeOf(d'.log, version, mergeVersion, base, d.content);
       merged.Some? && merged.value.text == d'.content
  }

  ghost predicate Step<T>(d: Document<T>, d': Document<T>) {
    Edited(d, d') || exists version, mergeVersion, base :: Merged(d, d', version, mergeVersion, base)
  }

  ghost predicate Run<T>(run: seq<Document<T>>) {
    && run != [] && run[0] == Document(Log([], [], []), [])
    && forall i | 0 <= i < |run| - 1 :: Step(run[i], run[i + 1])
  }

  /** What `docCheck` asserts: the content is that of a fresh checkout, which may fail only on a log
      with operations out of range in it. */
  ghost predicate UpToDate<T>(d: Document<T>) {
    ValidLog(d.log) && (CheckoutOf(d.log).Some? ==> CheckoutOf(d.log).value.text == d.content)
  }

  lemma {:induction false} EditKeeps<T>(d: Document<T>, d': Document<T>)
    requires UpToDate(d) && Edited(d, d')
    ensures UpToDate(d')
  {
    hide ReplayRange, I.Spliced, Hist;
    if CheckoutOf(d'.log).Some? {
      Earlier(d.log, d'.log);
      EditChecks(d, d');
    }
  }

  lemma {:induction false} MergeKeeps<T>(d: Document<T>, d': Document<T>, version: seq<nat>, mergeVersion: seq<nat>, base: seq<nat>)
    requires UpToDate(d) && Merged(d, d', version, mergeVersion, base)
    ensures UpToDate(d')
  {
    hide ReplayRange, MergeOf, IsMergeBase, Hist;
    if CheckoutOf(d'.log).Some? {
      Earlier(d.log, d'.log);
      ReceiveChecks(d, d', version, mergeVersion, base);
    }
  }

  /** After any sequence of local edits and merges, the content is what a fresh checkout gives. */
  lemma {:induction false} EveryRunChecks<T>(run: seq<Document<T>>, i: nat)
    requires Run(run) && i < |run|
    ensures UpToDate(run[i])
  {
    hide Edited, Merged, UpToDate;
    if i == 0 {
      NewUpToDate(run[0]);
    } else {
      EveryRunChecks(run, i - 1);
      assert Step(run[i - 1], run[i - 1 + 1]);
      if Edited(run[i - 1], run[i]) {
        EditKeeps(run[i - 1], run[i]);
      } else {
        var version, mergeVersion, base :| Merged(run[i - 1], run[i], version, mergeVersion, base);
        MergeKeeps(run[i - 1], run[i], version, mergeVersion, base);
      }
    }
  }

  lemma {:induction false} NewUpToDate<T>(d: Document<T>)
    requires d == Document(Log([], [], []), [])
    ensures UpToDate(d)
  {
  }
}
