/** Documents that exchange their operations: people edit any of them at any time, and any two may be
    merged at any time. No replay ever fails, and documents that know the same have the same content. */
module Replicas {
  import opened RleGraph
  import opened ListLog
  import opened ReplayRun
  import opened Ordered
  import opened Documents
  import opened Twins
  import opened Convergence
  import BM = BranchMerge
  import CR = ConcurrentRuns
  import D = Dag
  import GG = GrowingGraph
  import OM = OplogMerge
  import S = Summaries

  /** What a log knows, by ID. */
  ghost function Knowledge<T>(log: Log<T>): (r: map<RawVersion, OM.Fact<T>>)
    requires ValidLog(log)
    ensures forall id :: id in r <==> id in log.ids
  {
    OM.Facts(log.ops, log.g, log.ids)
  }

  // ---- Facts and versions ----

  lemma {:induction false} FactOf<T>(log: Log<T>, v: nat)
    requires ValidLog(log) && UniqueIds(log) && v < |log.g|
    ensures log.ids[v] in Knowledge(log) && Knowledge(log)[log.ids[v]] == OM.FactAt(log.ops, log.g, log.ids, v)
  {
    var w := GG.LvOf(log.ids, log.ids[v]);
    assert w == v;
  }

  lemma {:induction false} ParentsMatch<T>(log: Log<T>, log': Log<T>, x: nat, y: nat)
    requires ValidLog(log) && ValidLog(log') && x < |log.g| && y < |log'.g|
    requires OM.FactAt(log.ops, log.g, log.ids, x) == OM.FactAt(log'.ops, log'.g, log'.ids, y)
    ensures ParentsThere(log, log', x, y)
  {
    forall p | p in log.g[x]
      ensures exists q :: q in log'.g[y] && Twin(log, log', p, q)
    {
      D.HistOne(log.g, x);
      assert log.ids[p] in OM.ParentIds(log.g, log.ids, x);
      assert log.ids[p] in OM.ParentIds(log'.g, log'.ids, y);
      var q :| q in log'.g[y] && log'.ids[q] == log.ids[p];
      assert Twin(log, log', p, q);
    }
  }

  /** Logs whose facts do not contradict each other agree on their common operations. */
  lemma {:induction false} FactsAgree<T>(log: Log<T>, log': Log<T>)
    requires ValidLog(log) && ValidLog(log') && UniqueIds(log) && UniqueIds(log') && OM.Agree(Knowledge(log), Knowledge(log'))
    ensures LogsAgree(log, log')
  {
    hide Knowledge, UniqueIds, ParentsThere, OM.FactAt;
    forall x: nat, y: nat | Twin(log, log', x, y)
      ensures SameOp(log, log', x, y)
    {
      FactOf(log, x);
      FactOf(log', y);
      OpsMatch(log, log', x, y);
      ParentsMatch(log, log', x, y);
      ParentsMatch(log', log, y, x);
    }
  }

  lemma {:induction false} OpsMatch<T>(log: Log<T>, log': Log<T>, x: nat, y: nat)
    requires ValidLog(log) && ValidLog(log') && x < |log.g| && y < |log'.g|
    requires OM.FactAt(log.ops, log.g, log.ids, x) == OM.FactAt(log'.ops, log'.g, log'.ids, y)
    ensures log.ops[x] == log'.ops[y]
  {
  }

  lemma {:induction false} KnownTwin<T>(log: Log<T>, log': Log<T>, x: nat)
    requires x < |log.ids| && log.ids[x] in log'.ids
    ensures HasTwin(log, log', x)
  {
    var y :| 0 <= y < |log'.ids| && log'.ids[y] == log.ids[x];
    assert Twin(log, log', x, y);
  }

  /** Logs that know the same check out to the same text, whatever order they learnt it in. */
  lemma {:induction false} SameKnowledge<T>(log: Log<T>, log': Log<T>)
    requires ValidLog(log) && ValidLog(log') && UniqueIds(log) && UniqueIds(log') && Knowledge(log) == Knowledge(log')
    ensures CheckoutOf(log).Some? <==> CheckoutOf(log').Some?
    ensures CheckoutOf(log).Some? ==> CheckoutOf(log).value.text == CheckoutOf(log').value.text
  {
    hide Knowledge, UniqueIds, CheckoutOf, HasTwin, LogsAgree;
    FactsAgree(log, log');
    forall x | x in D.Range(0, |log.g|) ensures HasTwin(log, log', x) { KnownTwin(log, log', x); }
    forall y | y in D.Range(0, |log'.g|) ensures HasTwin(log', log, y) { KnownTwin(log', log, y); }
    CheckoutsConverge(log, log');
  }

  ghost function StoredLog<T>(store: OM.ListOpLog<T>): Log<T>
    requires store.Valid()
    reads store, store.cg
  {
    Log(store.ops, store.cg.Parents(), store.cg.Ids())
  }

  /** Logs that `MergeBothWays` has brought to the same facts check out to the same text. */
  lemma {:induction false} StoresConverge<T>(a: OM.ListOpLog<T>, b: OM.ListOpLog<T>)
    requires a.Valid() && b.Valid() && OM.FactsOf(a) == OM.FactsOf(b) && |a.ops| <= PLACEHOLDER_BASE && |b.ops| <= PLACEHOLDER_BASE
    ensures ValidLog(StoredLog(a)) && ValidLog(StoredLog(b))
    ensures CheckoutOf(StoredLog(a)).Some? <==> CheckoutOf(StoredLog(b)).Some?
    ensures CheckoutOf(StoredLog(a)).Some? ==> CheckoutOf(StoredLog(a)).value.text == CheckoutOf(StoredLog(b)).value.text
  {
    hide CheckoutOf, D.Hist, OM.Facts;
    S.StoreFacts(a.cg);
    S.StoreFacts(b.cg);
    SameKnowledge(StoredLog(a), StoredLog(b));
  }

  // ---- Replicas ----

  /** Somebody edits document `i`, within its content and under an ID that is not in use. */
  ghost predicate Edits<T>(docs: seq<Document<T>>, docs': seq<Document<T>>, i: nat) {
    && i < |docs| == |docs'| && docs' == docs[i := docs'[i]] && Edited(docs[i], docs'[i])
    && (var n := |docs[i].log.g|;
        Fits(docs'[i].log.ops[n], docs[i].content) && forall j | 0 <= j < |docs| :: docs'[i].log.ids[n] !in docs[j].log.ids)
  }

  /** Document `i` takes over what document `j` knows. Where the merge throws an error, its content may be anything. */
  ghost predicate Pulls<T>(docs: seq<Document<T>>, docs': seq<Document<T>>, i: nat, j: nat, version: seq<nat>, mergeVersion: seq<nat>, base: seq<nat>) {
    && i < |docs| == |docs'| && j < |docs| && docs' == docs[i := docs'[i]] && Received(docs[i], docs'[i], version, mergeVersion, base)
    && ValidLog(docs[j].log) && UniqueIds(docs'[i].log) && Knowledge(docs'[i].log) == Knowledge(docs[i].log) + Knowledge(docs[j].log)
    && (var merged := BM.MergeOf(docs'[i].log, version, mergeVersion, base, docs[i].content);
        merged.Some? ==> docs'[i].content == merged.value.text)
  }

  ghost predicate Changes<T>(docs: seq<Document<T>>, docs': seq<Document<T>>) {
    || (exists i: nat :: Edits(docs, docs', i))
    || (exists i: nat, j: nat, version, mergeVersion, base :: Pulls(docs, docs', i, j, version, mergeVersion, base))
  }

  /** Any number of new documents, and then any number of changes. */
  ghost predicate History<T>(run: seq<seq<Document<T>>>) {
    && run != [] && (forall i | 0 <= i < |run[0]| :: run[0][i] == Document(Log([], [], []), []))
    && forall n | 0 <= n < |run| - 1 :: Changes(run[n], run[n + 1])
  }

  /** Every document is up to date, and no two contradict each other. */
  ghost predicate Settled<T>(docs: seq<Document<T>>) {
    && (forall i | 0 <= i < |docs| :: Checks(docs[i]) && UniqueIds(docs[i].log))
    && (forall i, j | 0 <= i < |docs| && 0 <= j < |docs| :: OM.Agree(Knowledge(docs[i].log), Knowledge(docs[j].log)))
  }

  /** A document that has changed, among others that have not. */
  lemma {:induction false} OneChanged<T>(docs: seq<Document<T>>, docs': seq<Document<T>>, i: nat)
    requires Settled(docs) && i < |docs| == |docs'| && docs' == docs[i := docs'[i]]
    requires Checks(docs'[i]) && UniqueIds(docs'[i].log)
    requires forall k | 0 <= k < |docs| :: OM.Agree(Knowledge(docs'[i].log), Knowledge(docs[k].log))
    ensures Settled(docs')
  {
    hide Knowledge, CheckoutOf, ValidLog, UniqueIds;
    forall k | 0 <= k < |docs'|
      ensures Checks(docs'[k]) && UniqueIds(docs'[k].log)
    {
    }
  }

  lemma {:induction false} PrefixFact<T>(log: Log<T>, log': Log<T>, v: nat)
    requires CR.SamePrefix(log, log', |log.g|) && v < |log.g|
    ensures v < |log'.g| && ValidLog(log) && ValidLog(log') && log.ids[v] == log'.ids[v]
    ensures OM.FactAt(log.ops, log.g, log.ids, v) == OM.FactAt(log'.ops, log'.g, log'.ids, v)
  {
    hide CR.SamePrefix;
    CR.PrefixValid(log, log', |log.g|);
    CR.PrefixAt(log, log', |log.g|, v);
    D.HistOne(log.g, v);
    forall p | p in log.g[v]
      ensures log.ids[p] == log'.ids[p]
    {
      CR.PrefixAt(log, log', |log.g|, p);
    }
    assert OM.ParentIds(log.g, log.ids, v) == OM.ParentIds(log'.g, log'.ids, v);
  }

  lemma {:induction false} GrownUnique<T>(log: Log<T>, log': Log<T>)
    requires CR.SamePrefix(log, log', |log.g|) && |log'.g| == |log.g| + 1 && UniqueIds(log) && log'.ids[|log.g|] !in log.ids
    ensures UniqueIds(log')
  {
    hide CR.SamePrefix;
    CR.PrefixValid(log, log', |log.g|);
    forall v, w | 0 <= v < w < |log'.ids|
      ensures log'.ids[v] != log'.ids[w]
    {
      CR.PrefixAt(log, log', |log.g|, v);
      if w < |log.g| { CR.PrefixAt(log, log', |log.g|, w); }
    }
  }

  /** What was known before stays known. */
  lemma {:induction false} StillKnown<T>(log: Log<T>, log': Log<T>, id: RawVersion)
    requires CR.SamePrefix(log, log', |log.g|) && UniqueIds(log) && UniqueIds(log') && ValidLog(log) && ValidLog(log') && id in Knowledge(log)
    ensures id in Knowledge(log') && Knowledge(log')[id] == Knowledge(log)[id]
  {
    hide CR.SamePrefix, Knowledge, UniqueIds, OM.FactAt;
    var v :| 0 <= v < |log.ids| && log.ids[v] == id;
    PrefixFact(log, log', v);
    FactOf(log, v);
    FactOf(log', v);
  }

  lemma {:induction false} NewOrKnown<T>(log: Log<T>, log': Log<T>, id: RawVersion)
    requires CR.SamePrefix(log, log', |log.g|) && |log'.g| == |log.g| + 1 && id in log'.ids
    ensures id in log.ids || id == log'.ids[|log.g|]
  {
    hide CR.SamePrefix;
    CR.PrefixValid(log, log', |log.g|);
    var v :| 0 <= v < |log'.ids| && log'.ids[v] == id;
    if v < |log.g| { CR.PrefixAt(log, log', |log.g|, v); }
  }

  /** An edit agrees with everybody else. */
  lemma {:induction false} EditAgrees<T>(log: Log<T>, log': Log<T>, other: Log<T>)
    requires CR.SamePrefix(log, log', |log.g|) && |log'.g| == |log.g| + 1 && UniqueIds(log) && UniqueIds(log')
    requires ValidLog(log) && ValidLog(log') && ValidLog(other) && OM.Agree(Knowledge(log), Knowledge(other)) && log'.ids[|log.g|] !in other.ids
    ensures OM.Agree(Knowledge(log'), Knowledge(other))
  {
    hide CR.SamePrefix, Knowledge, UniqueIds;
    forall id | id in Knowledge(log') && id in Knowledge(other)
      ensures Knowledge(log')[id] == Knowledge(other)[id]
    {
      NewOrKnown(log, log', id);
      StillKnown(log, log', id);
    }
  }

  lemma {:induction false} EditSettles<T>(docs: seq<Document<T>>, docs': seq<Document<T>>, i: nat)
    requires Settled(docs) && Edits(docs, docs', i)
    ensures Settled(docs')
  {
    hide Knowledge, CheckoutOf, UniqueIds, CR.SamePrefix, D.Hist, Settled, Fits;
    assert Edited(docs[i], docs'[i]);
    var log, log' := docs[i].log, docs'[i].log;
    CR.PrefixValid(log, log', |log.g|);
    SettledDoc(docs, i);
    EditChecks(docs[i], docs'[i]);
    GrownUnique(log, log');
    SettledLogs(docs);
    forall k | 0 <= k < |docs|
      ensures OM.Agree(Knowledge(docs'[i].log), Knowledge(docs[k].log))
    {
      SettledDoc(docs, k);
      SettledPair(docs, i, k);
      EditAgrees(log, log', docs[k].log);
    }
    OneChanged(docs, docs', i);
  }

  lemma {:induction false} SettledDoc<T>(docs: seq<Document<T>>, i: nat)
    requires Settled(docs) && i < |docs|
    ensures Checks(docs[i]) && UniqueIds(docs[i].log) && ValidLog(docs[i].log)
  {
  }

  lemma {:induction false} SettledLogs<T>(docs: seq<Document<T>>)
    requires Settled(docs)
    ensures forall k | 0 <= k < |docs| :: ValidLog(docs[k].log)
  {
    hide Knowledge, CheckoutOf, UniqueIds;
  }

  lemma {:induction false} SettledPair<T>(docs: seq<Document<T>>, i: nat, j: nat)
    requires Settled(docs) && i < |docs| && j < |docs|
    ensures Checks(docs[i]) && Checks(docs[j]) && OM.Agree(Knowledge(docs[i].log), Knowledge(docs[j].log))
  {
    hide Knowledge;
  }

  // ---- Merging ----

  /** A log that knows what two others know checks out if they do. */
  lemma {:induction false} UnionKnown<T>(a: Log<T>, b: Log<T>, u: Log<T>)
    requires ValidLog(a) && ValidLog(b) && ValidLog(u) && UniqueIds(a) && UniqueIds(b) && UniqueIds(u)
    requires OM.Agree(Knowledge(a), Knowledge(b)) && Knowledge(u) == Knowledge(a) + Knowledge(b)
    requires CheckoutOf(a).Some? && CheckoutOf(b).Some?
    ensures CheckoutOf(u).Some?
  {
    hide Knowledge, UniqueIds, CheckoutOf, HasTwin, LogsAgree;
    UnionAgrees(Knowledge(a), Knowledge(b), Knowledge(a));
    UnionAgrees(Knowledge(a), Knowledge(b), Knowledge(b));
    FactsAgree(a, u);
    FactsAgree(b, u);
    forall y | 0 <= y < |u.g|
      ensures HasTwin(u, a, y) || HasTwin(u, b, y)
    {
      assert u.ids[y] in Knowledge(u);
      if u.ids[y] in Knowledge(a) { KnownTwin(u, a, y); } else { KnownTwin(u, b, y); }
    }
    UnionChecksOut(a, b, u);
  }

  lemma {:induction false} UnionAgrees<K, V>(f: map<K, V>, f': map<K, V>, h: map<K, V>)
    requires (forall id | id in f && id in f' :: f[id] == f'[id]) && (forall id | id in f && id in h :: f[id] == h[id]) && (forall id | id in f' && id in h :: f'[id] == h[id])
    ensures forall id | id in h && id in f + f' :: h[id] == (f + f')[id]
    ensures forall id | id in f + f' && id in h :: h[id] == (f + f')[id]
  {
  }

  /** A merge among settled documents throws no error, and the content is what a fresh checkout gives. */
  lemma {:induction false} PullSucceeds<T>(docs: seq<Document<T>>, docs': seq<Document<T>>, i: nat, j: nat, version: seq<nat>, mergeVersion: seq<nat>, base: seq<nat>)
    requires Settled(docs) && Pulls(docs, docs', i, j, version, mergeVersion, base)
    ensures BM.MergeOf(docs'[i].log, version, mergeVersion, base, docs[i].content).Some? && Checks(docs'[i])
  {
    hide Knowledge, UniqueIds, CheckoutOf, Settled, Received, BM.MergeOf;
    SettledDoc(docs, i);
    SettledDoc(docs, j);
    SettledPair(docs, i, j);
    ReceivedValid(docs[i], docs'[i], version, mergeVersion, base);
    UnionKnown(docs[i].log, docs[j].log, docs'[i].log);
    ReceiveChecks(docs[i], docs'[i], version, mergeVersion, base);
  }

  lemma {:induction false} ReceivedValid<T>(d: Document<T>, d': Document<T>, version: seq<nat>, mergeVersion: seq<nat>, base: seq<nat>)
    requires Received(d, d', version, mergeVersion, base)
    ensures ValidLog(d'.log) && D.InGraph(d'.log.g, version) && D.InGraph(d'.log.g, mergeVersion) && BM.IsMergeBase(d'.log.g, version, mergeVersion, base)
  {
  }

  lemma {:induction false} PullSettles<T>(docs: seq<Document<T>>, docs': seq<Document<T>>, i: nat, j: nat, version: seq<nat>, mergeVersion: seq<nat>, base: seq<nat>)
    requires Settled(docs) && Pulls(docs, docs', i, j, version, mergeVersion, base)
    ensures Settled(docs')
  {
    hide Knowledge, UniqueIds, CheckoutOf, Settled, Received, BM.MergeOf;
    PullSucceeds(docs, docs', i, j, version, mergeVersion, base);
    SettledPair(docs, i, j);
    ReceivedValid(docs[i], docs'[i], version, mergeVersion, base);
    SettledLogs(docs);
    forall k | 0 <= k < |docs|
      ensures OM.Agree(Knowledge(docs'[i].log), Knowledge(docs[k].log))
    {
      SettledPair(docs, i, k);
      SettledPair(docs, j, k);
      UnionAgrees(Knowledge(docs[i].log), Knowledge(docs[j].log), Knowledge(docs[k].log));
    }
    OneChanged(docs, docs', i);
  }

  // ---- Whole histories ----

  /** After any history every document's content is that of a fresh checkout of its log, and logs agree. */
  lemma {:induction false} EveryHistorySettles<T>(run: seq<seq<Document<T>>>, n: nat)
    requires History(run) && n < |run|
    ensures Settled(run[n])
  {
    hide Edits, Pulls, Settled;
    if n == 0 {
      NewSettled(run[0]);
    } else {
      EveryHistorySettles(run, n - 1);
      assert Changes(run[n - 1], run[n - 1 + 1]);
      ChangeSettles(run[n - 1], run[n]);
    }
  }

  lemma {:induction false} ChangeSettles<T>(docs: seq<Document<T>>, docs': seq<Document<T>>)
    requires Settled(docs) && Changes(docs, docs')
    ensures Settled(docs')
  {
    hide Edits, Pulls, Settled;
    if i: nat :| Edits(docs, docs', i) {
      EditSettles(docs, docs', i);
    } else {
      var i: nat, j: nat, version, mergeVersion, base :| Pulls(docs, docs', i, j, version, mergeVersion, base);
      PullSettles(docs, docs', i, j, version, mergeVersion, base);
    }
  }

  lemma {:induction false} NewSettled<T>(docs: seq<Document<T>>)
    requires forall i | 0 <= i < |docs| :: docs[i] == Document(Log([], [], []), [])
    ensures Settled(docs)
  {
  }

  /** Strong eventual consistency: documents that know the same have the same content. */
  lemma {:induction false} SameKnowledgeSameContent<T>(run: seq<seq<Document<T>>>, n: nat, i: nat, j: nat)
    requires History(run) && n < |run| && i < |run[n]| && j < |run[n]|
    ensures Checks(run[n][i]) && Checks(run[n][j])
    ensures Knowledge(run[n][i].log) == Knowledge(run[n][j].log) ==> run[n][i].content == run[n][j].content
  {
    hide Knowledge, UniqueIds, CheckoutOf, Settled, History;
    EveryHistorySettles(run, n);
    SettledDoc(run[n], i);
    SettledDoc(run[n], j);
    if Knowledge(run[n][i].log) == Knowledge(run[n][j].log) {
      SameKnowledge(run[n][i].log, run[n][j].log);
    }
  }

  /** Two documents that merge each other's operations in turn end with the same content. */
  lemma {:induction false} MergedBothWays<T>(run: seq<seq<Document<T>>>, n: nat, i: nat, j: nat,
                                             version: seq<nat>, mergeVersion: seq<nat>, base: seq<nat>, version': seq<nat>, mergeVersion': seq<nat>, base': seq<nat>)
    requires History(run) && n + 2 < |run| && i != j
    requires Pulls(run[n], run[n + 1], i, j, version, mergeVersion, base) && Pulls(run[n + 1], run[n + 2], j, i, version', mergeVersion', base')
    ensures i < |run[n + 2]| && j < |run[n + 2]| && run[n + 2][i].content == run[n + 2][j].content
  {
    hide Knowledge, UniqueIds, CheckoutOf, Settled, History, Received, BM.MergeOf;
    EveryHistorySettles(run, n);
    EveryHistorySettles(run, n + 1);
    EveryHistorySettles(run, n + 2);
    SettledPair(run[n], i, j);
    ReceivedValid(run[n][i], run[n + 1][i], version, mergeVersion, base);
    ReceivedValid(run[n + 1][j], run[n + 2][j], version', mergeVersion', base');
    assert run[n + 1][j] == run[n][j] && run[n + 2][i] == run[n + 1][i];
    BothUnions(Knowledge(run[n][i].log), Knowledge(run[n][j].log));
    SameKnowledgeSameContent(run, n + 2, i, j);
  }

  lemma {:induction false} BothUnions<K, V>(f: map<K, V>, f': map<K, V>)
    requires forall id | id in f && id in f' :: f[id] == f'[id]
    ensures f' + (f + f') == f + f'
  {
  }
}
