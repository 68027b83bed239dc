/** The growing causal graph: entries, the per-agent index and the heads, and `add`, which keeps
    all three in step with the versions they stand for. */
module GraphStore {
  import opened RleGraph
  import opened ListLog
  import opened AgentIndex

  // ---- Entries ----

  predicate TryAppendEntries(a: CGEntry, b: CGEntry) {
    && b.version == a.vEnd && a.agent == b.agent && a.version <= a.vEnd
    && a.seqStart + (a.vEnd - a.version) == b.seqStart
    && |b.parents| == 1 && b.parents[0] + 1 == a.vEnd
  }

  /** `pushRLEList` on the entries: joins the new entry to the last one if it runs on from it. */
  function PushEntry(es: seq<CGEntry>, e: CGEntry): seq<CGEntry> {
    if es != [] && TryAppendEntries(es[|es| - 1], e)
    then es[|es| - 1 := es[|es| - 1].(vEnd := e.vEnd)]
    else es + [e]
  }

  ghost function RunIds(e: CGEntry): (r: seq<RawVersion>)
    requires e.version <= e.vEnd
    ensures |r| == e.vEnd - e.version
  {
    seq(e.vEnd - e.version, k requires 0 <= k < e.vEnd - e.version => RawVersion(e.agent, e.seqStart + k))
  }

  ghost predicate PackedEntries(es: seq<CGEntry>) {
    forall i | 0 < i < |es| :: !TryAppendEntries(es[i - 1], es[i])
  }

  lemma {:induction false} LvToRawAt(es: seq<CGEntry>, i: nat, v: nat)
    requires ValidEntries(es) && i < |es| && es[i].version <= v < es[i].vEnd
    ensures v < NextLV(es) && LvToRaw(es, v) == RawVersion(es[i].agent, es[i].seqStart + (v - es[i].version))
  {
    EntryBounds(es, i);
    EntriesApart(es, i, FindEntryContaining(es, v), v);
  }

  lemma {:induction false} RawIdsPrefix(es: seq<CGEntry>, e: CGEntry)
    requires ValidEntries(es) && ValidEntries(es + [e])
    ensures e.version < e.vEnd && RawIds(es + [e]) == RawIds(es) + RunIds(e)
  {
    hide ValidEntries, LvToRaw;
    NextLast(es, e);
    var es' := es + [e];
    forall v | 0 <= v < NextLV(es')
      ensures LvToRaw(es', v) == (RawIds(es) + RunIds(e))[v]
    {
      if v < NextLV(es) {
        var i := FindEntryContaining(es, v);
        LvToRawAt(es, i, v);
        LvToRawAt(es', i, v);
      } else {
        LvToRawAt(es', |es|, v);
      }
    }
  }

  lemma {:induction false} NextLast(es: seq<CGEntry>, e: CGEntry)
    requires ValidEntries(es) && ValidEntries(es + [e])
    ensures e.version == NextLV(es) < e.vEnd == NextLV(es + [e])
  {
    assert (es + [e])[|es|] == e;
    if es != [] { assert (es + [e])[|es| - 1] == es[|es| - 1]; }
  }

  lemma {:induction false} SingleMeans(es: seq<CGEntry>, e: CGEntry)
    requires ValidEntries(es) && ValidEntries(es + [e])
    ensures e.version == NextLV(es) < e.vEnd
    ensures Expand(es + [e]) == Expand(es) + Run(e) && RawIds(es + [e]) == RawIds(es) + RunIds(e)
  {
    hide ValidEntries, RawIds, Expand;
    NextLast(es, e);
    RawIdsPrefix(es, e);
    ExpandLast(es + [e]);
    assert (es + [e])[..|es|] == es;
  }

  /** An entry joined to the one before it stands for the versions of both. */
  lemma {:induction false} JoinedRun(a: CGEntry, b: CGEntry)
    requires a.version < a.vEnd && b.version < b.vEnd && TryAppendEntries(a, b)
    ensures Run(a.(vEnd := b.vEnd)) == Run(a) + Run(b) && RunIds(a.(vEnd := b.vEnd)) == RunIds(a) + RunIds(b)
  {
    hide Run, RunIds;
    JoinedParents(a, b);
    JoinedIds(a, b);
  }

  lemma {:induction false} JoinedParents(a: CGEntry, b: CGEntry)
    requires a.version < a.vEnd && b.version < b.vEnd && TryAppendEntries(a, b)
    ensures Run(a.(vEnd := b.vEnd)) == Run(a) + Run(b)
  {
    var c := a.(vEnd := b.vEnd);
    forall k | 0 <= k < c.vEnd - c.version
      ensures Run(c)[k] == (Run(a) + Run(b))[k]
    {
      if k == a.vEnd - a.version { assert b.parents == [a.vEnd - 1]; }
    }
  }

  lemma {:induction false} JoinedIds(a: CGEntry, b: CGEntry)
    requires a.version < a.vEnd && b.version < b.vEnd && TryAppendEntries(a, b)
    ensures RunIds(a.(vEnd := b.vEnd)) == RunIds(a) + RunIds(b)
  {
  }

  /** Entries are joined exactly when a single one stands for the versions of both. */
  lemma {:induction false} JoinsExactly(a: CGEntry, b: CGEntry)
    requires a.version < a.vEnd && b.version < b.vEnd
    ensures TryAppendEntries(a, b) <==>
              b.version == a.vEnd && Run(a.(vEnd := b.vEnd)) == Run(a) + Run(b) && RunIds(a.(vEnd := b.vEnd)) == RunIds(a) + RunIds(b)
  {
    if TryAppendEntries(a, b) { JoinedRun(a, b); }
    if b.version == a.vEnd && Run(a.(vEnd := b.vEnd)) == Run(a) + Run(b) && RunIds(a.(vEnd := b.vEnd)) == RunIds(a) + RunIds(b) {
      var k := a.vEnd - a.version;
      assert Run(a.(vEnd := b.vEnd))[k] == Run(b)[0] && RunIds(a.(vEnd := b.vEnd))[k] == RunIds(b)[0];
    }
  }

  lemma {:induction false} Glue<T>(a: seq<T>, b: seq<T>, c: seq<T>)
    ensures a + (b + c) == (a + b) + c
  {
  }

  lemma {:induction false} ValidPush(es: seq<CGEntry>, e: CGEntry)
    requires ValidEntries(es) && e.version == NextLV(es) < e.vEnd && forall p | p in e.parents :: p < e.version
    ensures es == [] || !TryAppendEntries(es[|es| - 1], e) ==> PushEntry(es, e) == es + [e] && ValidEntries(es + [e])
    ensures es != [] && TryAppendEntries(es[|es| - 1], e) ==>
              var k := |es| - 1;
              && PushEntry(es, e) == es[..k] + [es[k].(vEnd := e.vEnd)] && es == es[..k] + [es[k]]
              && ValidEntries(es[..k]) && ValidEntries(es[..k] + [es[k].(vEnd := e.vEnd)])
              && es[k].version < es[k].vEnd
  {
    hide ValidEntries;
    if es == [] || !TryAppendEntries(es[|es| - 1], e) {
      ValidAppend(es, e);
    } else {
      var k := |es| - 1;
      assert es == es[..k] + [es[k]];
      ValidInit(es);
      ValidAppend(es[..k], es[k].(vEnd := e.vEnd));
    }
  }

  lemma {:induction false} ValidAppend(es: seq<CGEntry>, e: CGEntry)
    requires ValidEntries(es) && e.version == NextLV(es) < e.vEnd && forall p | p in e.parents :: p < e.version
    ensures ValidEntries(es + [e])
  {
    var r := es + [e];
    forall i | 0 < i < |r|
      ensures r[i].version == r[i - 1].vEnd
    {
      if i < |es| { assert es[i].version == es[i - 1].vEnd; }
    }
  }

  lemma {:induction false} ValidInit(es: seq<CGEntry>)
    requires ValidEntries(es) && es != []
    ensures var k := |es| - 1; ValidEntries(es[..k]) && NextLV(es[..k]) == es[k].version < es[k].vEnd && forall p | p in es[k].parents :: p < es[k].version
  {
  }

  lemma {:induction false} PackedPush(es: seq<CGEntry>, e: CGEntry)
    requires PackedEntries(es)
    ensures PackedEntries(PushEntry(es, e))
  {
    var r := PushEntry(es, e);
    forall i | 0 < i < |r|
      ensures !TryAppendEntries(r[i - 1], r[i])
    {
      if i < |es| { assert !TryAppendEntries(es[i - 1], es[i]); }
    }
  }

  lemma {:induction false} PushMeans(es: seq<CGEntry>, e: CGEntry)
    requires ValidEntries(es) && e.version == NextLV(es) < e.vEnd && forall p | p in e.parents :: p < e.version
    ensures ValidEntries(PushEntry(es, e))
    ensures Expand(PushEntry(es, e)) == Expand(es) + Run(e) && RawIds(PushEntry(es, e)) == RawIds(es) + RunIds(e)
  {
    hide RawIds, Expand, ValidEntries, PushEntry, Run, RunIds, TryAppendEntries;
    ValidPush(es, e);
    if es != [] && TryAppendEntries(es[|es| - 1], e) {
      var k := |es| - 1;
      var joined := es[k].(vEnd := e.vEnd);
      SingleMeans(es[..k], es[k]);
      SingleMeans(es[..k], joined);
      JoinedRun(es[k], e);
      Glue(Expand(es[..k]), Run(es[k]), Run(e));
      Glue(RawIds(es[..k]), RunIds(es[k]), RunIds(e));
    } else {
      SingleMeans(es, e);
    }
  }

  // ---- The index ----

  type AgentMap = map<string, seq<ClientEntry>>

  /** The index and the versions say the same, in both directions. */
  ghost predicate Indexed(ids: seq<RawVersion>, m: AgentMap) {
    && (forall agent | agent in m :: Sorted(m[agent]) && PackedClient(m[agent]))
    && (forall agent, s: nat, v: nat | agent in m && Maps(m[agent], s, v) :: v < |ids| && ids[v] == RawVersion(agent, s))
    && (forall v | 0 <= v < |ids| :: ids[v].agent in m && Maps(m[ids[v].agent], ids[v].seqNo, v))
  }

  ghost predicate DistinctIds(ids: seq<RawVersion>) {
    forall v, w | 0 <= v < w < |ids| :: ids[v] != ids[w]
  }

  lemma {:induction false} IndexedDistinct(ids: seq<RawVersion>, m: AgentMap)
    requires Indexed(ids, m)
    ensures DistinctIds(ids)
  {
    forall v, w | 0 <= v < w < |ids|
      ensures ids[v] != ids[w]
    {
      if ids[v] == ids[w] {
        MapsOnce(m[ids[v].agent], ids[v].seqNo, v, w);
      }
    }
  }

  function EntriesOf(m: AgentMap, agent: string): seq<ClientEntry> {
    if agent in m then m[agent] else []
  }

  lemma {:induction false} IndexedEntries(ids: seq<RawVersion>, m: AgentMap, agent: string)
    requires Indexed(ids, m)
    ensures var av := EntriesOf(m, agent);
            && Sorted(av) && PackedClient(av)
            && forall s: nat, v: nat :: Maps(av, s, v) <==> v < |ids| && ids[v] == RawVersion(agent, s)
  {
  }

  /** A run of fresh IDs goes into the index. */
  lemma {:induction false} IndexedWith(ids: seq<RawVersion>, m: AgentMap, agent: string, e: ClientEntry, av': seq<ClientEntry>, ids': seq<RawVersion>)
    requires Indexed(ids, m) && e.seqStart < e.seqEnd && e.version == |ids|
    requires Sorted(av') && PackedClient(av')
    requires forall s: nat, v: nat :: Maps(av', s, v) <==> Maps(EntriesOf(m, agent), s, v) || EntryMaps(e, s, v)
    requires |ids'| == |ids| + (e.seqEnd - e.seqStart) && ids <= ids'
    requires forall v | |ids| <= v < |ids'| :: ids'[v] == RawVersion(agent, e.seqStart + (v - |ids|))
    ensures Indexed(ids', m[agent := av'])
  {
    hide Maps;
    IndexedEntries(ids, m, agent);
    var m' := m[agent := av'];
    forall a, s: nat, v: nat | a in m' && Maps(m'[a], s, v)
      ensures v < |ids'| && ids'[v] == RawVersion(a, s)
    {
      if a == agent && EntryMaps(e, s, v) {
      } else {
        assert Maps(EntriesOf(m, a), s, v);
        IndexedEntries(ids, m, a);
      }
    }
    forall v | 0 <= v < |ids'|
      ensures ids'[v].agent in m' && Maps(m'[ids'[v].agent], ids'[v].seqNo, v)
    {
      if v < |ids| {
        assert ids'[v] == ids[v];
        assert Maps(m[ids[v].agent], ids[v].seqNo, v);
      } else {
        assert EntryMaps(e, ids'[v].seqNo, v);
      }
    }
  }

  /** The list can take the new run: none of its IDs is there, and it is the newest. */
  lemma {:induction false} IndexedApart(ids: seq<RawVersion>, m: AgentMap, agent: string, e: ClientEntry)
    requires Indexed(ids, m) && e.seqStart < e.seqEnd && e.version == |ids|
    requires forall s | e.seqStart <= s < e.seqEnd :: RawVersion(agent, s) !in ids
    ensures Sorted(EntriesOf(m, agent)) && Apart(EntriesOf(m, agent), e) && Older(EntriesOf(m, agent), e)
  {
    IndexedEntries(ids, m, agent);
    var av := EntriesOf(m, agent);
    forall i | 0 <= i < |av|
      ensures e.seqEnd <= av[i].seqStart || av[i].seqEnd <= e.seqStart
      ensures av[i].version + (av[i].seqEnd - av[i].seqStart) <= e.version
    {
      var s := if av[i].seqStart <= e.seqStart then e.seqStart else av[i].seqStart;
      if s < e.seqEnd && s < av[i].seqEnd {
        assert EntryMaps(av[i], s, av[i].version + (s - av[i].seqStart));
        assert Maps(av, s, av[i].version + (s - av[i].seqStart));
      }
      assert EntryMaps(av[i], av[i].seqEnd - 1, av[i].version + (av[i].seqEnd - 1 - av[i].seqStart));
      assert Maps(av, av[i].seqEnd - 1, av[i].version + (av[i].seqEnd - 1 - av[i].seqStart));
    }
  }
}
