/** What a replica knows, by agent and sequence number, and what two replicas have in common. */
module Summaries {
  import opened Dag
  import opened RleGraph
  import opened Ranges
  import opened ListLog
  import opened AgentIndex
  import opened GraphStore
  import opened GrowingGraph
  import Dominators

  lemma {:induction false} StoreFacts(cg: CausalGraph)
    requires cg.Valid()
    ensures WellFormed(cg.Parents()) && |cg.Parents()| == |cg.Ids()| == NextLV(cg.entries) && DistinctIds(cg.Ids())
    ensures ValidEntries(cg.entries) && cg.Parents() == Expand(cg.entries) && cg.Ids() == RawIds(cg.entries)
    ensures IsHeads(cg.Parents(), cg.heads)
  {
    ExpandWellFormed(cg.entries);
    IndexedDistinct(cg.Ids(), cg.agentToVersion);
  }

  // ---- Summaries ----

  type VersionSummary = map<string, seq<LVRange>>

  /** `pushRLEList` on ranges. */
  function PushRange(rs: seq<LVRange>, r: LVRange): seq<LVRange> {
    if rs != [] && rs[|rs| - 1].end == r.start
    then rs[|rs| - 1 := LVRange(rs[|rs| - 1].start, r.end)]
    else rs + [r]
  }

  ghost predicate NonEmptyRanges(rs: seq<LVRange>) {
    forall i | 0 <= i < |rs| :: rs[i].start < rs[i].end
  }

  lemma {:induction false} PushRangeMeans(rs: seq<LVRange>, r: LVRange)
    requires NonEmptyRanges(rs) && r.start < r.end
    ensures NonEmptyRanges(PushRange(rs, r))
    ensures forall x: nat :: InRanges(PushRange(rs, r), x) <==> InRanges(rs, x) || r.start <= x < r.end
  {
    var rs', k := PushRange(rs, r), |rs| - 1;
    forall x: nat
      ensures InRanges(rs', x) <==> InRanges(rs, x) || r.start <= x < r.end
    {
      if InRanges(rs', x) {
        var i :| 0 <= i < |rs'| && rs'[i].start <= x < rs'[i].end;
        if i <= k && rs[i].start <= x < rs[i].end { assert rs[i] in rs; }
      }
      if InRanges(rs, x) {
        var i :| 0 <= i < |rs| && rs[i].start <= x < rs[i].end;
        assert rs'[i] in rs';
      }
      if r.start <= x < r.end { assert rs'[|rs'| - 1] in rs'; }
    }
  }

  ghost predicate Summarises(summary: VersionSummary, ids: seq<RawVersion>) {
    && (forall agent | agent in summary :: NonEmptyRanges(summary[agent]))
    && (forall agent, s: nat | agent in summary && InRanges(summary[agent], s) :: RawVersion(agent, s) in ids)
    && (forall id | id in ids :: id.agent in summary && InRanges(summary[id.agent], id.seqNo))
  }

  ghost predicate Listed(av: seq<ClientEntry>, s: nat) {
    exists k :: 0 <= k < |av| && av[k].seqStart <= s < av[k].seqEnd
  }

  /** The sequence numbers of one agent, as ranges. */
  method SummarizeAgent(av: seq<ClientEntry>) returns (versions: seq<LVRange>)
    requires Sorted(av)
    ensures NonEmptyRanges(versions)
    ensures forall s: nat :: InRanges(versions, s) <==> Listed(av, s)
  {
    hide InRanges, NonEmptyRanges;
    versions := [];
    NoRanges();
    for i := 0 to |av|
      invariant NonEmptyRanges(versions)
      invariant forall s: nat :: InRanges(versions, s) <==> Listed(av[..i], s)
    {
      PushRangeMeans(versions, LVRange(av[i].seqStart, av[i].seqEnd));
      OneMoreListed(av, i);
      versions := PushRange(versions, LVRange(av[i].seqStart, av[i].seqEnd));
    }
    assert av[..|av|] == av;
  }

  lemma {:induction false} NoRanges()
    ensures NonEmptyRanges([]) && forall s: nat :: !InRanges([], s)
  {
  }

  lemma {:induction false} OneMoreListed(av: seq<ClientEntry>, i: nat)
    requires i < |av|
    ensures forall s: nat :: Listed(av[..i + 1], s) <==> Listed(av[..i], s) || av[i].seqStart <= s < av[i].seqEnd
  {
    forall s: nat
      ensures Listed(av[..i + 1], s) <==> Listed(av[..i], s) || av[i].seqStart <= s < av[i].seqEnd
    {
      if Listed(av[..i], s) {
        var k :| 0 <= k < |av[..i]| && av[..i][k].seqStart <= s < av[..i][k].seqEnd;
        assert av[..i + 1][k] == av[..i][k];
      }
      assert av[..i + 1][i] == av[i];
    }
  }

  lemma {:induction false} ListedMaps(av: seq<ClientEntry>, s: nat)
    requires Listed(av, s)
    ensures exists v: nat :: Maps(av, s, v)
  {
    var k :| 0 <= k < |av| && av[k].seqStart <= s < av[k].seqEnd;
    assert EntryMaps(av[k], s, av[k].version + (s - av[k].seqStart));
    assert Maps(av, s, av[k].version + (s - av[k].seqStart));
  }

  lemma {:induction false} MapsListed(av: seq<ClientEntry>, s: nat, v: nat)
    requires Maps(av, s, v)
    ensures Listed(av, s)
  {
  }

  method SummarizeVersion(cg: CausalGraph) returns (summary: VersionSummary)
    requires cg.Valid()
    ensures Summarises(summary, cg.Ids())
  {
    hide Maps, InRanges, NonEmptyRanges, RawIds, Expand, ValidEntries;
    summary := map[];
    var agents := cg.agentToVersion.Keys;
    ghost var ids := cg.Ids();
    while agents != {}
      invariant agents <= cg.agentToVersion.Keys
      invariant forall agent | agent in summary :: agent in cg.agentToVersion && agent !in agents && NonEmptyRanges(summary[agent])
      invariant forall agent, s: nat | agent in summary && InRanges(summary[agent], s) :: RawVersion(agent, s) in ids
      invariant forall id | id in ids :: id.agent in agents || (id.agent in summary && InRanges(summary[id.agent], id.seqNo))
      decreases |agents|
    {
      var k :| k in agents;
      agents := agents - {k};
      var av := cg.agentToVersion[k];
      IndexedEntries(ids, cg.agentToVersion, k);
      var versions := SummarizeAgent(av);
      AgentSummarised(ids, k, av, versions);
      if |av| != 0 {
        summary := summary[k := versions];
      } else {
        NothingListed(ids, k, av);
      }
    }
  }

  lemma {:induction false} NothingListed(ids: seq<RawVersion>, agent: string, av: seq<ClientEntry>)
    requires av == [] && forall s: nat, v: nat :: Maps(av, s, v) <==> v < |ids| && ids[v] == RawVersion(agent, s)
    ensures forall id | id in ids :: id.agent != agent
  {
    forall id | id in ids
      ensures id.agent != agent
    {
      var v :| 0 <= v < |ids| && ids[v] == id;
      assert !Maps(av, id.seqNo, v);
    }
  }

  lemma {:induction false} AgentSummarised(ids: seq<RawVersion>, agent: string, av: seq<ClientEntry>, versions: seq<LVRange>)
    requires forall s: nat, v: nat :: Maps(av, s, v) <==> v < |ids| && ids[v] == RawVersion(agent, s)
    requires forall s: nat :: InRanges(versions, s) <==> Listed(av, s)
    ensures forall s: nat :: InRanges(versions, s) <==> RawVersion(agent, s) in ids
  {
    hide Maps, InRanges, Listed;
    forall s: nat
      ensures InRanges(versions, s) <==> RawVersion(agent, s) in ids
    {
      if Listed(av, s) {
        ListedMaps(av, s);
        var v: nat :| Maps(av, s, v);
        assert ids[v] == RawVersion(agent, s);
      }
      if RawVersion(agent, s) in ids {
        var v :| 0 <= v < |ids| && ids[v] == RawVersion(agent, s);
        MapsListed(av, s, v);
      }
    }
  }

  // ---- Intersections ----

  /** Part of a summary: at versions from `version` on in the local graph, or not known to it. */
  datatype Overlap = Overlap(agent: string, start: nat, end: nat, version: Option<nat>)

  ghost predicate IsTrue(ids: seq<RawVersion>, o: Overlap) {
    && o.start < o.end
    && match o.version
       case Some(v) => RunKnown(ids, o.agent, ClientEntry(o.start, o.end, v))
       case None => forall s | o.start <= s < o.end :: RawVersion(o.agent, s) !in ids
  }

  /** The visits split the sequence numbers `[lo, hi)` of one agent, in order. */
  ghost predicate Splits(ids: seq<RawVersion>, visits: seq<Overlap>, agent: string, lo: nat, hi: nat) {
    && (if visits == [] then lo == hi else visits[0].start == lo && visits[|visits| - 1].end == hi)
    && (forall i | 0 < i < |visits| :: visits[i].start == visits[i - 1].end)
    && (forall i | 0 <= i < |visits| :: IsTrue(ids, visits[i]) && visits[i].agent == agent && visits[i].end <= hi)
  }

  lemma {:induction false} SplitsMore(ids: seq<RawVersion>, visits: seq<Overlap>, agent: string, lo: nat, mid: nat, o: Overlap)
    requires Splits(ids, visits, agent, lo, mid) && o.start == mid && o.agent == agent && IsTrue(ids, o)
    ensures Splits(ids, visits + [o], agent, lo, o.end)
  {
    hide IsTrue;
    var visits' := visits + [o];
    assert mid < o.end by { TrueNonEmpty(ids, o); }
    forall i | 0 <= i < |visits'|
      ensures IsTrue(ids, visits'[i]) && visits'[i].agent == agent && visits'[i].end <= o.end
    {
      if i < |visits| { assert visits'[i] == visits[i]; }
    }
  }

  lemma {:induction false} TrueNonEmpty(ids: seq<RawVersion>, o: Overlap)
    requires IsTrue(ids, o)
    ensures o.start < o.end
  {
  }

  lemma {:induction false} NoSplits(ids: seq<RawVersion>, agent: string, lo: nat)
    ensures Splits(ids, [], agent, lo, lo)
  {
  }

  lemma {:induction false} UnknownGap(ids: seq<RawVersion>, av: seq<ClientEntry>, agent: string, idx: nat, lo: nat, hi: nat)
    requires Sorted(av) && idx <= |av| && lo < hi
    requires forall s: nat, v: nat :: Maps(av, s, v) <==> v < |ids| && ids[v] == RawVersion(agent, s)
    requires (forall i | 0 <= i < idx :: av[i].seqEnd <= lo) && (forall i | idx <= i < |av| :: hi <= av[i].seqStart)
    ensures IsTrue(ids, Overlap(agent, lo, hi, None))
  {
    forall s: nat, v | lo <= s < hi && 0 <= v < |ids|
      ensures ids[v] != RawVersion(agent, s)
    {
      assert !Maps(av, s, v);
    }
  }

  lemma {:induction false} KnownPart(ids: seq<RawVersion>, av: seq<ClientEntry>, agent: string, idx: nat, lo: nat, hi: nat)
    requires forall s: nat, v: nat :: Maps(av, s, v) <==> v < |ids| && ids[v] == RawVersion(agent, s)
    requires idx < |av| && av[idx].seqStart <= lo < hi <= av[idx].seqEnd
    ensures IsTrue(ids, Overlap(agent, lo, hi, Some(av[idx].version + (lo - av[idx].seqStart))))
  {
    var e := ClientEntry(lo, hi, av[idx].version + (lo - av[idx].seqStart));
    forall s: nat, v: nat | EntryMaps(e, s, v)
      ensures v < |ids| && ids[v] == RawVersion(agent, s)
    {
      assert EntryMaps(av[idx], s, v);
      assert Maps(av, s, v);
    }
  }

  /** Splits one range of a summary into what the graph knows and what it does not. */
  method IntersectRange(cg: CausalGraph, agent: string, startSeq0: nat, endSeq: nat) returns (visits: seq<Overlap>)
    requires cg.Valid() && startSeq0 < endSeq
    ensures Splits(cg.Ids(), visits, agent, startSeq0, endSeq)
  {
    hide Splits, IsTrue, Maps, Sorted, Locate, Indexed, RawIds, Expand, ValidEntries;
    ghost var ids := cg.Ids();
    var clientEntries := EntriesOf(cg.agentToVersion, agent);
    IndexedEntries(ids, cg.agentToVersion, agent);
    SortedMeans(clientEntries);
    var startSeq: nat := startSeq0;
    var found := Locate(clientEntries, startSeq, 0, |clientEntries|);
    var idx := found.idx;
    visits := [];
    NoSplits(ids, agent, startSeq0);
    while idx < |clientEntries|
      invariant idx <= |clientEntries| && startSeq <= endSeq && Splits(ids, visits, agent, startSeq0, startSeq)
      invariant startSeq < endSeq ==> forall i | 0 <= i < idx :: clientEntries[i].seqEnd <= startSeq
      invariant forall i | idx <= i < |clientEntries| :: startSeq < clientEntries[i].seqEnd
      invariant startSeq == endSeq ==> forall i | idx <= i < |clientEntries| :: endSeq <= clientEntries[i].seqStart
    {
      var ce := clientEntries[idx];
      if ce.seqStart >= endSeq { break; }
      if ce.seqStart > startSeq {
        UnknownGap(ids, clientEntries, agent, idx, startSeq, ce.seqStart);
        SplitsMore(ids, visits, agent, startSeq0, startSeq, Overlap(agent, startSeq, ce.seqStart, None));
        visits := visits + [Overlap(agent, startSeq, ce.seqStart, None)];
        startSeq := ce.seqStart;
      }
      var seqOffset := startSeq - ce.seqStart;
      var versionStart := ce.version + seqOffset;
      var localSeqEnd := if ce.seqEnd < endSeq then ce.seqEnd else endSeq;
      KnownPart(ids, clientEntries, agent, idx, startSeq, localSeqEnd);
      SplitsMore(ids, visits, agent, startSeq0, startSeq, Overlap(agent, startSeq, localSeqEnd, Some(versionStart)));
      visits := visits + [Overlap(agent, startSeq, localSeqEnd, Some(versionStart))];
      startSeq := localSeqEnd;
      idx := idx + 1;
    }
    if startSeq < endSeq {
      UnknownGap(ids, clientEntries, agent, idx, startSeq, endSeq);
      SplitsMore(ids, visits, agent, startSeq0, startSeq, Overlap(agent, startSeq, endSeq, None));
      visits := visits + [Overlap(agent, startSeq, endSeq, None)];
    }
  }

  lemma {:induction false} SortedMeans(av: seq<ClientEntry>)
    requires Sorted(av)
    ensures (forall i | 0 <= i < |av| :: av[i].seqStart < av[i].seqEnd)
    ensures (forall i, j | 0 <= i < j < |av| :: av[i].seqEnd <= av[j].seqStart)
  {
  }

  // ---- Common versions ----

  ghost predicate Known(summary: VersionSummary, id: RawVersion) {
    id.agent in summary && InRanges(summary[id.agent], id.seqNo)
  }

  lemma {:induction false} InHistMore(g: Graph, f: seq<nat>, f': seq<nat>, x: nat)
    requires WellFormed(g) && InGraph(g, f) && InGraph(g, f') && (forall v | v in f :: v in f') && InHist(g, f, x)
    ensures InHist(g, f', x)
  {
    var v :| v in f && Reaches(g, v, x);
    assert v in f';
  }

  lemma {:induction false} SliceReaches(g: Graph, x: nat, v: nat)
    requires WellFormed(g) && x <= v < |g| && forall w | x < w <= v :: g[w] == [w - 1]
    ensures Reaches(g, v, x)
    decreases v
  {
    if x < v {
      SliceReaches(g, x, v - 1);
      assert v - 1 in g[v];
    }
  }

  lemma {:induction false} InSomeSlice(es: seq<CGEntry>, out: seq<CGEntry>, vStart: nat, vEnd: nat, v: nat, k: nat) returns (i: nat)
    requires ValidEntries(es) && vEnd <= NextLV(es) && Slices(es, out, vStart, vEnd) && vStart <= v < vEnd
    requires k <= |out| && (if k < |out| then v < out[k].version else true) && out != []
    ensures i < |out| && out[i].version <= v < out[i].vEnd
    decreases k
  {
    hide IsSlice;
    if k == 0 {
      assert false;
    } else if out[k - 1].version <= v {
      i := k - 1;
    } else {
      i := InSomeSlice(es, out, vStart, vEnd, v, k - 1);
    }
  }

  /** Adds the last version of each run between two versions: between them they reach all of it. */
  method PushLastVersions(es: seq<CGEntry>, versions0: seq<nat>, vStart: nat, vEnd: nat) returns (versions: seq<nat>)
    requires ValidEntries(es) && vStart <= vEnd <= NextLV(es) && WellFormed(Expand(es)) && InGraph(Expand(es), versions0)
    ensures InGraph(Expand(es), versions)
    ensures forall x | x in versions :: x in versions0 || vStart <= x < vEnd
    ensures forall x | x in versions0 :: x in versions
    ensures forall v: nat | vStart <= v < vEnd :: InHist(Expand(es), versions, v)
  {
    hide Expand, Reaches, ValidEntries, Slices, IsSlice;
    ExpandLength(es);
    var pieces := IterVersionsBetween(es, vStart, vEnd);
    SlicesInside(es, pieces, vStart, vEnd);
    versions := versions0;
    for i := 0 to |pieces|
      invariant InGraph(Expand(es), versions)
      invariant forall x | x in versions :: x in versions0 || vStart <= x < vEnd
      invariant forall x | x in versions0 :: x in versions
      invariant forall k | 0 <= k < i :: pieces[k].vEnd - 1 in versions
    {
      versions := versions + [pieces[i].vEnd - 1];
    }
    forall v: nat | vStart <= v < vEnd
      ensures InHist(Expand(es), versions, v)
    {
      LastReaches(es, pieces, vStart, vEnd, versions, v);
    }
  }

  lemma {:induction false} SlicesInside(es: seq<CGEntry>, pieces: seq<CGEntry>, vStart: nat, vEnd: nat)
    requires ValidEntries(es) && vEnd <= NextLV(es) && Slices(es, pieces, vStart, vEnd)
    ensures forall k | 0 <= k < |pieces| :: vStart <= pieces[k].version < pieces[k].vEnd <= vEnd
  {
    hide Expand, LvToRaw;
  }

  lemma {:induction false} LastReaches(es: seq<CGEntry>, pieces: seq<CGEntry>, vStart: nat, vEnd: nat, versions: seq<nat>, v: nat)
    requires ValidEntries(es) && vEnd <= NextLV(es) == |Expand(es)| && Slices(es, pieces, vStart, vEnd) && vStart <= v < vEnd
    requires WellFormed(Expand(es)) && InGraph(Expand(es), versions) && forall k | 0 <= k < |pieces| :: pieces[k].vEnd - 1 in versions
    ensures InHist(Expand(es), versions, v)
  {
    hide Expand, LvToRaw, Reaches;
    var i := InSomeSlice(es, pieces, vStart, vEnd, v, |pieces|);
    assert IsSlice(es, pieces[i]);
    SliceReaches(Expand(es), v, pieces[i].vEnd - 1);
  }

  /** Everything known on both sides is in the history of the versions collected so far. */
  ghost predicate Collected(g: Graph, ids: seq<RawVersion>, versions: seq<nat>, id: RawVersion) {
    WellFormed(g) && InGraph(g, versions) && forall v: nat | v < |ids| && ids[v] == id :: InHist(g, versions, v)
  }

  /** Collects the versions of one summary range. */
  method CollectRange(cg: CausalGraph, agent: string, range: LVRange, versions0: seq<nat>, ghost summary: VersionSummary) returns (versions: seq<nat>)
    requires cg.Valid() && range.start < range.end
    requires WellFormed(cg.Parents()) && InGraph(cg.Parents(), versions0)
    requires forall s: nat | range.start <= s < range.end :: Known(summary, RawVersion(agent, s))
    ensures InGraph(cg.Parents(), versions)
    ensures forall x | x in versions0 :: x in versions
    ensures forall x | x in versions :: x in versions0 || (x < |cg.Ids()| && Known(summary, cg.Ids()[x]))
    ensures forall s: nat | range.start <= s < range.end :: Collected(cg.Parents(), cg.Ids(), versions, RawVersion(agent, s))
  {
    hide Splits, IsTrue, RawIds, Expand, ValidEntries, Known, Collected, WellFormed, Indexed;
    ghost var g, ids := cg.Parents(), cg.Ids();
    StoreFacts(cg);
    var visits := IntersectRange(cg, agent, range.start, range.end);
    SplitsInside(ids, visits, agent, range.start, range.end);
    versions := versions0;
    var i: nat := 0;
    ghost var at: nat := range.start;
    while i < |visits|
      invariant i <= |visits| && range.start <= at <= range.end && at == if i < |visits| then visits[i].start else range.end
      invariant InGraph(g, versions)
      invariant forall x | x in versions0 :: x in versions
      invariant forall x | x in versions :: x in versions0 || (x < |ids| && Known(summary, ids[x]))
      invariant forall s: nat | range.start <= s < at :: Collected(g, ids, versions, RawVersion(agent, s))
    {
      var o := visits[i];
      ghost var before := versions;
      if o.version.Some? {
        OverlapVersions(cg, o, summary);
        versions := PushLastVersions(cg.entries, versions, o.version.value, o.version.value + (o.end - o.start));
      }
      forall s: nat | range.start <= s < o.end
        ensures Collected(g, ids, versions, RawVersion(agent, s))
      {
        if s < at {
          CollectedMore(g, ids, before, versions, RawVersion(agent, s));
        } else {
          NowCollected(g, ids, versions, o, s);
        }
      }
      at := o.end;
      i := i + 1;
    }
  }

  lemma {:induction false} SplitsInside(ids: seq<RawVersion>, visits: seq<Overlap>, agent: string, lo: nat, hi: nat)
    requires Splits(ids, visits, agent, lo, hi) && lo < hi
    ensures visits != [] && visits[0].start == lo
    ensures forall i | 0 <= i < |visits| :: IsTrue(ids, visits[i]) && visits[i].agent == agent && visits[i].start < visits[i].end <= hi
    ensures forall i | 0 <= i < |visits| :: visits[i].end == if i + 1 < |visits| then visits[i + 1].start else hi
  {
    hide RunKnown;
  }

  lemma {:induction false} CollectedMore(g: Graph, ids: seq<RawVersion>, versions: seq<nat>, versions': seq<nat>, id: RawVersion)
    requires Collected(g, ids, versions, id) && InGraph(g, versions') && forall x | x in versions :: x in versions'
    ensures Collected(g, ids, versions', id)
  {
    forall v: nat | v < |ids| && ids[v] == id
      ensures InHist(g, versions', v)
    {
      InHistMore(g, versions, versions', v);
    }
  }

  lemma {:induction false} NowCollected(g: Graph, ids: seq<RawVersion>, versions: seq<nat>, o: Overlap, s: nat)
    requires WellFormed(g) && InGraph(g, versions) && IsTrue(ids, o) && o.start <= s < o.end && DistinctIds(ids)
    requires o.version.Some? ==> forall v: nat | o.version.value <= v < o.version.value + (o.end - o.start) :: InHist(g, versions, v)
    ensures Collected(g, ids, versions, RawVersion(o.agent, s))
  {
    if o.version.Some? {
      var v := o.version.value + (s - o.start);
      assert EntryMaps(ClientEntry(o.start, o.end, o.version.value), s, v);
    }
  }

  lemma {:induction false} OverlapVersions(cg: CausalGraph, o: Overlap, summary: VersionSummary)
    requires cg.Valid() && IsTrue(cg.Ids(), o) && o.version.Some?
    requires forall s: nat | o.start <= s < o.end :: Known(summary, RawVersion(o.agent, s))
    ensures o.version.value + (o.end - o.start) <= |cg.Ids()|
    ensures forall v: nat | o.version.value <= v < o.version.value + (o.end - o.start) :: Known(summary, cg.Ids()[v])
  {
    hide Known;
    var e := ClientEntry(o.start, o.end, o.version.value);
    assert EntryMaps(e, o.end - 1, o.version.value + (o.end - o.start) - 1);
    forall v: nat | o.version.value <= v < o.version.value + (o.end - o.start)
      ensures v < |cg.Ids()| && Known(summary, cg.Ids()[v])
    {
      assert EntryMaps(e, o.start + (v - o.version.value), v);
    }
  }

  /** `h` is the least ancestor-closed set that contains `s`. */
  ghost predicate LeastClosed(g: Graph, s: set<nat>, h: set<nat>) {
    Closed(g, h) && s <= h && forall t: set<nat> | Closed(g, t) && s <= t :: h <= t
  }

  lemma {:induction false} LeastOfClosed(g: Graph, s: set<nat>, h: set<nat>)
    requires LeastClosed(g, s, h) && Closed(g, s)
    ensures h == s
  {
    hide Closed;
  }

  /** Everything both sides know, as a frontier of the local graph, with its ancestors if they are not listed. */
  method IntersectWithSummary(cg: CausalGraph, summary: VersionSummary) returns (common: seq<nat>)
    requires cg.Valid() && WellFormed(cg.Parents()) && forall agent | agent in summary :: NonEmptyRanges(summary[agent])
    ensures InGraph(cg.Parents(), common) && LeastClosed(cg.Parents(), KnownVersions(summary, cg.Ids()), Hist(cg.Parents(), common))
  {
    hide RawIds, Expand, ValidEntries, Known, Collected, WellFormed, Indexed, InRanges, NonEmptyRanges, Hist, LeastClosed, KnownVersions;
    ghost var g, ids := cg.Parents(), cg.Ids();
    StoreFacts(cg);
    var versions: seq<nat> := [];
    var agents := summary.Keys;
    while agents != {}
      invariant agents <= summary.Keys && InGraph(g, versions)
      invariant forall x | x in versions :: x < |ids| && Known(summary, ids[x])
      invariant forall agent, s: nat | agent in summary && agent !in agents && InRanges(summary[agent], s) ::
                  Collected(g, ids, versions, RawVersion(agent, s))
      decreases |agents|
    {
      var agent :| agent in agents;
      agents := agents - {agent};
      ghost var before := versions;
      versions := CollectAgent(cg, agent, summary[agent], versions, summary);
      forall a, s: nat | a in summary && a !in agents && InRanges(summary[a], s)
        ensures Collected(g, ids, versions, RawVersion(a, s))
      {
        if a != agent {
          CollectedMore(g, ids, before, versions, RawVersion(a, s));
        }
      }
    }
    CommonIs(g, ids, summary, versions);
    common := Dominators.FindDominators(cg.entries, versions);
  }

  /** The versions whose IDs the summary lists. */
  ghost function KnownVersions(summary: VersionSummary, ids: seq<RawVersion>): set<nat> {
    set v: nat | v < |ids| && Known(summary, ids[v])
  }

  lemma {:induction false} CommonIs(g: Graph, ids: seq<RawVersion>, summary: VersionSummary, versions: seq<nat>)
    requires WellFormed(g) && InGraph(g, versions) && |g| == |ids|
    requires forall x | x in versions :: x < |ids| && Known(summary, ids[x])
    requires forall agent, s: nat | agent in summary && InRanges(summary[agent], s) :: Collected(g, ids, versions, RawVersion(agent, s))
    ensures LeastClosed(g, KnownVersions(summary, ids), Hist(g, versions))
  {
    HistClosed(g, versions);
    forall t: set<nat> | Closed(g, t) && KnownVersions(summary, ids) <= t
      ensures Hist(g, versions) <= t
    {
      HistLeast(g, versions, t);
    }
    forall v | v in KnownVersions(summary, ids)
      ensures v in Hist(g, versions)
    {
      assert Collected(g, ids, versions, RawVersion(ids[v].agent, ids[v].seqNo));
    }
  }

  /** Collects the versions of one agent's ranges. */
  method CollectAgent(cg: CausalGraph, agent: string, ranges: seq<LVRange>, versions0: seq<nat>, ghost summary: VersionSummary) returns (versions: seq<nat>)
    requires cg.Valid() && agent in summary && summary[agent] == ranges && NonEmptyRanges(ranges)
    requires WellFormed(cg.Parents()) && InGraph(cg.Parents(), versions0)
    requires forall x | x in versions0 :: x < |cg.Ids()| && Known(summary, cg.Ids()[x])
    ensures InGraph(cg.Parents(), versions)
    ensures forall x | x in versions0 :: x in versions
    ensures forall x | x in versions :: x < |cg.Ids()| && Known(summary, cg.Ids()[x])
    ensures forall s: nat | InRanges(ranges, s) :: Collected(cg.Parents(), cg.Ids(), versions, RawVersion(agent, s))
  {
    hide RawIds, Expand, ValidEntries, Collected, WellFormed, Indexed;
    ghost var g, ids := cg.Parents(), cg.Ids();
    versions := versions0;
    for i := 0 to |ranges|
      invariant InGraph(g, versions)
      invariant forall x | x in versions0 :: x in versions
      invariant forall x | x in versions :: x < |ids| && Known(summary, ids[x])
      invariant forall k, s: nat | 0 <= k < i && ranges[k].start <= s < ranges[k].end :: Collected(g, ids, versions, RawVersion(agent, s))
    {
      ghost var before := versions;
      forall s: nat | ranges[i].start <= s < ranges[i].end
        ensures Known(summary, RawVersion(agent, s))
      {
        assert ranges[i] in ranges;
      }
      versions := CollectRange(cg, agent, ranges[i], versions, summary);
      forall k, s: nat | 0 <= k < i && ranges[k].start <= s < ranges[k].end
        ensures Collected(g, ids, versions, RawVersion(agent, s))
      {
        CollectedMore(g, ids, before, versions, RawVersion(agent, s));
      }
    }
  }
}
