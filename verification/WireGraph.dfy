/** The causal graph that messages are merged into: agents by name, their runs of sequence numbers,
    the versions, and the frontier that has seen them all. */
module WireGraph {
  import opened Dag
  import opened Ranges
  import opened ListLog
  import opened AgentIndex
  import opened WireFormat
  import WireMaps
  import Dominators
  import Frontiers
  import GrowingGraph

  /** One agent's list maps its sequence numbers to its versions. */
  ghost predicate AgentIndexed(ids: seq<AgentVersion>, list: seq<ClientEntry>, agent: nat) {
    && Sorted(list) && PackedClient(list)
    && forall s: nat, v: nat :: Maps(list, s, v) <==> v < |ids| && ids[v] == AgentVersion(agent, s)
  }

  ghost predicate Below(parents: seq<nat>, n: nat) {
    forall p | p in parents :: p < n
  }

  /** None of the run is known. */
  ghost predicate Unknown(ids: seq<AgentVersion>, agent: nat, from: nat, upTo: nat) {
    forall x | from <= x < upTo :: AgentVersion(agent, x) !in ids
  }

  /** A list that maps what another maps, and a run besides. */
  ghost predicate Gains(list: seq<ClientEntry>, list': seq<ClientEntry>, e: ClientEntry) {
    forall s: nat, v: nat :: Maps(list', s, v) <==> Maps(list, s, v) || EntryMaps(e, s, v)
  }

  ghost predicate Indexed(ids: seq<AgentVersion>, lists: seq<seq<ClientEntry>>) {
    forall a | 0 <= a < |lists| :: AgentIndexed(ids, lists[a], a)
  }

  /** The frontier has seen everything. */
  ghost predicate SeesAll(g: Graph, vs: seq<nat>) {
    WellFormed(g) && Dominators.IsFrontier(g, vs) && forall v: nat | v < |g| :: v in Hist(g, vs)
  }

  class CausalGraph {
    var names: seq<Name>
    var lvForSeq: seq<seq<ClientEntry>>
    var clientWithLv: seq<AgentVersion>
    var graph: Graph
    const version: Frontiers.Frontier

    constructor ()
      ensures Valid() && Value() == Cg([], [], []) && fresh(version)
    {
      names, lvForSeq, clientWithLv, graph := [], [], [], [];
      version := new Frontiers.Frontier([]);
    }

    ghost function Value(): Cg
      reads this
    {
      Cg(names, clientWithLv, graph)
    }

    ghost predicate Valid()
      reads this, version
    {
      ValidCg(Value()) && |lvForSeq| == |names| && Indexed(clientWithLv, lvForSeq) && SeesAll(graph, version.vs)
    }

    /** The agent with a name, made if need be; None stands for the names that are refused. */
    method GetOrCreateAgentId(name: Name) returns (id: Option<nat>)
      requires Valid()
      modifies this
      ensures Valid() && clientWithLv == old(clientWithLv) && graph == old(graph)
      ensures id.None? <==> !GoodName(name)
      ensures id.None? ==> names == old(names)
      ensures id.Some? ==> (match IndexOf(old(names), name)
                            case Some(i) => id.value == i && names == old(names)
                            case None => id.value == |old(names)| && names == old(names) + [name])
    {
      hide IndexOf, Maps, SeesAll;
      if |name| >= MAX_AGENT_NAME_LENGTH || name == ROOT { return None; }
      var found := IndexOf(names, name);
      if found.Some? { return found; }
      id := Some(|names|);
      NoEntries(clientWithLv, |names|);
      names := names + [name];
      lvForSeq := lvForSeq + [[]];
    }

    method TryAgentVersionToLv(id: AgentVersion) returns (v: Option<nat>)
      requires Valid()
      ensures v == IndexOf(clientWithLv, id)
    {
      hide IndexOf, SeesAll, Maps;
      if id.agent >= |lvForSeq| {
        return None;
      }
      assert AgentIndexed(clientWithLv, lvForSeq[id.agent], id.agent);
      v := WireMaps.FindWithOffset(lvForSeq[id.agent], id.seqNo);
      IndexOfId(clientWithLv, id);
      if v.None? {
        forall w | 0 <= w < |clientWithLv|
          ensures clientWithLv[w] != id
        {
          assert !Maps(lvForSeq[id.agent], id.seqNo, w);
        }
      }
    }

    /** Puts a run of new versions on top of `parents`. */
    method PushSpan(agent: nat, list: seq<ClientEntry>, from: nat, upTo: nat, parents: seq<nat>)
      requires Valid() && agent < |names| && from < upTo && Below(parents, |clientWithLv|)
      requires Unknown(clientWithLv, agent, from, upTo)
      requires Sorted(list) && PackedClient(list)
      requires Gains(lvForSeq[agent], list, ClientEntry(from, upTo, |clientWithLv|))
      modifies this, version
      ensures Valid() && Value() == Pushed(old(Value()), agent, from, upTo, parents)
      ensures |clientWithLv| == old(|clientWithLv|) + (upTo - from)
    {
      hide Maps, EntryMaps, Gains, SeesAll, Sorted, PackedClient, Indexed;
      ghost var c, lists, vs0 := Value(), lvForSeq, version.vs;
      var timeStart := |clientWithLv|;
      var span := LVRange(timeStart, timeStart + (upTo - from));
      clientWithLv := clientWithLv + NewIds(agent, from, upTo);
      graph := graph + GrowingGraph.NewRun(timeStart, upTo - from, parents);
      lvForSeq := lvForSeq[agent := list];
      PushedValid(c, agent, from, upTo, parents);
      PushedIndexed(c, lists, agent, from, upTo, list);
      PushedFrontier(c.g, graph, parents, timeStart, upTo - from, version.vs);
      version.AdvanceByKnownRun(parents, span, graph);
      SeesAllAgain(c.g, vs0, graph, span, version.vs);
    }

    /** Puts a run of new versions into the gap before entry `idx` of the agent's list. */
    method PlaceSpan(agent: nat, idx: nat, from: nat, upTo: nat, parents: seq<nat>)
      requires Valid() && agent < |names| && from < upTo && Below(parents, |clientWithLv|)
      requires Unknown(clientWithLv, agent, from, upTo)
      requires FitsGap(lvForSeq[agent], idx, ClientEntry(from, upTo, |clientWithLv|))
      modifies this, version
      ensures Valid() && Value() == Pushed(old(Value()), agent, from, upTo, parents)
      ensures |clientWithLv| == old(|clientWithLv|) + (upTo - from)
    {
      hide Maps, EntryMaps, Gains, SeesAll, PackedClient, Indexed, AgentIndexed, FitsGap, ValidCg, Placed, Pushed, Below, Unknown;
      ListOf(Value(), lvForSeq, agent);
      var list, newEntry := lvForSeq[agent], ClientEntry(from, upTo, |clientWithLv|);
      assert Sorted(list) && idx <= |list| by { GapPlace(list, idx, newEntry); }
      PlacedMeans(list, idx, newEntry);
      PushSpan(agent, Placed(list, idx, newEntry), from, upTo, parents);
    }

    /** Records what is new of a run that may be known in part. */
    method MergeAndAssign(parents: seq<nat>, agent: nat, seqStart: nat, len: nat) returns (start: nat, count: nat)
      requires Valid() && agent < |names| && 0 < len && Below(parents, |clientWithLv|)
      modifies this, version
      ensures Valid() && Value() == Merge(old(Value()), parents, agent, seqStart, len)
      ensures start == old(|clientWithLv|) && count == |clientWithLv| - start
    {
      hide Maps, EntryMaps, Gains, SeesAll, PackedClient, Merge, NewFrom, Indexed, AgentIndexed, FitsGap, ValidCg, Pushed, ParentsAfter, Below, Unknown, Locate, Sorted;
      ghost var c := Value();
      var seqEnd := seqStart + len;
      start := |clientWithLv|;
      var list := lvForSeq[agent];
      ListOf(c, lvForSeq, agent);
      LocateMeans(list, seqEnd - 1);
      match Locate(list, seqEnd - 1, 0, |list|)
      case At(idx) =>
        AllKnown(c, list, parents, agent, seqStart, len, idx);
        count := 0;
      case Gap(idx) =>
        if idx >= 1 && list[idx - 1].seqEnd >= seqStart {
          var prev := list[idx - 1];
          KnownUpTo(c, list, parents, agent, seqStart, len, idx);
          count := seqEnd - prev.seqEnd;
          PlaceSpan(agent, idx, prev.seqEnd, seqEnd, ParentsAfter(prev, seqStart, parents));
        } else {
          NoneKnown(c, list, parents, agent, seqStart, len, idx);
          count := len;
          PlaceSpan(agent, idx, seqStart, seqEnd, parents);
        }
    }
  }

  lemma {:induction false} NoEntries(ids: seq<AgentVersion>, agent: nat)
    requires forall v | 0 <= v < |ids| :: ids[v].agent < agent
    ensures AgentIndexed(ids, [], agent)
  {
  }

  lemma {:induction false} IndexOfId(ids: seq<AgentVersion>, id: AgentVersion)
    requires Distinct(ids)
    ensures var v := IndexOf(ids, id);
            (v.None? <==> forall w | 0 <= w < |ids| :: ids[w] != id) && forall w | 0 <= w < |ids| && ids[w] == id :: v == Some(w)
  {
  }

  // ---- Growing ----

  ghost function Pushed(c: Cg, agent: nat, from: nat, upTo: nat, parents: seq<nat>): Cg
    requires from <= upTo
  {
    c.(ids := c.ids + NewIds(agent, from, upTo), g := c.g + GrowingGraph.NewRun(|c.g|, upTo - from, parents))
  }

  lemma {:induction false} PushedValid(c: Cg, agent: nat, from: nat, upTo: nat, parents: seq<nat>)
    requires ValidCg(c) && agent < |c.names| && from < upTo && Below(parents, |c.ids|)
    requires Unknown(c.ids, agent, from, upTo)
    ensures ValidCg(Pushed(c, agent, from, upTo, parents))
  {
    var ids' := c.ids + NewIds(agent, from, upTo);
    forall i, j | 0 <= i < j < |ids'|
      ensures ids'[i] != ids'[j]
    {
      if i < |c.ids| && j >= |c.ids| {
        assert c.ids[i] in c.ids;
      }
    }
  }

  lemma {:induction false} PushedIndexed(c: Cg, lists: seq<seq<ClientEntry>>, agent: nat, from: nat, upTo: nat, list: seq<ClientEntry>)
    requires Indexed(c.ids, lists) && agent < |lists| && from < upTo && Sorted(list) && PackedClient(list)
    requires Gains(lists[agent], list, ClientEntry(from, upTo, |c.ids|))
    ensures Indexed(c.ids + NewIds(agent, from, upTo), lists[agent := list])
  {
    hide Maps, Sorted, PackedClient;
    var ids' := c.ids + NewIds(agent, from, upTo);
    var lists' := lists[agent := list];
    forall a | 0 <= a < |lists'|
      ensures AgentIndexed(ids', lists'[a], a)
    {
      assert AgentIndexed(c.ids, lists[a], a);
      forall s: nat, v: nat
        ensures Maps(lists'[a], s, v) <==> v < |ids'| && ids'[v] == AgentVersion(a, s)
      {
      }
    }
  }

  lemma {:induction false} ReachesGrown(g: Graph, g': Graph, v: nat, x: nat)
    requires WellFormed(g) && WellFormed(g') && g <= g' && v < |g|
    ensures Reaches(g, v, x) <==> Reaches(g', v, x)
    decreases v
  {
    assert g'[v] == g[v];
    forall p | p in g[v]
      ensures Reaches(g, p, x) <==> Reaches(g', p, x)
    {
      ReachesGrown(g, g', p, x);
    }
  }

  lemma {:induction false} HistGrown(g: Graph, g': Graph, f: seq<nat>)
    requires WellFormed(g) && WellFormed(g') && g <= g' && InGraph(g, f)
    ensures InGraph(g', f) && Hist(g', f) == Hist(g, f)
  {
    hide Reaches;
    forall x: nat
      ensures InHist(g, f, x) <==> InHist(g', f, x)
    {
      forall v | v in f
        ensures Reaches(g, v, x) <==> Reaches(g', v, x)
      {
        ReachesGrown(g, g', v, x);
      }
    }
    forall x | x in Hist(g', f)
      ensures x in Hist(g, f)
    {
      InHistBound(g, f, x);
    }
  }

  /** The frontier of the graph before is ready to move over the run. */
  lemma {:induction false} PushedFrontier(g: Graph, g': Graph, parents: seq<nat>, start: nat, count: nat, vs: seq<nat>)
    requires SeesAll(g, vs) && WellFormed(g') && g' == g + GrowingGraph.NewRun(start, count, parents) && start == |g| && 0 < count
    requires Below(parents, |g|)
    ensures Frontiers.IsRun(g', parents, start, start + count) && Dominators.IsFrontier(g', vs)
    ensures Hist(g', vs) == Hist(g, vs)
    ensures (forall p | p in parents :: p in Hist(g', vs)) && Range(start, start + count) !! Hist(g', vs)
  {
    hide Reaches;
    Frontiers.FrontierInGraph(g, vs);
    HistGrown(g, g', vs);
    forall v, w | v in vs && w in vs
      ensures Reaches(g, v, w) <==> Reaches(g', v, w)
    {
      ReachesGrown(g, g', v, w);
    }
  }

  lemma {:induction false} SeesAllAgain(g: Graph, vs0: seq<nat>, g': Graph, span: LVRange, vs: seq<nat>)
    requires SeesAll(g, vs0) && WellFormed(g') && InGraph(g', vs0) && Dominators.IsFrontier(g', vs) && g <= g' && |g| == span.start <= span.end == |g'|
    requires Hist(g', vs0) == Hist(g, vs0) && Hist(g', vs) == Hist(g', vs0) + Range(span.start, span.end)
    ensures SeesAll(g', vs)
  {
    hide Hist;
  }

  // ---- What is known of a run ----

  lemma {:induction false} ListOf(c: Cg, lists: seq<seq<ClientEntry>>, agent: nat)
    requires ValidCg(c) && Indexed(c.ids, lists) && agent < |lists|
    ensures AgentIndexed(c.ids, lists[agent], agent) && Sorted(lists[agent]) && PackedClient(lists[agent])
  {
  }

  lemma {:induction false} NewFromIs(ids: seq<AgentVersion>, agent: nat, seqStart: nat, seqEnd: nat, k: nat)
    requires seqStart <= k <= seqEnd && (k > seqStart ==> AgentVersion(agent, k - 1) in ids)
    requires forall x | k <= x < seqEnd :: AgentVersion(agent, x) !in ids
    ensures NewFrom(ids, agent, seqStart, seqEnd) == k
    decreases seqEnd
  {
    if k < seqEnd { NewFromIs(ids, agent, seqStart, seqEnd - 1, k); }
  }

  lemma {:induction false} Unlisted(ids: seq<AgentVersion>, list: seq<ClientEntry>, agent: nat, lo: nat, hi: nat)
    requires AgentIndexed(ids, list, agent) && forall i | 0 <= i < |list| :: list[i].seqEnd <= lo || hi <= list[i].seqStart
    ensures forall x | lo <= x < hi :: AgentVersion(agent, x) !in ids
  {
    forall x, v | lo <= x < hi && 0 <= v < |ids|
      ensures ids[v] != AgentVersion(agent, x)
    {
      NotMapped(list, x, v);
    }
  }

  lemma {:induction false} NotMapped(list: seq<ClientEntry>, x: nat, v: nat)
    requires forall i | 0 <= i < |list| :: list[i].seqEnd <= x || x < list[i].seqStart
    ensures !Maps(list, x, v)
  {
  }

  lemma {:induction false} NewestRun(ids: seq<AgentVersion>, list: seq<ClientEntry>, agent: nat, e: ClientEntry)
    requires AgentIndexed(ids, list, agent) && e.version == |ids|
    ensures Sorted(list) && Older(list, e)
  {
    forall i | 0 <= i < |list|
      ensures list[i].version + (list[i].seqEnd - list[i].seqStart) <= e.version
    {
      WireMaps.RunMaps(list, i, list[i].seqEnd - 1);
    }
  }

  lemma {:induction false} KnownAt(c: Cg, list: seq<ClientEntry>, agent: nat, i: nat, x: nat)
    requires ValidCg(c) && AgentIndexed(c.ids, list, agent) && i < |list| && list[i].seqStart <= x < list[i].seqEnd
    ensures AgentVersion(agent, x) in c.ids && LvOf(c.ids, AgentVersion(agent, x)) == list[i].version + (x - list[i].seqStart) < |c.ids|
  {
    WireMaps.RunMaps(list, i, x);
    var v := list[i].version + (x - list[i].seqStart);
    assert c.ids[v] == AgentVersion(agent, x);
    IndexOfId(c.ids, AgentVersion(agent, x));
  }

  /** Case 1 of the source: the last ID is known, and so nothing is new. */
  lemma {:induction false} AllKnown(c: Cg, list: seq<ClientEntry>, parents: seq<nat>, agent: nat, seqStart: nat, len: nat, idx: nat)
    requires ValidCg(c) && AgentIndexed(c.ids, list, agent) && 0 < len
    requires idx < |list| && list[idx].seqStart <= seqStart + len - 1 < list[idx].seqEnd
    ensures Merge(c, parents, agent, seqStart, len) == c
  {
    hide NewFrom;
    KnownAt(c, list, agent, idx, seqStart + len - 1);
    NewFromIs(c.ids, agent, seqStart, seqStart + len, seqStart + len);
    assert NewIds(agent, seqStart + len, seqStart + len) == [];
    assert forall ps :: GrowingGraph.NewRun(|c.g|, 0, ps) == [];
  }

  /** The run goes into the gap before `idx`. */
  ghost predicate FitsGap(list: seq<ClientEntry>, idx: nat, e: ClientEntry) {
    && Sorted(list) && e.seqStart < e.seqEnd && Older(list, e) && Apart(list, e) && idx <= |list|
    && (forall i | 0 <= i < idx :: list[i].seqEnd <= e.seqStart) && (forall i | idx <= i < |list| :: e.seqEnd <= list[i].seqStart)
    && Spliced(list, idx, e) == list[..idx] + [e] + list[idx..]
  }

  /** The list with a run in the gap before `idx`, joined to the run before if it goes on from it. */
  function Placed(list: seq<ClientEntry>, idx: nat, e: ClientEntry): seq<ClientEntry>
    requires Sorted(list) && idx <= |list|
  {
    if idx > 0 && CanAppend(list[idx - 1], e) then list[idx - 1 := list[idx - 1].(seqEnd := e.seqEnd)]
    else list[..idx] + [e] + list[idx..]
  }

  lemma {:induction false} GapPlace(list: seq<ClientEntry>, idx: nat, e: ClientEntry)
    requires FitsGap(list, idx, e)
    ensures idx <= |list|
  {
  }

  lemma {:induction false} PlacedMeans(list: seq<ClientEntry>, idx: nat, e: ClientEntry)
    requires FitsGap(list, idx, e) && PackedClient(list)
    ensures Sorted(Placed(list, idx, e)) && PackedClient(Placed(list, idx, e))
    ensures Gains(list, Placed(list, idx, e), e)
  {
    hide Maps, EntryMaps, PackedClient;
    if idx > 0 && CanAppend(list[idx - 1], e) {
      ExtendedMeans(list, idx - 1, e);
    } else {
      SplicedMeans(list, idx, e);
    }
  }

  /** What goes after a run sits on the last version of what is known of it, if anything is. */
  function ParentsAfter(prev: ClientEntry, seqStart: nat, parents: seq<nat>): seq<nat>
    requires prev.seqStart < prev.seqEnd
  {
    if prev.seqEnd > seqStart then [prev.version + (prev.seqEnd - prev.seqStart) - 1] else parents
  }

  /** Case 3, and the run that starts where the last one ended: what is new begins at the end of the
      entry before the gap. */
  lemma {:induction false} KnownUpTo(c: Cg, list: seq<ClientEntry>, parents: seq<nat>, agent: nat, seqStart: nat, len: nat, idx: nat)
    requires ValidCg(c) && AgentIndexed(c.ids, list, agent) && 0 < len && 1 <= idx <= |list|
    requires (forall i | 0 <= i < idx :: list[i].seqEnd <= seqStart + len - 1) && (forall i | idx <= i < |list| :: seqStart + len - 1 < list[i].seqStart)
    requires list[idx - 1].seqEnd >= seqStart
    ensures list[idx - 1].seqStart < list[idx - 1].seqEnd
    ensures var k := list[idx - 1].seqEnd; var ps := ParentsAfter(list[idx - 1], seqStart, parents);
            && k < seqStart + len
            && Unknown(c.ids, agent, k, seqStart + len)
            && FitsGap(list, idx, ClientEntry(k, seqStart + len, |c.ids|))
            && Merge(c, parents, agent, seqStart, len) == Pushed(c, agent, k, seqStart + len, ps)
            && (Below(parents, |c.ids|) ==> Below(ps, |c.ids|))
  {
    hide NewFrom, ValidCg, Maps;
    var prev := list[idx - 1];
    assert prev.seqStart < prev.seqEnd;
    KnownAt(c, list, agent, idx - 1, prev.seqEnd - 1);
    forall i | 0 <= i < |list|
      ensures list[i].seqEnd <= prev.seqEnd || seqStart + len <= list[i].seqStart
    {
      if i < idx - 1 { assert list[i].seqEnd <= prev.seqStart; }
    }
    Unlisted(c.ids, list, agent, prev.seqEnd, seqStart + len);
    NewFromIs(c.ids, agent, seqStart, seqStart + len, prev.seqEnd);
    NewestRun(c.ids, list, agent, ClientEntry(prev.seqEnd, seqStart + len, |c.ids|));
  }

  /** Case 2: nothing of the run is known, and it does not go on from another. */
  lemma {:induction false} NoneKnown(c: Cg, list: seq<ClientEntry>, parents: seq<nat>, agent: nat, seqStart: nat, len: nat, idx: nat)
    requires ValidCg(c) && AgentIndexed(c.ids, list, agent) && 0 < len && idx <= |list|
    requires (forall i | 0 <= i < idx :: list[i].seqEnd <= seqStart + len - 1) && (forall i | idx <= i < |list| :: seqStart + len - 1 < list[i].seqStart)
    requires idx >= 1 ==> list[idx - 1].seqEnd < seqStart
    ensures Merge(c, parents, agent, seqStart, len) == Pushed(c, agent, seqStart, seqStart + len, parents)
    ensures Unknown(c.ids, agent, seqStart, seqStart + len)
    ensures FitsGap(list, idx, ClientEntry(seqStart, seqStart + len, |c.ids|))
  {
    hide NewFrom, ValidCg, Maps;
    WireMaps.EndsBelow(list[..idx]);
    assert forall i | 0 <= i < idx :: list[i] == list[..idx][i];
    Unlisted(c.ids, list, agent, seqStart, seqStart + len);
    NewFromIs(c.ids, agent, seqStart, seqStart + len, seqStart);
    NewestRun(c.ids, list, agent, ClientEntry(seqStart, seqStart + len, |c.ids|));
  }
}
