/** The mutable causal graph of causal-graph.ts and its `add`. */
module GrowingGraph {
  import opened Dag
  import opened RleGraph
  import opened ListLog
  import opened AgentIndex
  import opened GraphStore

  // ---- Heads ----

  ghost predicate Childless(g: Graph, v: nat) {
    v < |g| && forall w | v < w < |g| :: v !in g[w]
  }

  /** The heads are the versions nobody builds on, in ascending order. */
  ghost predicate IsHeads(g: Graph, heads: seq<nat>) {
    StrictlyAscending(heads) && forall v: nat :: v in heads <==> Childless(g, v)
  }

  /** The heads have every version in their history. */
  lemma {:induction false} HeadsReachAll(g: Graph, heads: seq<nat>)
    requires WellFormed(g) && IsHeads(g, heads)
    ensures InGraph(g, heads) && forall v: nat :: v in Hist(g, heads) <==> v < |g|
  {
    assert InGraph(g, heads) by {
      forall v | v in heads ensures v < |g| { assert Childless(g, v); }
    }
    forall v: nat | v < |g|
      ensures v in Hist(g, heads)
    {
      HeadAbove(g, heads, v);
    }
  }

  lemma {:induction false} HeadAbove(g: Graph, heads: seq<nat>, v: nat)
    requires WellFormed(g) && IsHeads(g, heads) && InGraph(g, heads) && v < |g|
    ensures v in Hist(g, heads)
    decreases |g| - v
  {
    HistClosed(g, heads);
    if !Childless(g, v) {
      var w :| v < w < |g| && v in g[w];
      HeadAbove(g, heads, w);
    } else {
      assert v in heads;
    }
  }

  function Without(frontier: seq<nat>, parents: seq<nat>): (r: seq<nat>)
    ensures forall v :: v in r <==> v in frontier && v !in parents
    ensures StrictlyAscending(frontier) ==> StrictlyAscending(r)
  {
    if frontier == [] then []
    else
      var k := |frontier| - 1;
      var r := Without(frontier[..k], parents);
      assert frontier == frontier[..k] + [frontier[k]];
      if frontier[k] in parents then r
      else
        assert StrictlyAscending(frontier) ==> forall i | 0 <= i < |r| :: r[i] in r && r[i] < frontier[k];
        r + [frontier[k]]
  }

  function SortUp(vs: seq<nat>): (r: seq<nat>)
    ensures StrictlyAscending(vs) ==> r == vs
    ensures forall v :: v in r <==> v in vs
  {
    if vs == [] then []
    else
      var k := |vs| - 1;
      assert vs == vs[..k] + [vs[k]];
      InsertUp(vs[k], SortUp(vs[..k]))
  }

  function InsertUp(x: nat, vs: seq<nat>): (r: seq<nat>)
    ensures StrictlyAscending(vs + [x]) ==> r == vs + [x]
    ensures forall v :: v in r <==> v == x || v in vs
  {
    if vs == [] || vs[|vs| - 1] <= x then vs + [x]
    else
      var k := |vs| - 1;
      assert vs == vs[..k] + [vs[k]];
      assert (vs + [x])[k] == vs[k] && (vs + [x])[k + 1] == x;
      InsertUp(x, vs[..k]) + [vs[k]]
  }

  function AdvanceFrontier(frontier: seq<nat>, vLast: nat, parents: seq<nat>): seq<nat> {
    SortUp(Without(frontier, parents) + [vLast])
  }

  /** The versions of a new run: the first on top of `parents`, each other on the one before. */
  function NewRun(version: nat, count: nat, parents: seq<nat>): (r: seq<seq<nat>>)
    ensures |r| == count
  {
    seq(count, k requires 0 <= k < count => if k == 0 then parents else [version + k - 1])
  }

  lemma {:induction false} HeadsAdvance(g: Graph, heads: seq<nat>, count: nat, parents: seq<nat>)
    requires IsHeads(g, heads) && count > 0 && forall p | p in parents :: p < |g|
    ensures IsHeads(g + NewRun(|g|, count, parents), AdvanceFrontier(heads, |g| + count - 1, parents))
  {
    hide Without, SortUp, StrictlyAscending;
    var g' := g + NewRun(|g|, count, parents);
    var vLast := |g| + count - 1;
    forall v: nat
      ensures Childless(g', v) <==> v == vLast || (Childless(g, v) && v !in parents)
    {
      RunChildless(g, count, parents, v);
    }
    StaysAscending(g, heads, vLast, parents);
  }

  lemma {:induction false} StaysAscending(g: Graph, heads: seq<nat>, vLast: nat, parents: seq<nat>)
    requires IsHeads(g, heads) && |g| <= vLast
    ensures StrictlyAscending(Without(heads, parents) + [vLast])
  {
    var kept := Without(heads, parents);
    forall i | 0 <= i < |kept|
      ensures kept[i] < vLast
    {
      assert kept[i] in kept;
      assert Childless(g, kept[i]);
    }
  }

  lemma {:induction false} RunChildless(g: Graph, count: nat, parents: seq<nat>, v: nat)
    requires count > 0 && forall p | p in parents :: p < |g|
    ensures Childless(g + NewRun(|g|, count, parents), v) <==> v == |g| + count - 1 || (Childless(g, v) && v !in parents)
  {
    var g' := g + NewRun(|g|, count, parents);
    var n := |g|;
    assert g'[n] == parents;
    assert forall w | n < w < n + count :: g'[w] == [w - 1];
    assert forall w | 0 <= w < n :: g'[w] == g[w];
    if n <= v < n + count - 1 {
      assert v in g'[v + 1];
    }
    if v < n && Childless(g, v) && v !in parents {
      forall w | v < w < |g'|
        ensures v !in g'[w]
      {
        if w < n { assert v !in g[w]; }
      }
    }
    if v < n && Childless(g', v) {
      assert v !in g'[n];
      forall w | v < w < n
        ensures v !in g[w]
      {
        assert v !in g'[w];
      }
    }
  }

  // ---- Adding ----

  /** The version with an ID that is known. */
  ghost function LvOf(ids: seq<RawVersion>, id: RawVersion): (v: nat)
    requires id in ids
    ensures v < |ids| && ids[v] == id
  {
    var v :| 0 <= v < |ids| && ids[v] == id; v
  }

  /** All IDs of the span are known. */
  ghost predicate AllKnown(ids: seq<RawVersion>, agent: string, seqStart: nat, seqEnd: nat) {
    forall s | seqStart <= s < seqEnd :: RawVersion(agent, s) in ids
  }

  lemma {:induction false} AllKnownJoin(ids: seq<RawVersion>, agent: string, lo: nat, mid: nat, hi: nat, cut: nat)
    requires lo <= mid <= hi && AllKnown(ids, agent, lo, mid) && AllKnown(ids, agent, mid, hi) && cut <= hi
    ensures AllKnown(ids, agent, lo, cut)
  {
  }

  lemma {:induction false} NothingToKnow(ids: seq<RawVersion>, agent: string, lo: nat)
    ensures AllKnown(ids, agent, lo, lo)
  {
  }

  /** The first sequence number of the span whose ID is not known, or its end. */
  ghost function FirstUnknown(ids: seq<RawVersion>, agent: string, seqStart: nat, seqEnd: nat): (k: nat)
    requires seqStart <= seqEnd
    ensures seqStart <= k <= seqEnd
    ensures AllKnown(ids, agent, seqStart, k)
    ensures k < seqEnd ==> RawVersion(agent, k) !in ids
    decreases seqEnd - seqStart
  {
    if seqStart == seqEnd || RawVersion(agent, seqStart) !in ids then seqStart
    else FirstUnknown(ids, agent, seqStart + 1, seqEnd)
  }

  /** What is known of the span is a prefix of it. */
  ghost predicate PrefixKnown(ids: seq<RawVersion>, agent: string, seqStart: nat, seqEnd: nat) {
    forall s, t | seqStart <= s < t < seqEnd && RawVersion(agent, t) in ids :: RawVersion(agent, s) in ids
  }

  /** The parents of the first version that is really new. */
  ghost function ParentsFrom(ids: seq<RawVersion>, agent: string, seqStart: nat, k: nat, parents: seq<nat>): seq<nat>
    requires seqStart <= k && AllKnown(ids, agent, seqStart, k)
  {
    if k == seqStart then parents else [LvOf(ids, RawVersion(agent, k - 1))]
  }

  ghost function NewIds(agent: string, seqStart: nat, seqEnd: nat): (r: seq<RawVersion>)
    requires seqStart <= seqEnd
    ensures |r| == seqEnd - seqStart
  {
    seq(seqEnd - seqStart, i requires 0 <= i < seqEnd - seqStart => RawVersion(agent, seqStart + i))
  }

  /** A run of the index tells the truth about the versions. */
  ghost predicate RunKnown(ids: seq<RawVersion>, agent: string, e: ClientEntry) {
    forall s: nat, v: nat | EntryMaps(e, s, v) :: v < |ids| && ids[v] == RawVersion(agent, s)
  }

  lemma {:induction false} NotListed(ids: seq<RawVersion>, agent: string, seqNo: nat, av: seq<ClientEntry>)
    requires forall s: nat, v: nat :: Maps(av, s, v) <==> v < |ids| && ids[v] == RawVersion(agent, s)
    requires forall v: nat :: !Maps(av, seqNo, v)
    ensures RawVersion(agent, seqNo) !in ids
  {
    hide Maps;
    forall v | 0 <= v < |ids|
      ensures ids[v] != RawVersion(agent, seqNo)
    {
      assert !Maps(av, seqNo, v);
    }
  }

  lemma {:induction false} TrimmedKnown(ids: seq<RawVersion>, agent: string, seqNo: nat, av: seq<ClientEntry>, idx: nat)
    requires forall s: nat, v: nat :: Maps(av, s, v) <==> v < |ids| && ids[v] == RawVersion(agent, s)
    requires idx < |av| && av[idx].seqStart <= seqNo < av[idx].seqEnd
    ensures RunKnown(ids, agent, ClientEntry(seqNo, av[idx].seqEnd, av[idx].version + (seqNo - av[idx].seqStart)))
    ensures RawVersion(agent, seqNo) in ids
  {
    var e := ClientEntry(seqNo, av[idx].seqEnd, av[idx].version + (seqNo - av[idx].seqStart));
    forall s: nat, v: nat | EntryMaps(e, s, v)
      ensures v < |ids| && ids[v] == RawVersion(agent, s)
    {
      assert EntryMaps(av[idx], s, v);
      assert Maps(av, s, v);
    }
    assert EntryMaps(e, seqNo, e.version);
  }

  class CausalGraph {
    var heads: seq<nat>
    var entries: seq<CGEntry>
    var agentToVersion: map<string, seq<ClientEntry>>

    constructor ()
      ensures Valid() && Ids() == [] && Parents() == [] && fresh(this)
    {
      heads, entries, agentToVersion := [], [], map[];
    }

    ghost predicate Valid()
      reads this
    {
      && ValidEntries(entries) && PackedEntries(entries)
      && Indexed(RawIds(entries), agentToVersion)
      && IsHeads(Expand(entries), heads)
    }

    ghost function Ids(): (r: seq<RawVersion>)
      requires Valid()
      reads this
    {
      RawIds(entries)
    }

    ghost function Parents(): Graph
      requires Valid()
      reads this
    {
      Expand(entries)
    }

    /** The rest of the run that contains an ID; None if it is not known. */
    method FindClientEntryTrimmed(agent: string, seqNo: nat) returns (e: Option<ClientEntry>)
      requires Valid()
      ensures e.None? <==> RawVersion(agent, seqNo) !in Ids()
      ensures e.Some? ==> e.value.seqStart == seqNo < e.value.seqEnd && RunKnown(Ids(), agent, e.value)
    {
      hide RawIds, Expand, ValidEntries, Indexed, Locate, Maps, Sorted, RunKnown;
      var av := EntriesOf(agentToVersion, agent);
      IndexedEntries(Ids(), agentToVersion, agent);
      LocateMeans(av, seqNo);
      match Locate(av, seqNo, 0, |av|)
      case Gap(_) =>
        NotListed(Ids(), agent, seqNo, av);
        e := None;
      case At(idx) =>
        var clientEntry := av[idx];
        var offset := seqNo - clientEntry.seqStart;
        TrimmedKnown(Ids(), agent, seqNo, av, idx);
        e := Some(ClientEntry(seqNo, clientEntry.seqEnd, clientEntry.version + offset));
    }

    /** Records a run of IDs that are all new. */
    method AddEntry(agent: string, seqStart: nat, seqEnd: nat, parents: seq<nat>) returns (entry: CGEntry)
      requires Valid() && seqStart < seqEnd && forall p | p in parents :: p < |Ids()|
      requires forall s | seqStart <= s < seqEnd :: RawVersion(agent, s) !in Ids()
      modifies this
      ensures Valid()
      ensures entry == CGEntry(old(|Ids()|), old(|Ids()|) + (seqEnd - seqStart), agent, seqStart, parents)
      ensures Ids() == old(Ids()) + NewIds(agent, seqStart, seqEnd)
      ensures Parents() == old(Parents()) + NewRun(old(|Ids()|), seqEnd - seqStart, parents)
    {
      hide RawIds, Expand, ValidEntries, PackedEntries, Indexed, IsHeads, PushEntry, AdvanceFrontier, Sorted, PackedClient, Maps, EntryMaps, Apart, Older;
      ghost var ids, g := Ids(), Parents();
      var version := NextLV(entries);
      ExpandLengthIs(entries);
      var len := seqEnd - seqStart;
      entry := CGEntry(version, version + len, agent, seqStart, parents);
      var clientEntry := ClientEntry(seqStart, seqEnd, version);
      PushMeans(entries, entry);
      PackedPush(entries, entry);
      RunIsNew(entry, seqEnd);
      entries := PushEntry(entries, entry);
      var av := EntriesOf(agentToVersion, agent);
      IndexedApart(ids, agentToVersion, agent, clientEntry);
      IndexedEntries(ids, agentToVersion, agent);
      var av' := InsertRleList(av, clientEntry);
      IndexedWith(ids, agentToVersion, agent, clientEntry, av', ids + NewIds(agent, seqStart, seqEnd));
      agentToVersion := agentToVersion[agent := av'];
      HeadsAdvance(g, heads, len, parents);
      heads := AdvanceFrontier(heads, version + len - 1, parents);
    }

    /** Trims what is known off the front of a span; `all` if nothing is left. */
    method TrimKnown(agent: string, seqStart0: nat, seqEnd: nat, parents0: seq<nat>) returns (all: bool, seqStart: nat, parents: seq<nat>)
      requires Valid() && seqStart0 < seqEnd && forall p | p in parents0 :: p < |Ids()|
      requires PrefixKnown(Ids(), agent, seqStart0, seqEnd)
      ensures all == (FirstUnknown(Ids(), agent, seqStart0, seqEnd) == seqEnd)
      ensures !all ==>
                && seqStart == FirstUnknown(Ids(), agent, seqStart0, seqEnd) < seqEnd
                && parents == ParentsFrom(Ids(), agent, seqStart0, seqStart, parents0)
                && (forall p | p in parents :: p < |Ids()|)
                && forall s | seqStart <= s < seqEnd :: RawVersion(agent, s) !in Ids()
    {
      hide RawIds, Expand, ValidEntries, PackedEntries, IsHeads, LvOf, FirstUnknown;
      ghost var ids := Ids();
      IndexedDistinct(ids, agentToVersion);
      hide Indexed, Valid, RunKnown, DistinctIds, AllKnown, PrefixKnown;
      all, seqStart, parents := false, seqStart0, parents0;
      NothingToKnow(ids, agent, seqStart0);
      while true
        invariant seqStart0 <= seqStart < seqEnd && !all
        invariant AllKnown(ids, agent, seqStart0, seqStart)
        invariant parents == ParentsFrom(ids, agent, seqStart0, seqStart, parents0)
        invariant forall p | p in parents :: p < |ids|
        decreases seqEnd - seqStart
      {
        var existing := FindClientEntryTrimmed(agent, seqStart);
        if existing.None? { break; }
        KnownRun(ids, agent, existing.value);
        AllKnownJoin(ids, agent, seqStart0, seqStart, existing.value.seqEnd, if existing.value.seqEnd < seqEnd then existing.value.seqEnd else seqEnd);
        if existing.value.seqEnd >= seqEnd {
          NothingUnknown(ids, agent, seqStart0, seqEnd);
          return true, seqStart, parents;
        }
        parents := [existing.value.version + (existing.value.seqEnd - existing.value.seqStart) - 1];
        seqStart := existing.value.seqEnd;
      }
      FirstUnknownIs(ids, agent, seqStart0, seqStart, seqEnd);
    }

    /** Adds the part of a span of IDs that is not known yet; None if all of it is known. */
    method Add(agent: string, seqStart0: nat, seqEnd: nat, parents0: seq<nat>) returns (entry: Option<CGEntry>)
      requires Valid() && seqStart0 < seqEnd && forall p | p in parents0 :: p < |Ids()|
      requires PrefixKnown(Ids(), agent, seqStart0, seqEnd)
      modifies this
      ensures Valid()
      ensures var ids := old(Ids());
              var k := FirstUnknown(ids, agent, seqStart0, seqEnd);
              if k == seqEnd then entry == None && unchanged(this)
              else
                var parents := ParentsFrom(ids, agent, seqStart0, k, parents0);
                && entry == Some(CGEntry(|ids|, |ids| + (seqEnd - k), agent, k, parents))
                && Ids() == ids + NewIds(agent, k, seqEnd)
                && Parents() == old(Parents()) + NewRun(|ids|, seqEnd - k, parents)
    {
      hide Valid, Ids, Parents, NewIds, NewRun, FirstUnknown;
      var all, seqStart, parents := TrimKnown(agent, seqStart0, seqEnd, parents0);
      if all { return None; }
      var added := AddEntry(agent, seqStart, seqEnd, parents);
      entry := Some(added);
    }
  }

  lemma {:induction false} KnownRun(ids: seq<RawVersion>, agent: string, e: ClientEntry)
    requires DistinctIds(ids) && e.seqStart < e.seqEnd && RunKnown(ids, agent, e)
    ensures AllKnown(ids, agent, e.seqStart, e.seqEnd) && RawVersion(agent, e.seqEnd - 1) in ids
    ensures LvOf(ids, RawVersion(agent, e.seqEnd - 1)) == e.version + (e.seqEnd - e.seqStart) - 1 < |ids|
  {
    forall s: nat | e.seqStart <= s < e.seqEnd
      ensures RawVersion(agent, s) in ids
    {
      var v := e.version + (s - e.seqStart);
      assert EntryMaps(e, s, v);
      assert ids[v] == RawVersion(agent, s);
    }
    var last := e.version + (e.seqEnd - e.seqStart) - 1;
    assert EntryMaps(e, e.seqEnd - 1, last);
    LvIs(ids, RawVersion(agent, e.seqEnd - 1), last);
  }

  lemma {:induction false} ExpandLengthIs(es: seq<CGEntry>)
    requires ValidEntries(es)
    ensures |Expand(es)| == NextLV(es) == |RawIds(es)|
  {
    ExpandLength(es);
  }

  lemma {:induction false} RunIsNew(e: CGEntry, seqEnd: nat)
    requires e.version < e.vEnd && seqEnd == e.seqStart + (e.vEnd - e.version)
    ensures Run(e) == NewRun(e.version, e.vEnd - e.version, e.parents)
    ensures RunIds(e) == NewIds(e.agent, e.seqStart, seqEnd)
    ensures forall i | 0 <= i < seqEnd - e.seqStart :: NewIds(e.agent, e.seqStart, seqEnd)[i] == RawVersion(e.agent, e.seqStart + i)
  {
  }

  lemma {:induction false} LvIs(ids: seq<RawVersion>, id: RawVersion, v: nat)
    requires DistinctIds(ids) && v < |ids| && ids[v] == id
    ensures LvOf(ids, id) == v
  {
  }

  lemma {:induction false} NothingUnknown(ids: seq<RawVersion>, agent: string, seqStart: nat, seqEnd: nat)
    requires seqStart <= seqEnd && AllKnown(ids, agent, seqStart, seqEnd)
    ensures FirstUnknown(ids, agent, seqStart, seqEnd) == seqEnd
  {
    hide FirstUnknown;
    var k := FirstUnknown(ids, agent, seqStart, seqEnd);
  }

  /** Past the first unknown ID of a span with a known prefix, nothing is known. */
  lemma {:induction false} FirstUnknownIs(ids: seq<RawVersion>, agent: string, seqStart: nat, k: nat, seqEnd: nat)
    requires PrefixKnown(ids, agent, seqStart, seqEnd) && seqStart <= k < seqEnd
    requires AllKnown(ids, agent, seqStart, k) && RawVersion(agent, k) !in ids
    ensures FirstUnknown(ids, agent, seqStart, seqEnd) == k
    ensures forall s | k <= s < seqEnd :: RawVersion(agent, s) !in ids
  {
    var f := FirstUnknown(ids, agent, seqStart, seqEnd);
  }
}
