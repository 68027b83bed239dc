/** Sending what another replica may lack, as bytes. */
module WireSync {
  import opened Dag
  import opened Ranges
  import opened RleGraph
  import opened Varint
  import opened WireFormat
  import opened WireMerge
  import opened WireUnion
  import Diff
  import Dominators
  import Frontiers
  import WireRoundTrip
  import WireGraph
  import WireWriter
  import WireReader

  /** A graph that knows no more IDs than before is the graph from before. */
  lemma {:induction false} NothingNew(c0: Cg, c: Cg)
    requires ValidCg(c0) && ValidCg(c) && Extends(c0, c) && Facts(c) == Facts(c0)
    ensures c.ids == c0.ids && c.g == c0.g
  {
    hide Facts;
    var n := |c0.ids|;
    if n < |c.ids| {
      FactsAt(c, n);
      var u := VersionOf(c0, NamedId(c, n));
      KeptFact(c0, c, u);
      SameNamed(c, u, n);
    }
  }

  lemma {:induction false} SameNamed(c: Cg, u: nat, v: nat)
    requires ValidCg(c) && u < |c.ids| && v < |c.ids| && NamedId(c, u) == NamedId(c, v)
    ensures u == v
  {
    assert c.ids[u].agent == c.ids[v].agent;
  }

  // ---- What lies outside a frontier's history ----

  /** One entry for each version. */
  function SingleEntries(g: Graph): (es: seq<CGEntry>)
    ensures |es| == |g| && forall v | 0 <= v < |g| :: es[v] == CGEntry(v, v + 1, "", 0, g[v])
  {
    seq(|g|, v requires 0 <= v < |g| => CGEntry(v, v + 1, "", 0, g[v]))
  }

  lemma {:induction false} SinglesExpand(g: Graph)
    requires WellFormed(g)
    ensures ValidEntries(SingleEntries(g)) && Expand(SingleEntries(g)) == g
  {
    hide Expand;
    var es := SingleEntries(g);
    ExpandLength(es);
    forall v | 0 <= v < |g|
      ensures Expand(es)[v] == g[v]
    {
      ExpandAt(es, v, v);
    }
  }

  lemma {:induction false} NoRanges(rs: seq<LVRange>)
    requires Ascending(rs) && forall x: nat :: !InRanges(rs, x)
    ensures rs == []
  {
    assert rs == [] || rs[0].start < rs[0].end;
    assert rs == [] || InRanges(rs, rs[0].start);
  }

  /** `diff_since`: the versions that the graph has and a frontier has not seen. */
  method DiffSince(cg: WireGraph.CausalGraph, frontier: seq<nat>) returns (ranges: seq<LVRange>)
    requires cg.Valid() && InGraph(cg.graph, frontier)
    ensures WellFormed(cg.graph) && Ascending(ranges)
    ensures forall x: nat :: InRanges(ranges, x) <==> x < |cg.graph| && x !in Hist(cg.graph, frontier)
  {
    hide Expand, InHist, Dominators.IsFrontier;
    ghost var g := cg.graph;
    SinglesExpand(g);
    Frontiers.FrontierInGraph(g, cg.version.vs);
    var onlyA;
    onlyA, ranges := Diff.Diff(SingleEntries(cg.graph), frontier, cg.version.vs);
    forall x: nat
      ensures InHist(g, cg.version.vs, x) <==> x < |g|
      ensures InHist(g, frontier, x) <==> x in Hist(g, frontier)
    {
      if x < |g| { assert x in Hist(g, cg.version.vs); }
      if InHist(g, frontier, x) { InHistBound(g, frontier, x); }
      if InHist(g, cg.version.vs, x) { InHistBound(g, cg.version.vs, x); }
    }
    NoRanges(onlyA);
    assert onlyA == [];
  }

  /** `serialize_changes_since` on one replica and `merge_serialized_changes` on another that has
      everything up to `frontier`, and whatever else: every byte is read, and the other ends up with
      what either knew. */
  method SendChanges(from: WireGraph.CausalGraph, dest: WireGraph.CausalGraph, frontier: seq<nat>) returns (msg: Bytes, ok: bool)
    requires from.Valid() && dest.Valid() && from != dest && from.version != dest.version
    requires WireRoundTrip.Fits(from.Value()) && FactsAgree(from.Value(), dest.Value()) && InGraph(from.graph, frontier)
    requires forall v | v in Hist(from.graph, frontier) :: NamedId(from.Value(), v) in Facts(dest.Value())
    modifies dest, dest.version
    ensures from.Valid() && dest.Valid() && ok
    ensures Facts(dest.Value()) == old(Facts(dest.Value())) + Facts(from.Value())
    ensures old(dest.clientWithLv) <= dest.clientWithLv && old(dest.graph) <= dest.graph
    ensures (forall id | id in Facts(from.Value()) :: id in old(Facts(dest.Value()))) ==> dest.clientWithLv == old(dest.clientWithLv) && dest.graph == old(dest.graph)
  {
    hide Facts, ValidCg, WireGraph.SeesAll, WireGraph.Indexed, ReadAll, WriteAll, Cuts, WireWriter.CutAll, FactsAgree, NamedId, WireRoundTrip.Fits;
    ghost var s, c := from.Value(), dest.Value();
    ghost var d := Lacking(s, frontier);
    Sizes(s);
    var ranges := DiffSince(from, frontier);
    msg := WireWriter.SerializeChanges(from, ranges, d);
    ghost var es := WireWriter.CutAll(s, ranges);
    forall v: nat | v < |s.ids| && v !in d
      ensures NamedId(s, v) in Facts(c)
    {
    }
    SerialisedUnion(s, es, c, d);
    ok := WireReader.MergeSerializedChanges(dest, msg);
    AllThere(c, s, dest.Value());
  }

  /** The versions outside the frontier's history. */
  ghost function Lacking(s: Cg, frontier: seq<nat>): (d: set<nat>)
    requires ValidCg(s) && InGraph(s.g, frontier)
    ensures forall v: nat :: v in d <==> v < |s.ids| && v !in Hist(s.g, frontier)
  {
    set v: nat | v < |s.ids| && v !in Hist(s.g, frontier)
  }

  lemma {:induction false} AllThere(c0: Cg, s: Cg, c: Cg)
    requires ValidCg(c0) && ValidCg(s) && ValidCg(c) && Extends(c0, c) && Facts(c) == Facts(c0) + Facts(s) && FactsAgree(s, c0)
    ensures (forall id | id in Facts(s) :: id in Facts(c0)) ==> c.ids == c0.ids && c.g == c0.g
  {
    hide Facts;
    if forall id | id in Facts(s) :: id in Facts(c0) {
      assert Facts(c) == Facts(c0);
      NothingNew(c0, c);
    }
  }
}
