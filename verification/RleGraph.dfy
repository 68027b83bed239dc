/** The run-length encoded causal graph of causal-graph.ts: each entry covers a run of versions
    in which every version but the first has exactly its predecessor as parent. */
module RleGraph {
  import opened Dag

  datatype CGEntry = CGEntry(version: nat, vEnd: nat, agent: string, seqStart: nat, parents: seq<nat>)

  function NextLV(es: seq<CGEntry>): nat {
    if es == [] then 0 else es[|es| - 1].vEnd
  }

  /** The parents of the version at `offset` inside entry `e`. */
  function ParentsAt(e: CGEntry, offset: nat): seq<nat> {
    if offset == 0 then e.parents else [e.version + offset - 1]
  }

  ghost predicate ValidEntries(es: seq<CGEntry>) {
    && (es != [] ==> es[0].version == 0)
    && (forall i | 0 <= i < |es| :: es[i].version < es[i].vEnd)
    && (forall i, p | 0 <= i < |es| && p in es[i].parents :: p < es[i].version)
    && (forall i | 0 < i < |es| :: es[i].version == es[i - 1].vEnd)
  }

  /** The per-version graph an entry list stands for. */
  ghost function Expand(es: seq<CGEntry>): Graph {
    if es == [] then []
    else
      var e := es[|es| - 1];
      Expand(es[..|es| - 1]) + seq(if e.vEnd >= e.version then e.vEnd - e.version else 0, k requires k >= 0 => ParentsAt(e, k))
  }

  lemma {:induction false} ExpandLength(es: seq<CGEntry>)
    requires ValidEntries(es)
    ensures |Expand(es)| == NextLV(es)
  {
    if es != [] {
      ExpandLength(es[..|es| - 1]);
    }
  }

  lemma {:induction false} ExpandAt(es: seq<CGEntry>, i: nat, v: nat)
    requires ValidEntries(es) && i < |es|
    requires es[i].version <= v < es[i].vEnd
    ensures v < |Expand(es)| == NextLV(es)
    ensures Expand(es)[v] == ParentsAt(es[i], v - es[i].version)
  {
    hide Expand;
    var k := |es| - 1;
    ExpandLast(es);
    if i < k {
      assert es[..k][i] == es[i];
      ExpandAt(es[..k], i, v);
    }
  }

  function Run(e: CGEntry): (r: seq<seq<nat>>)
    requires e.version <= e.vEnd
    ensures |r| == e.vEnd - e.version
  {
    seq(e.vEnd - e.version, k requires 0 <= k < e.vEnd - e.version => ParentsAt(e, k))
  }

  lemma {:induction false} ExpandLast(es: seq<CGEntry>)
    requires ValidEntries(es) && es != []
    ensures var k := |es| - 1;
            && ValidEntries(es[..k]) && |Expand(es[..k])| == es[k].version
            && Expand(es) == Expand(es[..k]) + Run(es[k]) && |Expand(es)| == NextLV(es) == es[k].vEnd
  {
    ExpandLength(es);
    ExpandLength(es[..|es| - 1]);
  }

  /** Binary search for the entry that contains version `v`. */
  function Search(es: seq<CGEntry>, v: nat, lo: nat, hi: nat): (r: nat)
    requires ValidEntries(es) && lo < hi <= |es|
    requires es[lo].version <= v < es[hi - 1].vEnd
    ensures lo <= r < hi && es[r].version <= v < es[r].vEnd
    decreases hi - lo
  {
    if hi - lo == 1 then lo
    else
      var mid := (lo + hi) / 2;
      if v < es[mid].version then Search(es, v, lo, mid) else Search(es, v, mid, hi)
  }

  function FindEntryContaining(es: seq<CGEntry>, v: nat): (r: nat)
    requires ValidEntries(es) && v < NextLV(es)
    ensures r < |es| && es[r].version <= v < es[r].vEnd
  {
    Search(es, v, 0, |es|)
  }

  lemma {:induction false} ExpandWellFormed(es: seq<CGEntry>)
    requires ValidEntries(es)
    ensures WellFormed(Expand(es)) && |Expand(es)| == NextLV(es)
  {
    var g := Expand(es);
    ExpandLength(es);
    forall v, p | 0 <= v < |g| && p in g[v]
      ensures p < v
    {
      ExpandAt(es, FindEntryContaining(es, v), v);
    }
  }

  /** Inside one entry every version reaches exactly what any earlier version of it reaches below. */
  lemma {:induction false} RunReaches(es: seq<CGEntry>, i: nat, v: nat, w: nat)
    requires ValidEntries(es) && i < |es|
    requires es[i].version <= w <= v < es[i].vEnd
    ensures WellFormed(Expand(es)) && v < |Expand(es)|
    ensures Reaches(Expand(es), v, w)
    ensures forall x: nat | x <= w :: Reaches(Expand(es), v, x) <==> Reaches(Expand(es), w, x)
    decreases v
  {
    hide Expand, ValidEntries;
    var g := Expand(es);
    ExpandWellFormed(es);
    ExpandAt(es, i, v);
    if w < v {
      RunReaches(es, i, v - 1, w);
      assert g[v] == [v - 1];
      assert v - 1 in g[v];
      forall x: nat | x <= w
        ensures Reaches(g, v, x) <==> Reaches(g, w, x)
      {
        assert Reaches(g, v, x) <==> Reaches(g, v - 1, x);
      }
    }
  }

  /** Below the entry, its first version reaches what its parents reach. */
  lemma {:induction false} EntryReaches(es: seq<CGEntry>, i: nat, v: nat, x: nat)
    requires ValidEntries(es) && i < |es|
    requires es[i].version <= v < es[i].vEnd && x < es[i].version
    ensures WellFormed(Expand(es)) && v < |Expand(es)| && InGraph(Expand(es), es[i].parents)
    ensures Reaches(Expand(es), v, x) <==> InHist(Expand(es), es[i].parents, x)
  {
    RunReaches(es, i, v, es[i].version);
    ExpandAt(es, i, es[i].version);
  }

  datatype RawVersion = RawVersion(agent: string, seqNo: nat)

  /** `lvToRaw`: the ID of a local version. */
  function LvToRaw(es: seq<CGEntry>, v: nat): RawVersion
    requires ValidEntries(es) && v < NextLV(es)
  {
    var e := es[FindEntryContaining(es, v)];
    RawVersion(e.agent, e.seqStart + (v - e.version))
  }

  ghost function RawIds(es: seq<CGEntry>): (r: seq<RawVersion>)
    requires ValidEntries(es)
    ensures |r| == NextLV(es) && forall v | 0 <= v < |r| :: r[v] == LvToRaw(es, v)
  {
    seq(NextLV(es), v requires 0 <= v < NextLV(es) => LvToRaw(es, v))
  }

  /** Entries that cut the versions `[vStart, vEnd)` into runs, each with the parents of its first version. */
  ghost predicate Slices(es: seq<CGEntry>, out: seq<CGEntry>, vStart: nat, vEnd: nat)
    requires ValidEntries(es) && vEnd <= NextLV(es)
  {
    && (if out == [] then vStart == vEnd else out[0].version == vStart && out[|out| - 1].vEnd == vEnd)
    && (forall i | 0 < i < |out| :: out[i].version == out[i - 1].vEnd)
    && (forall i | 0 <= i < |out| :: IsSlice(es, out[i]) && vStart <= out[i].version && out[i].vEnd <= vEnd)
  }

  ghost predicate IsSlice(es: seq<CGEntry>, e: CGEntry)
    requires ValidEntries(es)
  {
    && e.version < e.vEnd <= NextLV(es) == |Expand(es)|
    && e.parents == Expand(es)[e.version]
    && (forall v | e.version < v < e.vEnd :: Expand(es)[v] == [v - 1])
    && RawVersion(e.agent, e.seqStart) == LvToRaw(es, e.version)
  }

  /** The part of entry `i` that lies in `[vStart, vEnd)`, as `iterVersionsBetween` yields it. */
  function SliceOf(es: seq<CGEntry>, i: nat, vStart: nat, vEnd: nat): (e: CGEntry)
    requires ValidEntries(es) && i < |es| && es[i].version < vEnd && vStart < es[i].vEnd && vStart < vEnd
  {
    var entry := es[i];
    if vStart <= entry.version && vEnd >= entry.vEnd then entry
    else
      var start := if vStart > entry.version then vStart else entry.version;
      var end := if vEnd < entry.vEnd then vEnd else entry.vEnd;
      CGEntry(start, end, entry.agent, entry.seqStart + (start - entry.version),
              if start == entry.version then entry.parents else [start - 1])
  }

  lemma {:induction false} SliceOfIsSlice(es: seq<CGEntry>, i: nat, vStart: nat, vEnd: nat)
    requires ValidEntries(es) && i < |es| && es[i].version < vEnd && vStart < es[i].vEnd && vStart < vEnd <= NextLV(es)
    ensures IsSlice(es, SliceOf(es, i, vStart, vEnd))
    ensures var e := SliceOf(es, i, vStart, vEnd);
            && vStart <= e.version && e.vEnd <= vEnd
            && (e.version == vStart || e.version == es[i].version) && (e.vEnd == vEnd || e.vEnd == es[i].vEnd)
            && (vStart >= es[i].version ==> e.version == vStart) && (vStart <= es[i].version ==> e.version == es[i].version)
            && (vEnd <= es[i].vEnd ==> e.vEnd == vEnd)
            && (vEnd >= es[i].vEnd ==> e.vEnd == es[i].vEnd)
  {
    hide Expand, ValidEntries, FindEntryContaining;
    EntryBounds(es, i);
    var e := SliceOf(es, i, vStart, vEnd);
    ExpandAt(es, i, e.version);
    EntriesApart(es, i, FindEntryContaining(es, e.version), e.version);
    forall v | e.version < v < e.vEnd
      ensures Expand(es)[v] == [v - 1]
    {
      ExpandAt(es, i, v);
    }
  }

  lemma {:induction false} EntryBounds(es: seq<CGEntry>, i: nat)
    requires ValidEntries(es) && i < |es|
    ensures es[i].version < es[i].vEnd <= NextLV(es)
  {
    if i + 1 < |es| { EntriesAscend(es, i, |es| - 1); }
  }

  /** A version lies in one entry only. */
  lemma {:induction false} EntriesApart(es: seq<CGEntry>, i: nat, j: nat, v: nat)
    requires ValidEntries(es) && i < |es| && j < |es|
    requires es[i].version <= v < es[i].vEnd && es[j].version <= v < es[j].vEnd
    ensures i == j
  {
    if i < j {
      EntriesAscend(es, i, j);
    } else if j < i {
      EntriesAscend(es, j, i);
    }
  }

  lemma {:induction false} EntriesAscend(es: seq<CGEntry>, i: nat, j: nat)
    requires ValidEntries(es) && i < j < |es|
    ensures es[i].vEnd <= es[j].version
    decreases j
  {
    if i + 1 < j {
      EntriesAscend(es, i, j - 1);
    }
  }

  lemma {:induction false} SliceSize(es: seq<CGEntry>, e: CGEntry)
    requires ValidEntries(es) && IsSlice(es, e)
    ensures e.version < e.vEnd <= NextLV(es)
  {
    hide Expand, ValidEntries, LvToRaw;
  }

  lemma {:induction false} SlicesAppend(es: seq<CGEntry>, out: seq<CGEntry>, vStart: nat, mid: nat, e: CGEntry)
    requires ValidEntries(es) && mid <= NextLV(es) && Slices(es, out, vStart, mid)
    requires IsSlice(es, e) && e.version == mid && vStart <= mid
    ensures Slices(es, out + [e], vStart, e.vEnd)
  {
    hide IsSlice, ValidEntries;
    SliceSize(es, e);
    var out' := out + [e];
    forall i | 0 <= i < |out'|
      ensures IsSlice(es, out'[i]) && vStart <= out'[i].version && out'[i].vEnd <= e.vEnd
    {
      if i < |out| { assert out'[i] == out[i]; }
    }
  }

  method IterVersionsBetween(es: seq<CGEntry>, vStart: nat, vEnd: nat) returns (out: seq<CGEntry>)
    requires ValidEntries(es) && vStart <= vEnd <= NextLV(es)
    ensures Slices(es, out, vStart, vEnd)
  {
    hide Slices, IsSlice, SliceOf;
    out := [];
    NoSlices(es, vStart);
    if vStart == vEnd { return; }
    var idx := FindEntryContaining(es, vStart);
    ghost var mid: nat := vStart;
    while idx < |es|
      invariant vStart <= mid <= vEnd && idx <= |es|
      invariant mid < vEnd ==> idx < |es| && es[idx].version <= mid < es[idx].vEnd && (mid == vStart || mid == es[idx].version)
      invariant mid == vEnd && idx < |es| ==> vEnd <= es[idx].version
      invariant Slices(es, out, vStart, mid)
    {
      if es[idx].version >= vEnd { break; }
      SliceOfIsSlice(es, idx, vStart, vEnd);
      var e := SliceOf(es, idx, vStart, vEnd);
      SlicesAppend(es, out, vStart, mid, e);
      out := out + [e];
      mid := e.vEnd;
      idx := idx + 1;
    }
  }

  lemma {:induction false} NoSlices(es: seq<CGEntry>, v: nat)
    requires ValidEntries(es) && v <= NextLV(es)
    ensures Slices(es, [], v, v)
  {
  }
}
