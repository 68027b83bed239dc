/** Exchanging operations between replicas: what one log knows and the other lacks is worked out
    from the agents' sequence numbers, written out by ID, and added on the other side. */
module OplogMerge {
  import opened Dag
  import opened RleGraph
  import opened Ranges
  import opened ListLog
  import opened AgentIndex
  import opened GraphStore
  import opened GrowingGraph
  import opened Summaries
  import Diff

  // ---- Members of a set of versions, in order ----

  ghost function Run(lo: nat, hi: nat): (r: seq<nat>)
    requires lo <= hi
    ensures |r| == hi - lo && forall i | 0 <= i < hi - lo :: r[i] == lo + i
  {
    seq(hi - lo, i requires 0 <= i < hi - lo => lo + i)
  }

  lemma {:induction false} MembersGap(d: set<nat>, lo: nat, hi: nat)
    requires lo <= hi && forall v | lo <= v < hi :: v !in d
    ensures Members(d, hi) == Members(d, lo)
    decreases hi
  {
    if lo < hi { MembersGap(d, lo, hi - 1); }
  }

  lemma {:induction false} RunLast(lo: nat, hi: nat)
    requires lo <= hi
    ensures lo == hi ==> Run(lo, hi) == []
    ensures lo < hi ==> Run(lo, hi) == Run(lo, hi - 1) + [hi - 1]
  {
  }

  lemma {:induction false} MembersRun(d: set<nat>, lo: nat, hi: nat)
    requires lo <= hi && forall v | lo <= v < hi :: v in d
    ensures Members(d, hi) == Members(d, lo) + Run(lo, hi)
    decreases hi
  {
    hide Run;
    RunLast(lo, hi);
    if lo < hi {
      MembersRun(d, lo, hi - 1);
      Glue(Members(d, lo), Run(lo, hi - 1), [hi - 1]);
    }
  }

  ghost function Picked<A>(s: seq<A>, vs: seq<nat>): (r: seq<A>)
    requires forall i | 0 <= i < |vs| :: vs[i] < |s|
    ensures |r| == |vs| && forall i | 0 <= i < |vs| :: r[i] == s[vs[i]]
  {
    seq(|vs|, i requires 0 <= i < |vs| => s[vs[i]])
  }

  // ---- What a log says, by ID ----

  datatype Fact<T> = Fact(op: ListOp<T>, parents: set<RawVersion>)

  ghost predicate ParentsBelow(g: Graph, v: nat)
    requires v < |g|
  {
    forall p | p in g[v] :: p < v
  }

  ghost function ParentIds(g: Graph, ids: seq<RawVersion>, v: nat): set<RawVersion>
    requires v < |g| == |ids| && ParentsBelow(g, v)
  {
    set p | p in g[v] :: ids[p]
  }

  class ListOpLog<T> {
    var ops: seq<ListOp<T>>
    const cg: CausalGraph

    constructor ()
      ensures Valid() && ops == [] && cg.Ids() == [] && fresh(cg)
    {
      ops := [];
      cg := new CausalGraph();
    }

    /** One operation for each version. */
    ghost predicate Valid()
      reads this, cg
    {
      cg.Valid() && |ops| == |cg.Ids()|
    }
  }

  ghost function FactAt<T>(ops: seq<ListOp<T>>, g: Graph, ids: seq<RawVersion>, v: nat): Fact<T>
    requires WellFormed(g) && v < |g| == |ids| == |ops|
  {
    Fact(ops[v], ParentIds(g, ids, v))
  }

  /** Every ID with its operation and the IDs of its parents. */
  ghost function Facts<T>(ops: seq<ListOp<T>>, g: Graph, ids: seq<RawVersion>): (r: map<RawVersion, Fact<T>>)
    requires WellFormed(g) && |g| == |ids| == |ops|
    ensures forall id :: id in r <==> id in ids
  {
    map id | id in ids :: FactAt(ops, g, ids, LvOf(ids, id))
  }

  ghost function FactsOf<T>(log: ListOpLog<T>): map<RawVersion, Fact<T>>
    requires log.Valid()
    reads log, log.cg
  {
    StoreFacts(log.cg);
    Facts(log.ops, log.cg.Parents(), log.cg.Ids())
  }

  // ---- Writing versions out by ID ----

  datatype Partial = Partial(agent: string, seqStart: nat, len: nat, parents: seq<RawVersion>)

  /** The entry describes the versions from `a` on: a run of one agent's IDs, each on the one before. */
  ghost predicate IsPiece(g: Graph, ids: seq<RawVersion>, p: Partial, a: nat) {
    && 0 < p.len && a + p.len <= |g| == |ids|
    && (forall i | 0 <= i < |g[a]| :: g[a][i] < |ids|) && p.parents == Picked(ids, g[a])
    && (forall w | a <= w < a + p.len :: ids[w] == RawVersion(p.agent, p.seqStart + (w - a)))
    && (forall w | a < w < a + p.len :: g[w] == [w - 1])
  }

  ghost predicate ArePieces(g: Graph, ids: seq<RawVersion>, ps: seq<Partial>, at: seq<nat>) {
    |ps| == |at| && forall i | 0 <= i < |ps| :: IsPiece(g, ids, ps[i], at[i])
  }

  /** All versions the entries describe, in order. */
  ghost function Flat(ps: seq<Partial>, at: seq<nat>): seq<nat>
    requires |ps| == |at|
  {
    if ps == [] then []
    else
      var k := |ps| - 1;
      Flat(ps[..k], at[..k]) + Run(at[k], at[k] + ps[k].len)
  }

  lemma {:induction false} FlatMore(g: Graph, ids: seq<RawVersion>, ps: seq<Partial>, at: seq<nat>, p: Partial, a: nat)
    requires ArePieces(g, ids, ps, at) && IsPiece(g, ids, p, a)
    ensures ArePieces(g, ids, ps + [p], at + [a])
    ensures Flat(ps + [p], at + [a]) == Flat(ps, at) + Run(a, a + p.len)
  {
    hide IsPiece, Run;
    assert (ps + [p])[..|ps|] == ps && (at + [a])[..|at|] == at;
  }

  function LvToRawList(es: seq<CGEntry>, parents: seq<nat>): (r: seq<RawVersion>)
    requires ValidEntries(es) && forall i | 0 <= i < |parents| :: parents[i] < NextLV(es)
    ensures r == Picked(RawIds(es), parents)
  {
    seq(|parents|, i requires 0 <= i < |parents| => LvToRaw(es, parents[i]))
  }

  /** The versions `[start, end)` of entry `i`. */
  function PieceOf(es: seq<CGEntry>, i: nat, start: nat, end: nat): Partial
    requires ValidEntries(es) && i < |es| && es[i].version <= start < end <= es[i].vEnd
    requires forall k | 0 <= k < |es[i].parents| :: es[i].parents[k] < NextLV(es)
  {
    var e, offset := es[i], start - es[i].version;
    var parents := if offset == 0 then LvToRawList(es, e.parents) else [RawVersion(e.agent, e.seqStart + offset - 1)];
    Partial(e.agent, e.seqStart + offset, end - start, parents)
  }

  lemma {:induction false} PieceRun(es: seq<CGEntry>, i: nat, start: nat, w: nat)
    requires ValidEntries(es) && i < |es| && es[i].version <= start <= w < es[i].vEnd
    ensures w < |RawIds(es)| && RawIds(es)[w] == RawVersion(es[i].agent, es[i].seqStart + (start - es[i].version) + (w - start))
    ensures w < |Expand(es)| && (start < w ==> Expand(es)[w] == [w - 1])
  {
    hide Expand, ValidEntries, LvToRaw;
    LvToRawAt(es, i, w);
    ExpandAt(es, i, w);
  }

  lemma {:induction false} PieceParents(es: seq<CGEntry>, i: nat, start: nat)
    requires ValidEntries(es) && i < |es| && es[i].version <= start < es[i].vEnd
    requires forall k | 0 <= k < |es[i].parents| :: es[i].parents[k] < NextLV(es)
    ensures start < |Expand(es)| && (forall k | 0 <= k < |Expand(es)[start]| :: Expand(es)[start][k] < |RawIds(es)|)
    ensures (if start == es[i].version then LvToRawList(es, es[i].parents)
             else [RawVersion(es[i].agent, es[i].seqStart + (start - es[i].version) - 1)]) == Picked(RawIds(es), Expand(es)[start])
  {
    hide Expand, ValidEntries, LvToRaw;
    ExpandAt(es, i, start);
    if start > es[i].version { LvToRawAt(es, i, start - 1); }
  }

  lemma {:induction false} PieceAt(es: seq<CGEntry>, i: nat, start: nat, end: nat)
    requires ValidEntries(es) && i < |es| && es[i].version <= start < end <= es[i].vEnd
    requires forall k | 0 <= k < |es[i].parents| :: es[i].parents[k] < NextLV(es)
    ensures IsPiece(Expand(es), RawIds(es), PieceOf(es, i, start, end), start)
    ensures PieceOf(es, i, start, end).len == end - start
  {
    hide Expand, ValidEntries, RawIds, Picked, LvToRawList;
    EntryBounds(es, i);
    ExpandLength(es);
    PieceParents(es, i, start);
    forall w | start <= w < end
      ensures w < |RawIds(es)| && RawIds(es)[w] == RawVersion(es[i].agent, es[i].seqStart + (start - es[i].version) + (w - start))
      ensures w < |Expand(es)| && (start < w ==> Expand(es)[w] == [w - 1])
    {
      PieceRun(es, i, start, w);
    }
  }

  lemma {:induction false} EntryParents(es: seq<CGEntry>, i: nat)
    requires ValidEntries(es) && i < |es|
    ensures forall k | 0 <= k < |es[i].parents| :: es[i].parents[k] < NextLV(es)
  {
    EntryBounds(es, i);
    forall k | 0 <= k < |es[i].parents|
      ensures es[i].parents[k] < NextLV(es)
    {
      assert es[i].parents[k] in es[i].parents;
    }
  }

  /** Writes out the versions from `start` to the end of their entry, or to `end`. */
  method SerializeEntry(cg: CausalGraph, start: nat, end: nat) returns (piece: Partial)
    requires cg.Valid() && start < end <= |cg.Ids()|
    ensures start + piece.len <= end && IsPiece(cg.Parents(), cg.Ids(), piece, start)
  {
    hide RawIds, Expand, ValidEntries, Indexed, IsPiece, PieceOf;
    StoreFacts(cg);
    var idx := FindEntryContaining(cg.entries, start);
    var localEnd := if end < cg.entries[idx].vEnd then end else cg.entries[idx].vEnd;
    EntryParents(cg.entries, idx);
    piece := PieceOf(cg.entries, idx, start, localEnd);
    PieceAt(cg.entries, idx, start, localEnd);
  }

  lemma {:induction false} PieceNonEmpty(g: Graph, ids: seq<RawVersion>, p: Partial, a: nat)
    requires IsPiece(g, ids, p, a)
    ensures p.len > 0
  {
  }

  /** Writes out one range, cut where the entries are. */
  method SerializeRange(cg: CausalGraph, entries0: seq<Partial>, ghost at0: seq<nat>, start0: nat, end: nat, ghost d: set<nat>)
    returns (entries: seq<Partial>, ghost at: seq<nat>)
    requires cg.Valid() && start0 < end <= |cg.Ids()| && forall v | start0 <= v < end :: v in d
    requires |entries0| == |at0| && ArePieces(cg.Parents(), cg.Ids(), entries0, at0) && Flat(entries0, at0) == Members(d, start0)
    ensures |entries| == |at| && ArePieces(cg.Parents(), cg.Ids(), entries, at) && Flat(entries, at) == Members(d, end)
  {
    hide RawIds, Expand, ValidEntries, Members, Flat, ArePieces, Indexed, IsPiece;
    StoreFacts(cg);
    ghost var g, ids := cg.Parents(), cg.Ids();
    entries, at := entries0, at0;
    var start := start0;
    while start != end
      invariant start0 <= start <= end
      invariant |entries| == |at| && ArePieces(g, ids, entries, at) && Flat(entries, at) == Members(d, start)
      decreases end - start
    {
      var piece := SerializeEntry(cg, start, end);
      PieceNonEmpty(g, ids, piece, start);
      FlatMore(g, ids, entries, at, piece, start);
      MembersRun(d, start, start + piece.len);
      entries, at := entries + [piece], at + [start];
      start := start + piece.len;
    }
  }

  /** `serializeDiff`: the listed versions as runs with the IDs of their parents. */
  method SerializeDiff(cg: CausalGraph, ranges: seq<LVRange>, ghost d: set<nat>) returns (entries: seq<Partial>, ghost at: seq<nat>)
    requires cg.Valid() && Ascending(ranges)
    requires (forall x: nat :: InRanges(ranges, x) <==> x in d) && forall x | x in d :: x < |cg.Ids()|
    ensures |entries| == |at| && ArePieces(cg.Parents(), cg.Ids(), entries, at) && Flat(entries, at) == Members(d, |cg.Ids()|)
    ensures ranges == [] ==> entries == []
  {
    hide RawIds, Expand, ValidEntries, Members, Flat, ArePieces, Indexed, InRanges, Ascending;
    StoreFacts(cg);
    ghost var g, ids := cg.Parents(), cg.Ids();
    entries, at := [], [];
    NoPieces(g, ids, d);
    ghost var pos: nat := 0;
    for i := 0 to |ranges|
      invariant pos == if i == 0 then 0 else ranges[i - 1].end
      invariant |entries| == |at| && ArePieces(g, ids, entries, at) && Flat(entries, at) == Members(d, pos)
      invariant i == 0 ==> entries == []
    {
      RangePlace(ranges, d, i, |ids|);
      var start, end := ranges[i].start, ranges[i].end;
      MembersGap(d, pos, start);
      entries, at := SerializeRange(cg, entries, at, start, end, d);
      pos := end;
    }
    AfterRanges(ranges, d, |ids|);
    MembersGap(d, pos, |ids|);
  }

  lemma {:induction false} NoPieces(g: Graph, ids: seq<RawVersion>, d: set<nat>)
    ensures ArePieces(g, ids, [], []) && Flat([], []) == Members(d, 0) == []
  {
  }

  lemma {:induction false} RangePlace(ranges: seq<LVRange>, d: set<nat>, i: nat, n: nat)
    requires Ascending(ranges) && i < |ranges|
    requires (forall x: nat :: InRanges(ranges, x) <==> x in d) && forall x | x in d :: x < n
    ensures (if i == 0 then 0 else ranges[i - 1].end) <= ranges[i].start < ranges[i].end <= n
    ensures forall v | (if i == 0 then 0 else ranges[i - 1].end) <= v < ranges[i].start :: v !in d
    ensures forall v | ranges[i].start <= v < ranges[i].end :: v in d
  {
    forall v: nat | (if i == 0 then 0 else ranges[i - 1].end) <= v < ranges[i].start
      ensures v !in d
    {
      NotBetween(ranges, i, v);
    }
    forall v: nat | ranges[i].start <= v < ranges[i].end
      ensures v in d
    {
      assert ranges[i] in ranges;
      assert InRanges(ranges, v);
    }
    assert ranges[i].end - 1 in d;
  }

  lemma {:induction false} NotBetween(ranges: seq<LVRange>, i: nat, v: nat)
    requires Ascending(ranges) && i <= |ranges|
    requires (i > 0 ==> ranges[i - 1].end <= v) && (i < |ranges| ==> v < ranges[i].start)
    ensures !InRanges(ranges, v)
  {
    forall k | 0 <= k < |ranges|
      ensures !(ranges[k].start <= v < ranges[k].end)
    {
      if k + 1 < i { assert ranges[k].end < ranges[i - 1].start; }
      if i < k { assert ranges[i].end < ranges[k].start; }
    }
  }

  lemma {:induction false} AfterRanges(ranges: seq<LVRange>, d: set<nat>, n: nat)
    requires Ascending(ranges)
    requires (forall x: nat :: InRanges(ranges, x) <==> x in d) && forall x | x in d :: x < n
    ensures (if ranges == [] then 0 else ranges[|ranges| - 1].end) <= n
    ensures forall v | (if ranges == [] then 0 else ranges[|ranges| - 1].end) <= v < n :: v !in d
  {
    forall v: nat | (if ranges == [] then 0 else ranges[|ranges| - 1].end) <= v < n
      ensures v !in d
    {
      NotBetween(ranges, |ranges|, v);
    }
    if ranges != [] { RangePlace(ranges, d, |ranges| - 1, n); }
  }

  // ---- Adding versions by ID ----

  ghost function LvsOf(ids: seq<RawVersion>, raw: seq<RawVersion>): (r: seq<nat>)
    requires forall i | 0 <= i < |raw| :: raw[i] in ids
    ensures |r| == |raw| && forall i | 0 <= i < |raw| :: r[i] < |ids| && ids[r[i]] == raw[i]
  {
    seq(|raw|, i requires 0 <= i < |raw| => LvOf(ids, raw[i]))
  }

  /** `rawToLVList`; None where an ID is not known. */
  method RawToLvList(cg: CausalGraph, raw: seq<RawVersion>) returns (lvs: Option<seq<nat>>)
    requires cg.Valid()
    ensures lvs.Some? <==> forall i | 0 <= i < |raw| :: raw[i] in cg.Ids()
    ensures lvs.Some? ==> lvs.value == LvsOf(cg.Ids(), raw)
  {
    hide RawIds, Expand, ValidEntries, Indexed, RunKnown, LvOf;
    StoreFacts(cg);
    var r: seq<nat> := [];
    for i := 0 to |raw|
      invariant |r| == i && forall k | 0 <= k < i :: raw[k] in cg.Ids() && r[k] == LvOf(cg.Ids(), raw[k])
    {
      var entry := cg.FindClientEntryTrimmed(raw[i].agent, raw[i].seqNo);
      if entry.None? { return None; }
      RunStart(cg.Ids(), raw[i], entry.value);
      r := r + [entry.value.version];
    }
    lvs := Some(r);
    assert r == LvsOf(cg.Ids(), raw);
  }

  lemma {:induction false} RunStart(ids: seq<RawVersion>, id: RawVersion, e: ClientEntry)
    requires RunKnown(ids, id.agent, e) && e.seqStart == id.seqNo < e.seqEnd && DistinctIds(ids) && id in ids
    ensures LvOf(ids, id) == e.version
  {
    assert EntryMaps(e, id.seqNo, e.version);
    LvIs(ids, id, e.version);
  }

  /** `addRaw`: what is not known yet of a run goes on top of the parents with the given IDs, or of
      what is known of the run. */
  method AddRaw(cg: CausalGraph, agent: string, seqStart: nat, len: nat, rawParents: seq<RawVersion>) returns (ok: bool)
    requires cg.Valid() && len > 0 && PrefixKnown(cg.Ids(), agent, seqStart, seqStart + len)
    modifies cg
    ensures cg.Valid()
    ensures ok <==> forall i | 0 <= i < |rawParents| :: rawParents[i] in old(cg.Ids())
    ensures ok ==>
              var ids, seqEnd := old(cg.Ids()), seqStart + len;
              var k := FirstUnknown(ids, agent, seqStart, seqEnd);
              if k == seqEnd then unchanged(cg)
              else
                && cg.Ids() == ids + NewIds(agent, k, seqEnd)
                && cg.Parents() == old(cg.Parents()) + NewRun(|ids|, seqEnd - k, ParentsFrom(ids, agent, seqStart, k, LvsOf(ids, rawParents)))
    ensures !ok ==> unchanged(cg)
  {
    hide RawIds, Expand, ValidEntries, Indexed, LvsOf, NewIds, NewRun, FirstUnknown, ParentsFrom;
    var parents := RawToLvList(cg, rawParents);
    if parents.None? { return false; }
    LvsBounded(cg.Ids(), rawParents);
    var entry := cg.Add(agent, seqStart, seqStart + len, parents.value);
    ok := true;
  }

  lemma {:induction false} LvsBounded(ids: seq<RawVersion>, raw: seq<RawVersion>)
    requires forall i | 0 <= i < |raw| :: raw[i] in ids
    ensures forall p | p in LvsOf(ids, raw) :: p < |ids|
  {
  }

  // ---- What adding keeps ----

  /** Version `w` here has the parents, by ID, that version `v` has there. */
  ghost predicate SameParents(g: Graph, ids: seq<RawVersion>, w: nat, gs: Graph, idss: seq<RawVersion>, v: nat) {
    && w < |g| == |ids| && v < |gs| == |idss| && ParentsBelow(g, w) && ParentsBelow(gs, v)
    && ParentIds(g, ids, w) == ParentIds(gs, idss, v)
  }

  /** The graph `g0` with the versions `flat` of another one added to it, by ID. */
  ghost predicate Merged(g: Graph, ids: seq<RawVersion>, g0: Graph, ids0: seq<RawVersion>, gs: Graph, idss: seq<RawVersion>, flat: seq<nat>) {
    && |g| == |ids| && |g0| == |ids0| && |gs| == |idss|
    && (forall i | 0 <= i < |flat| :: flat[i] < |idss|)
    && ids == ids0 + Picked(idss, flat) && g0 <= g
    && (forall r | 0 <= r < |flat| :: SameParents(g, ids, |ids0| + r, gs, idss, flat[r]))
  }

  lemma {:induction false} SameLater(g: Graph, ids: seq<RawVersion>, g': Graph, ids': seq<RawVersion>, w: nat, gs: Graph, idss: seq<RawVersion>, v: nat)
    requires SameParents(g, ids, w, gs, idss, v) && g <= g' && ids <= ids' && |g'| == |ids'|
    ensures SameParents(g', ids', w, gs, idss, v)
  {
    IdsLater(g, ids, g', ids', w);
  }

  lemma {:induction false} IdsLater(g: Graph, ids: seq<RawVersion>, g': Graph, ids': seq<RawVersion>, w: nat)
    requires w < |g| == |ids| && ParentsBelow(g, w) && g <= g' && ids <= ids' && |g'| == |ids'|
    ensures ParentsBelow(g', w) && ParentIds(g', ids', w) == ParentIds(g, ids, w)
  {
    assert g'[w] == g[w];
    forall p | p in g[w]
      ensures ids'[p] == ids[p]
    {
    }
  }

  /** The first version of a piece gets its parents by looking up their IDs. */
  lemma {:induction false} FirstSame(ids: seq<RawVersion>, g': Graph, ids': seq<RawVersion>, gs: Graph, idss: seq<RawVersion>, p: Partial, a: nat)
    requires WellFormed(gs) && IsPiece(gs, idss, p, a) && ids <= ids' && |ids| < |ids'| == |g'|
    requires (forall i | 0 <= i < |p.parents| :: p.parents[i] in ids) && g'[|ids|] == LvsOf(ids, p.parents)
    ensures SameParents(g', ids', |ids|, gs, idss, a)
  {
    var w := |ids|;
    var here, there := g'[w], gs[a];
    assert |here| == |there|;
    forall i | 0 <= i < |here|
      ensures here[i] < w && ids'[here[i]] == idss[there[i]]
    {
      assert ids[here[i]] == p.parents[i];
    }
    forall x | x in here
      ensures x < w && ids'[x] in ParentIds(gs, idss, a)
    {
      var i :| 0 <= i < |here| && here[i] == x;
      assert there[i] in there;
    }
    forall q | q in there
      ensures idss[q] in ParentIds(g', ids', w)
    {
      var i :| 0 <= i < |there| && there[i] == q;
      assert here[i] in here;
    }
  }

  /** Any later version of a piece has the one before as its only parent, on both sides. */
  lemma {:induction false} RestSame(g': Graph, ids': seq<RawVersion>, w: nat, gs: Graph, idss: seq<RawVersion>, v: nat)
    requires 0 < w < |g'| == |ids'| && 0 < v < |gs| == |idss|
    requires g'[w] == [w - 1] && gs[v] == [v - 1] && ids'[w - 1] == idss[v - 1]
    ensures SameParents(g', ids', w, gs, idss, v)
  {
    assert w - 1 in g'[w] && v - 1 in gs[v];
  }

  /** Adding one more piece. */
  lemma {:induction false} PieceMerged(g: Graph, ids: seq<RawVersion>, g0: Graph, ids0: seq<RawVersion>, gs: Graph, idss: seq<RawVersion>, flat: seq<nat>,
                                       p: Partial, a: nat)
    requires Merged(g, ids, g0, ids0, gs, idss, flat) && WellFormed(gs) && IsPiece(gs, idss, p, a)
    requires forall i | 0 <= i < |p.parents| :: p.parents[i] in ids
    ensures Merged(g + NewRun(|ids|, p.len, LvsOf(ids, p.parents)), ids + NewIds(p.agent, p.seqStart, p.seqStart + p.len),
                   g0, ids0, gs, idss, flat + Run(a, a + p.len))
  {
    hide LvsOf, LvOf, SameParents, NewRun, NewIds, Run, Picked, IsPiece, WellFormed;
    var run, added := NewRun(|ids|, p.len, LvsOf(ids, p.parents)), NewIds(p.agent, p.seqStart, p.seqStart + p.len);
    var g', ids', flat' := g + run, ids + added, flat + Run(a, a + p.len);
    PickedMore(idss, flat, p, a, gs);
    Glue(ids0, Picked(idss, flat), added);
    forall r | 0 <= r < |flat'|
      ensures SameParents(g', ids', |ids0| + r, gs, idss, flat'[r])
    {
      if r < |flat| {
        SameLater(g, ids, g', ids', |ids0| + r, gs, idss, flat[r]);
      } else {
        AddedSame(g, ids, gs, idss, p, a, r - |flat|);
      }
    }
  }

  lemma {:induction false} AddedSame(g: Graph, ids: seq<RawVersion>, gs: Graph, idss: seq<RawVersion>, p: Partial, a: nat, j: nat)
    requires |g| == |ids| && WellFormed(gs) && IsPiece(gs, idss, p, a) && j < p.len
    requires forall i | 0 <= i < |p.parents| :: p.parents[i] in ids
    ensures SameParents(g + NewRun(|ids|, p.len, LvsOf(ids, p.parents)), ids + NewIds(p.agent, p.seqStart, p.seqStart + p.len),
                        |ids| + j, gs, idss, a + j)
  {
    hide LvsOf, LvOf, SameParents;
    var run, added := NewRun(|ids|, p.len, LvsOf(ids, p.parents)), NewIds(p.agent, p.seqStart, p.seqStart + p.len);
    var g', ids' := g + run, ids + added;
    assert g'[|ids| + j] == run[j];
    if j == 0 {
      FirstSame(ids, g', ids', gs, idss, p, a);
    } else {
      assert ids'[|ids| + j - 1] == added[j - 1];
      RestSame(g', ids', |ids| + j, gs, idss, a + j);
    }
  }

  lemma {:induction false} PickedMore(idss: seq<RawVersion>, flat: seq<nat>, p: Partial, a: nat, gs: Graph)
    requires (forall i | 0 <= i < |flat| :: flat[i] < |idss|) && IsPiece(gs, idss, p, a)
    ensures var flat' := flat + Run(a, a + p.len); forall i | 0 <= i < |flat'| :: flat'[i] < |idss|
    ensures Picked(idss, flat + Run(a, a + p.len)) == Picked(idss, flat) + NewIds(p.agent, p.seqStart, p.seqStart + p.len)
  {
  }

  /** A list that runs into `a` along the members consists of the members below `a`. */
  lemma {:induction false} PrefixMembers(d: set<nat>, n: nat, s: seq<nat>, a: nat)
    requires s + [a] <= Members(d, n)
    ensures a in d && a < n && s == Members(d, a)
  {
    MembersStep(d, n);
    hide Members;
    var all := Members(d, n);
    assert all[|s|] == a;
    if n - 1 in d && |all| == |s| + 1 {
      assert s == all[..|s|] == Members(d, n - 1);
    } else {
      assert Members(d, n - 1)[..|s| + 1] == all[..|s| + 1] == s + [a];
      PrefixMembers(d, n - 1, s, a);
    }
  }

  lemma {:induction false} MembersStep(d: set<nat>, n: nat)
    ensures n == 0 ==> Members(d, n) == []
    ensures n > 0 ==> Members(d, n) == if n - 1 in d then Members(d, n - 1) + [n - 1] else Members(d, n - 1)
  {
  }

  lemma {:induction false} FlatPrefix(ps: seq<Partial>, at: seq<nat>, i: nat)
    requires |ps| == |at| && i <= |ps|
    ensures Flat(ps[..i], at[..i]) <= Flat(ps, at)
    decreases |ps|
  {
    hide Run;
    if i == |ps| {
      assert ps[..i] == ps && at[..i] == at;
    } else {
      var k := |ps| - 1;
      FlatPrefix(ps[..k], at[..k], i);
      assert ps[..k][..i] == ps[..i] && at[..k][..i] == at[..i];
    }
  }

  lemma {:induction false} FlatNext(ps: seq<Partial>, at: seq<nat>, i: nat)
    requires |ps| == |at| && i < |ps|
    ensures Flat(ps[..i + 1], at[..i + 1]) == Flat(ps[..i], at[..i]) + Run(at[i], at[i] + ps[i].len)
  {
    hide Run;
    assert ps[..i + 1][..i] == ps[..i] && at[..i + 1][..i] == at[..i];
  }

  /** The `i`-th piece continues the members that came before it. */
  lemma {:induction false} NextPiece(g: Graph, ids: seq<RawVersion>, ps: seq<Partial>, at: seq<nat>, d: set<nat>, i: nat)
    requires ArePieces(g, ids, ps, at) && i < |ps| && Flat(ps, at) == Members(d, |ids|)
    ensures IsPiece(g, ids, ps[i], at[i]) && Flat(ps[..i], at[..i]) == Members(d, at[i])
    ensures forall v | at[i] <= v < at[i] + ps[i].len :: v in d
  {
    hide Run, Flat, Members, IsPiece;
    PieceSize(g, ids, ps[i], at[i]);
    var before, run := Flat(ps[..i], at[..i]), Run(at[i], at[i] + ps[i].len);
    FlatNext(ps, at, i);
    FlatPrefix(ps, at, i + 1);
    RunInside(before, run, Members(d, |ids|));
    PrefixMembers(d, |ids|, before, at[i]);
    forall v | at[i] <= v < at[i] + ps[i].len
      ensures v in d
    {
      assert run[v - at[i]] == v;
    }
  }

  lemma {:induction false} PieceSize(g: Graph, ids: seq<RawVersion>, p: Partial, a: nat)
    requires IsPiece(g, ids, p, a)
    ensures 0 < p.len && a + p.len <= |ids|
  {
  }

  lemma {:induction false} RunInside(before: seq<nat>, run: seq<nat>, all: seq<nat>)
    requires before + run <= all && run != []
    ensures before + [run[0]] <= all && forall k | 0 <= k < |run| :: run[k] in all
  {
    forall k | 0 <= k < |run|
      ensures run[k] in all
    {
      assert all[|before| + k] == (before + run)[|before| + k];
    }
    assert (before + run)[|before|] == run[0];
  }

  /** What is left to add is new here, and its parents are here or come first. */
  ghost predicate Addable(ids: seq<RawVersion>, gs: Graph, idss: seq<RawVersion>, d: set<nat>) {
    && |gs| == |idss| && WellFormed(gs) && DistinctIds(idss)
    && (forall v | v in d :: v < |idss| && idss[v] !in ids)
    && (forall v, p | v in d && v < |gs| && p in gs[v] :: p in d || (p < |idss| && idss[p] in ids))
  }

  lemma {:induction false} PieceAddable(g: Graph, ids: seq<RawVersion>, g0: Graph, ids0: seq<RawVersion>, gs: Graph, idss: seq<RawVersion>, d: set<nat>, p: Partial, a: nat)
    requires Addable(ids0, gs, idss, d) && IsPiece(gs, idss, p, a) && forall v | a <= v < a + p.len :: v in d
    requires Merged(g, ids, g0, ids0, gs, idss, Members(d, a))
    ensures forall s | p.seqStart <= s < p.seqStart + p.len :: RawVersion(p.agent, s) !in ids
    ensures forall i | 0 <= i < |p.parents| :: p.parents[i] in ids
  {
    hide SameParents, Members, Picked;
    var m := Members(d, a);
    forall s | p.seqStart <= s < p.seqStart + p.len
      ensures RawVersion(p.agent, s) !in ids
    {
      var v := a + (s - p.seqStart);
      assert idss[v] == RawVersion(p.agent, s) && v in d;
      forall w | 0 <= w < |ids|
        ensures ids[w] != idss[v]
      {
        if w >= |ids0| {
          assert m[w - |ids0|] in m;
        } else {
          assert ids[w] == ids0[w];
        }
      }
    }
    forall i | 0 <= i < |p.parents|
      ensures p.parents[i] in ids
    {
      var q := gs[a][i];
      assert q in gs[a] && p.parents[i] == idss[q];
      if q in d {
        assert q in m;
        var r :| 0 <= r < |m| && m[r] == q;
        assert ids[|ids0| + r] == idss[q];
      } else {
        var w :| 0 <= w < |ids0| && ids0[w] == idss[q];
        assert ids[w] == idss[q];
      }
    }
  }

  /** Adds one piece: its IDs are new and its parents are known, so it does not fail. */
  method AddPiece(cg: CausalGraph, p: Partial, ghost a: nat, ghost g0: Graph, ghost ids0: seq<RawVersion>, ghost gs: Graph, ghost idss: seq<RawVersion>, ghost d: set<nat>)
    requires cg.Valid() && Addable(ids0, gs, idss, d) && IsPiece(gs, idss, p, a) && forall v | a <= v < a + p.len :: v in d
    requires Merged(cg.Parents(), cg.Ids(), g0, ids0, gs, idss, Members(d, a))
    modifies cg
    ensures cg.Valid() && Merged(cg.Parents(), cg.Ids(), g0, ids0, gs, idss, Members(d, a) + Run(a, a + p.len))
  {
    hide RawIds, Expand, ValidEntries, Indexed, Merged, Addable, Members, IsPiece, LvsOf, NewIds, NewRun, Run;
    ghost var g, ids := cg.Parents(), cg.Ids();
    PieceNonEmpty(gs, idss, p, a);
    PieceAddable(g, ids, g0, ids0, gs, idss, d, p, a);
    AddableGraph(ids0, gs, idss, d);
    PieceMerged(g, ids, g0, ids0, gs, idss, Members(d, a), p, a);
    FirstUnknownIs(ids, p.agent, p.seqStart, p.seqStart, p.seqStart + p.len);
    var ok := AddRaw(cg, p.agent, p.seqStart, p.len, p.parents);
    assert ok;
  }

  /** Adds all the pieces; none of them fails. */
  method MergePartialVersions(cg: CausalGraph, data: seq<Partial>, ghost at: seq<nat>, ghost gs: Graph, ghost idss: seq<RawVersion>, ghost d: set<nat>)
    requires cg.Valid() && Addable(cg.Ids(), gs, idss, d)
    requires |data| == |at| && ArePieces(gs, idss, data, at) && Flat(data, at) == Members(d, |idss|)
    modifies cg
    ensures cg.Valid() && Merged(cg.Parents(), cg.Ids(), old(cg.Parents()), old(cg.Ids()), gs, idss, Members(d, |idss|))
    ensures data == [] ==> unchanged(cg)
  {
    hide RawIds, Expand, ValidEntries, Indexed, Merged, Addable, Flat, Members, IsPiece, ArePieces, LvsOf, NewIds, NewRun;
    StoreFacts(cg);
    ghost var g0, ids0 := cg.Parents(), cg.Ids();
    AddableGraph(ids0, gs, idss, d);
    NothingMerged(g0, ids0, gs, idss, d);
    for i := 0 to |data|
      invariant cg.Valid() && Merged(cg.Parents(), cg.Ids(), g0, ids0, gs, idss, Flat(data[..i], at[..i]))
      invariant i == 0 ==> unchanged(cg)
    {
      NextPiece(gs, idss, data, at, d, i);
      FlatNext(data, at, i);
      AddPiece(cg, data[i], at[i], g0, ids0, gs, idss, d);
    }
    assert data[..|data|] == data && at[..|at|] == at;
  }

  lemma {:induction false} AddableGraph(ids: seq<RawVersion>, gs: Graph, idss: seq<RawVersion>, d: set<nat>)
    requires Addable(ids, gs, idss, d)
    ensures WellFormed(gs) && |gs| == |idss|
  {
  }

  lemma {:induction false} NothingMerged(g0: Graph, ids0: seq<RawVersion>, gs: Graph, idss: seq<RawVersion>, d: set<nat>)
    requires |g0| == |ids0| && |gs| == |idss|
    ensures Merged(g0, ids0, g0, ids0, gs, idss, Flat([], []))
  {
  }

  // ---- The merge ----

  /** The two logs say the same about the operations both have. */
  ghost predicate Agree<T>(f: map<RawVersion, Fact<T>>, f': map<RawVersion, Fact<T>>) {
    forall id | id in f && id in f' :: f[id] == f'[id]
  }

  /** The versions of the source whose IDs the destination lacks. */
  ghost function Missing(ids: seq<RawVersion>, idss: seq<RawVersion>): (r: set<nat>)
    ensures forall v | v in r :: v < |idss|
  {
    set v: nat | v < |idss| && idss[v] !in ids
  }

  /** What both know is closed under parents, so the missing versions can be added in order. */
  lemma {:induction false} MissingAddable<T>(ops: seq<ListOp<T>>, g: Graph, ids: seq<RawVersion>, opss: seq<ListOp<T>>, gs: Graph, idss: seq<RawVersion>)
    requires WellFormed(g) && |g| == |ids| == |ops| && WellFormed(gs) && |gs| == |idss| == |opss| && DistinctIds(idss)
    requires Agree(Facts(ops, g, ids), Facts(opss, gs, idss))
    ensures Addable(ids, gs, idss, Missing(ids, idss))
    ensures Closed(gs, set v: nat | v < |idss| && idss[v] in ids)
  {
    forall v, p | 0 <= v < |gs| && idss[v] in ids && p in gs[v]
      ensures idss[p] in ids
    {
      LvIs(idss, idss[v], v);
      assert idss[v] in Facts(opss, gs, idss) && idss[v] in Facts(ops, g, ids);
      assert idss[p] in ParentIds(gs, idss, v);
      assert idss[p] in ParentIds(g, ids, LvOf(ids, idss[v]));
    }
  }

  /** The versions left over once the common ones are known are the missing ones. */
  lemma {:induction false} OnlyMissing(gs: Graph, ids: seq<RawVersion>, idss: seq<RawVersion>, heads: seq<nat>, common: seq<nat>, ranges: seq<LVRange>)
    requires WellFormed(gs) && |gs| == |idss| && IsHeads(gs, heads) && InGraph(gs, heads) && InGraph(gs, common)
    requires Hist(gs, common) == set v: nat | v < |idss| && idss[v] in ids
    requires forall x: nat :: InRanges(ranges, x) <==> InHist(gs, heads, x) && !InHist(gs, common, x)
    ensures forall x: nat :: InRanges(ranges, x) <==> x in Missing(ids, idss)
  {
    hide InRanges, IsHeads;
    HeadsReachAll(gs, heads);
    forall x: nat
      ensures InRanges(ranges, x) <==> x in Missing(ids, idss)
    {
      if InHist(gs, heads, x) { InHistBound(gs, heads, x); }
      assert InHist(gs, common, x) && x < |gs| <==> x in Hist(gs, common);
      assert x < |gs| ==> x in Hist(gs, heads);
    }
  }

  /** Operations at the members, in order, next to their IDs. */
  lemma {:induction false} FactsUnion<T>(ops0: seq<ListOp<T>>, g0: Graph, ids0: seq<RawVersion>, opss: seq<ListOp<T>>, gs: Graph, idss: seq<RawVersion>,
                                         ops: seq<ListOp<T>>, g: Graph, ids: seq<RawVersion>)
    requires WellFormed(g0) && |g0| == |ids0| == |ops0| && WellFormed(gs) && |gs| == |idss| == |opss| && WellFormed(g) && |g| == |ids| == |ops|
    requires DistinctIds(ids0) && DistinctIds(idss) && DistinctIds(ids)
    requires Merged(g, ids, g0, ids0, gs, idss, Members(Missing(ids0, idss), |idss|))
    requires ops == ops0 + Picked(opss, Members(Missing(ids0, idss), |idss|))
    requires Agree(Facts(ops0, g0, ids0), Facts(opss, gs, idss))
    ensures Facts(ops, g, ids) == Facts(ops0, g0, ids0) + Facts(opss, gs, idss)
  {
    hide Members, Merged, ParentIds;
    var m := Members(Missing(ids0, idss), |idss|);
    forall id
      ensures id in ids <==> id in ids0 || id in idss
      ensures id in ids0 ==> Facts(ops, g, ids)[id] == Facts(ops0, g0, ids0)[id]
      ensures id in idss && id !in ids0 ==> Facts(ops, g, ids)[id] == Facts(opss, gs, idss)[id]
    {
      FactsUnionAt(ops0, g0, ids0, opss, gs, idss, ops, g, ids, id);
    }
  }

  lemma {:induction false} FactsUnionAt<T>(ops0: seq<ListOp<T>>, g0: Graph, ids0: seq<RawVersion>, opss: seq<ListOp<T>>, gs: Graph, idss: seq<RawVersion>,
                                           ops: seq<ListOp<T>>, g: Graph, ids: seq<RawVersion>, id: RawVersion)
    requires WellFormed(g0) && |g0| == |ids0| == |ops0| && WellFormed(gs) && |gs| == |idss| == |opss| && WellFormed(g) && |g| == |ids| == |ops|
    requires DistinctIds(ids0) && DistinctIds(idss) && DistinctIds(ids)
    requires Merged(g, ids, g0, ids0, gs, idss, Members(Missing(ids0, idss), |idss|))
    requires ops == ops0 + Picked(opss, Members(Missing(ids0, idss), |idss|))
    ensures id in ids <==> id in ids0 || id in idss
    ensures id in ids0 ==> Facts(ops, g, ids)[id] == Facts(ops0, g0, ids0)[id]
    ensures id in idss && id !in ids0 ==> Facts(ops, g, ids)[id] == Facts(opss, gs, idss)[id]
  {
    hide Members, ParentIds, LvOf, Facts, SameParents, Missing, WellFormed, DistinctIds;
    var m := Members(Missing(ids0, idss), |idss|);
    MergedIds(ids0, idss, ids, m, id);
    if id in ids0 {
      KeptFact(ops0, g0, ids0, ops, g, ids, id);
    } else if id in idss {
      LvOfMember(ids0, idss, id);
      var r :| 0 <= r < |m| && m[r] == LvOf(idss, id);
      AddedFact(opss, gs, idss, ops, g, ids, id, |ids0| + r);
    }
  }

  lemma {:induction false} LvOfMember(ids0: seq<RawVersion>, idss: seq<RawVersion>, id: RawVersion)
    requires id in idss && id !in ids0
    ensures LvOf(idss, id) in Members(Missing(ids0, idss), |idss|)
  {
    hide Members;
  }

  lemma {:induction false} MergedIds(ids0: seq<RawVersion>, idss: seq<RawVersion>, ids: seq<RawVersion>, m: seq<nat>, id: RawVersion)
    requires m == Members(Missing(ids0, idss), |idss|) && ids == ids0 + Picked(idss, m)
    ensures id in ids <==> id in ids0 || id in idss
  {
    hide Members;
    if id in idss && id !in ids0 {
      LvOfMember(ids0, idss, id);
      var r :| 0 <= r < |m| && m[r] == LvOf(idss, id);
      assert ids[|ids0| + r] == id;
    }
    if id in ids0 {
      var w :| 0 <= w < |ids0| && ids0[w] == id;
      assert ids[w] == id;
    }
  }

  lemma {:induction false} KeptFact<T>(ops0: seq<ListOp<T>>, g0: Graph, ids0: seq<RawVersion>, ops: seq<ListOp<T>>, g: Graph, ids: seq<RawVersion>, id: RawVersion)
    requires WellFormed(g0) && |g0| == |ids0| == |ops0| && WellFormed(g) && |g| == |ids| == |ops|
    requires DistinctIds(ids) && ops0 <= ops && g0 <= g && ids0 <= ids && id in ids0
    ensures id in ids && Facts(ops, g, ids)[id] == Facts(ops0, g0, ids0)[id]
  {
    hide ParentIds, LvOf;
    var w := LvOf(ids0, id);
    assert ids[w] == id && ops[w] == ops0[w];
    LvIs(ids, id, w);
    IdsLater(g0, ids0, g, ids, w);
  }

  lemma {:induction false} AddedFact<T>(opss: seq<ListOp<T>>, gs: Graph, idss: seq<RawVersion>, ops: seq<ListOp<T>>, g: Graph, ids: seq<RawVersion>, id: RawVersion, w: nat)
    requires WellFormed(gs) && |gs| == |idss| == |opss| && WellFormed(g) && |g| == |ids| == |ops|
    requires DistinctIds(ids) && id in idss && w < |ids| && ids[w] == id && ops[w] == opss[LvOf(idss, id)]
    requires SameParents(g, ids, w, gs, idss, LvOf(idss, id))
    ensures id in ids && Facts(ops, g, ids)[id] == Facts(opss, gs, idss)[id]
  {
    hide ParentIds, LvOf;
    LvIs(ids, id, w);
  }

  method PushRun<T>(dest: ListOpLog<T>, src: ListOpLog<T>, start: nat, end: nat, ghost ops0: seq<ListOp<T>>, ghost d: set<nat>)
    requires dest != src && start < end <= |src.ops| && forall v | start <= v < end :: v in d
    requires dest.ops == ops0 + Picked(src.ops, Members(d, start))
    modifies dest`ops
    ensures dest.ops == ops0 + Picked(src.ops, Members(d, end))
  {
    hide Members, Picked;
    for i := start to end
      invariant dest.ops == ops0 + Picked(src.ops, Members(d, i))
    {
      PickedNext(src.ops, d, i);
      Glue(ops0, Picked(src.ops, Members(d, i)), [src.ops[i]]);
      dest.ops := dest.ops + [src.ops[i]];
    }
  }

  lemma {:induction false} PickedNext<A>(s: seq<A>, d: set<nat>, v: nat)
    requires v in d && v < |s|
    ensures Picked(s, Members(d, v + 1)) == Picked(s, Members(d, v)) + [s[v]]
  {
    assert Members(d, v + 1) == Members(d, v) + [v];
  }

  /** Copies the operations of the listed ranges. */
  method PushOps<T>(dest: ListOpLog<T>, src: ListOpLog<T>, ranges: seq<LVRange>, ghost d: set<nat>)
    requires Ascending(ranges) && (forall x: nat :: InRanges(ranges, x) <==> x in d) && forall x | x in d :: x < |src.ops|
    requires dest != src
    modifies dest`ops
    ensures dest.ops == old(dest.ops) + Picked(src.ops, Members(d, |src.ops|))
    ensures ranges == [] ==> dest.ops == old(dest.ops)
  {
    hide Members, InRanges, Ascending, Picked;
    ghost var ops0, opss := dest.ops, src.ops;
    ghost var pos: nat := 0;
    NonePicked(ops0, opss, d);
    for i := 0 to |ranges|
      invariant pos == (if i == 0 then 0 else ranges[i - 1].end) && src.ops == opss
      invariant dest.ops == ops0 + Picked(opss, Members(d, pos))
      invariant i == 0 ==> dest.ops == ops0
    {
      RangePlace(ranges, d, i, |opss|);
      var start, end := ranges[i].start, ranges[i].end;
      MembersGap(d, pos, start);
      PushRun(dest, src, start, end, ops0, d);
      pos := end;
    }
    AfterRanges(ranges, d, |opss|);
    MembersGap(d, pos, |opss|);
  }

  lemma {:induction false} NonePicked<T>(ops0: seq<T>, opss: seq<T>, d: set<nat>)
    ensures Members(d, 0) == [] && ops0 == ops0 + Picked(opss, Members(d, 0))
  {
  }

  /** The versions the source has and the destination lacks, worked out from a version summary. */
  method MissingRanges<T>(dest: ListOpLog<T>, src: ListOpLog<T>) returns (ranges: seq<LVRange>)
    requires dest.Valid() && src.Valid() && Agree(FactsOf(dest), FactsOf(src))
    ensures Ascending(ranges) && forall x: nat :: InRanges(ranges, x) <==> x in Missing(dest.cg.Ids(), src.cg.Ids())
    ensures Addable(dest.cg.Ids(), src.cg.Parents(), src.cg.Ids(), Missing(dest.cg.Ids(), src.cg.Ids()))
  {
    hide RawIds, Expand, ValidEntries, Indexed, Facts, Addable, InRanges, Ascending, Hist, IsHeads, Missing, DistinctIds;
    StoreFacts(dest.cg);
    StoreFacts(src.cg);
    ghost var ids0, gs, idss := dest.cg.Ids(), src.cg.Parents(), src.cg.Ids();
    MissingAddable(dest.ops, dest.cg.Parents(), ids0, src.ops, gs, idss);
    var vs := SummarizeVersion(dest.cg);
    SummaryKnows(vs, ids0, idss);
    var commonVersion := IntersectWithSummary(src.cg, vs);
    LeastOfClosed(gs, KnownVersions(vs, idss), Hist(gs, commonVersion));
    HeadsInGraph(gs, src.cg.heads);
    var _, bOnly := Diff.Diff(src.cg.entries, commonVersion, src.cg.heads);
    OnlyMissing(gs, ids0, idss, src.cg.heads, commonVersion, bOnly);
    ranges := bOnly;
  }

  /** Copies the listed versions and their operations. */
  method CopyRanges<T>(dest: ListOpLog<T>, src: ListOpLog<T>, ranges: seq<LVRange>, ghost d: set<nat>)
    requires dest.Valid() && src.Valid() && dest != src && dest.cg != src.cg
    requires Ascending(ranges) && (forall x: nat :: InRanges(ranges, x) <==> x in d) && forall x | x in d :: x < |src.cg.Ids()|
    requires Addable(dest.cg.Ids(), src.cg.Parents(), src.cg.Ids(), d)
    modifies dest, dest.cg
    ensures dest.Valid()
    ensures Merged(dest.cg.Parents(), dest.cg.Ids(), old(dest.cg.Parents()), old(dest.cg.Ids()), src.cg.Parents(), src.cg.Ids(), Members(d, |src.cg.Ids()|))
    ensures old(dest.cg.Ids()) <= dest.cg.Ids() && old(dest.cg.Parents()) <= dest.cg.Parents()
    ensures dest.ops == old(dest.ops) + Picked(src.ops, Members(d, |src.cg.Ids()|))
    ensures ranges == [] ==> unchanged(dest.cg) && dest.ops == old(dest.ops)
  {
    hide RawIds, Expand, ValidEntries, Indexed, Merged, Addable, Members, ArePieces, Flat, InRanges, Ascending, IsHeads, Picked;
    ghost var g0, ids0, gs, idss := dest.cg.Parents(), dest.cg.Ids(), src.cg.Parents(), src.cg.Ids();
    var cgDiff, at := SerializeDiff(src.cg, ranges, d);
    MergePartialVersions(dest.cg, cgDiff, at, gs, idss, d);
    PushOps(dest, src, ranges, d);
    MergedSizes(dest.cg.Parents(), dest.cg.Ids(), g0, ids0, gs, idss, d);
  }

  /** `mergeOplogInto`: afterwards `dest` knows everything either log knew, and no more. */
  method MergeOplogInto<T>(dest: ListOpLog<T>, src: ListOpLog<T>)
    requires dest.Valid() && src.Valid() && dest != src && dest.cg != src.cg
    requires Agree(FactsOf(dest), FactsOf(src))
    modifies dest, dest.cg
    ensures dest.Valid() && src.Valid()
    ensures FactsOf(dest) == old(FactsOf(dest)) + FactsOf(src)
    ensures old(dest.cg.Ids()) <= dest.cg.Ids() && old(dest.cg.Parents()) <= dest.cg.Parents() && old(dest.ops) <= dest.ops
    ensures (forall id | id in old(FactsOf(src)) :: id in old(FactsOf(dest))) ==> unchanged(dest.cg) && dest.ops == old(dest.ops)
  {
    hide RawIds, Expand, ValidEntries, Indexed, Facts, Agree, Merged, Addable, Members, ArePieces, Flat, InRanges, Ascending, IsHeads, Missing, DistinctIds, Picked, WellFormed;
    StoreFacts(dest.cg);
    StoreFacts(src.cg);
    ghost var ops0, g0, ids0 := dest.ops, dest.cg.Parents(), dest.cg.Ids();
    ghost var opss, gs, idss := src.ops, src.cg.Parents(), src.cg.Ids();
    ghost var d := Missing(ids0, idss);
    var ranges := MissingRanges(dest, src);
    NothingMissing(FactsOf(dest), FactsOf(src), ids0, idss, ranges);
    CopyRanges(dest, src, ranges, d);
    StoreFacts(dest.cg);
    FactsUnion(ops0, g0, ids0, opss, gs, idss, dest.ops, dest.cg.Parents(), dest.cg.Ids());
  }

  /** Merging both ways makes the same graph: `a` into `b`, and what `b` was, held by `c`, into `a`. */
  method MergeBothWays<T>(a: ListOpLog<T>, b: ListOpLog<T>, c: ListOpLog<T>)
    requires a.Valid() && b.Valid() && c.Valid() && a != b && a != c && b != c && a.cg != b.cg && a.cg != c.cg && b.cg != c.cg
    requires Agree(FactsOf(b), FactsOf(a)) && FactsOf(c) == FactsOf(b)
    modifies a, a.cg, b, b.cg
    ensures a.Valid() && b.Valid() && FactsOf(a) == FactsOf(b) == old(FactsOf(a)) + old(FactsOf(b))
  {
    hide Facts, Agree, IsHeads, ValidEntries, Indexed;
    UnionEitherWay(FactsOf(a), FactsOf(b));
    MergeOplogInto(b, a);
    MergeOplogInto(a, c);
  }

  lemma {:induction false} UnionEitherWay<T>(f: map<RawVersion, Fact<T>>, f': map<RawVersion, Fact<T>>)
    requires Agree(f', f)
    ensures Agree(f, f') && f + f' == f' + f
  {
  }

  lemma {:induction false} NothingMissing<T>(f: map<RawVersion, Fact<T>>, f': map<RawVersion, Fact<T>>, ids: seq<RawVersion>, idss: seq<RawVersion>, ranges: seq<LVRange>)
    requires (forall id :: id in f <==> id in ids) && (forall id :: id in f' <==> id in idss)
    requires Ascending(ranges) && forall x: nat :: InRanges(ranges, x) <==> x in Missing(ids, idss)
    ensures (forall id | id in f' :: id in f) ==> ranges == []
  {
    if ranges != [] {
      RangePlace(ranges, Missing(ids, idss), 0, |idss|);
      var v := ranges[0].start;
      assert v in Missing(ids, idss);
      assert idss[v] in f' && idss[v] !in f;
    }
  }

  lemma {:induction false} HeadsInGraph(g: Graph, heads: seq<nat>)
    requires WellFormed(g) && IsHeads(g, heads)
    ensures InGraph(g, heads)
  {
    HeadsReachAll(g, heads);
  }

  lemma {:induction false} MergedSizes(g: Graph, ids: seq<RawVersion>, g0: Graph, ids0: seq<RawVersion>, gs: Graph, idss: seq<RawVersion>, d: set<nat>)
    requires Merged(g, ids, g0, ids0, gs, idss, Members(d, |idss|))
    ensures |ids| == |ids0| + |Members(d, |idss|)| && ids0 <= ids && g0 <= g
  {
  }

  lemma {:induction false} SummaryKnows(summary: VersionSummary, ids: seq<RawVersion>, idss: seq<RawVersion>)
    requires Summarises(summary, ids)
    ensures KnownVersions(summary, idss) == set v: nat | v < |idss| && idss[v] in ids
  {
    hide InRanges;
    forall v: nat | v < |idss|
      ensures Known(summary, idss[v]) <==> idss[v] in ids
    {
      if Known(summary, idss[v]) { assert RawVersion(idss[v].agent, idss[v].seqNo) in ids; }
    }
  }
}
