/** Moving a frontier over runs of versions, as the Rust library does: forwards over a range of
    new versions and back again. */
module Frontiers {
  import opened Dag
  import opened RleGraph
  import opened Ranges
  import Dominators

  // ---- Frontiers and their histories ----

  /** A frontier is determined by its history. */
  lemma {:induction false} FrontierUnique(g: Graph, f: seq<nat>, f': seq<nat>)
    requires WellFormed(g) && Dominators.IsFrontier(g, f) && Dominators.IsFrontier(g, f')
    requires Hist(g, f) == Hist(g, f')
    ensures f == f'
  {
    hide Reaches;
    TopMembers(g, f, f');
    TopMembers(g, f', f);
    SameMembers(f, f');
  }

  lemma {:induction false} TopMembers(g: Graph, f: seq<nat>, f': seq<nat>)
    requires WellFormed(g) && Dominators.IsFrontier(g, f) && Dominators.IsFrontier(g, f')
    requires Hist(g, f) == Hist(g, f')
    ensures forall v | v in f :: v in f'
  {
    HistClosed(g, f);
    HistClosed(g, f');
    forall v | v in f
      ensures v in f'
    {
      var w :| w in f' && Reaches(g, w, v);
      var u :| u in f && Reaches(g, u, w);
      ReachesTransitive(g, u, w, v);
      ReachesLower(g, w, v);
      ReachesLower(g, u, w);
    }
  }

  lemma {:induction false} SameMembers(a: seq<nat>, b: seq<nat>)
    requires StrictlyAscending(a) && StrictlyAscending(b)
    requires forall v :: v in a <==> v in b
    ensures a == b
    decreases |a|
  {
    if a == [] {
      SomeMember(b);
    } else {
      var k, l := |a| - 1, |b| - 1;
      assert a[k] in b && b[l] in a;
      LastMember(a);
      LastMember(b);
      SameMembers(a[..k], b[..l]);
    }
  }

  lemma {:induction false} SomeMember(b: seq<nat>)
    ensures b == [] || b[0] in b
  {
  }

  lemma {:induction false} LastMember(a: seq<nat>)
    requires StrictlyAscending(a) && a != []
    ensures var k := |a| - 1;
            && StrictlyAscending(a[..k]) && a == a[..k] + [a[k]]
            && (forall v | v in a :: v <= a[k]) && forall v :: v in a[..k] <==> v in a && v != a[k]
  {
    var k := |a| - 1;
    forall v
      ensures v in a[..k] <==> v in a && v != a[k]
    {
      if v in a && v != a[k] {
        var i :| 0 <= i < |a| && a[i] == v;
        assert a[..k][i] == v;
      }
    }
  }

  /** The parents of every entry form a frontier of their own. */
  ghost predicate FrontierEntries(es: seq<CGEntry>) {
    && ValidEntries(es) && WellFormed(Expand(es))
    && forall i | 0 <= i < |es| :: Dominators.IsFrontier(Expand(es), es[i].parents)
  }

  /** The versions from `start` on are a run on top of `parents`, each on the one before. */
  ghost predicate IsRun(g: Graph, parents: seq<nat>, start: nat, end: nat) {
    WellFormed(g) && start < end <= |g| && g[start] == parents && forall v | start < v < end :: g[v] == [v - 1]
  }

  /** The history of the last version of a run: the run, and what its first version builds on. */
  lemma {:induction false} RunHist(g: Graph, parents: seq<nat>, start: nat, end: nat)
    requires IsRun(g, parents, start, end)
    ensures InGraph(g, parents)
    ensures Hist(g, [end - 1]) == Hist(g, parents) + Range(start, end)
    ensures forall x | x in Hist(g, parents) :: x < start
    ensures var last := end - 1; forall x: nat | start <= x < end :: Reaches(g, last, x)
    decreases end
  {
    HistOne(g, end - 1);
    if start == end - 1 {
      assert Range(start, end) == {start};
      PartBelow(g, g[start], start);
      assert Reaches(g, start, start);
    } else {
      RunHist(g, parents, start, end - 1);
      assert g[end - 1] == [end - 2];
      var last := end - 1;
      forall x: nat | start <= x < end
        ensures Reaches(g, last, x)
      {
        if x < last { assert last - 1 in g[last]; }
      }
    }
  }

  /** Part of an entry is a run. */
  lemma {:induction false} PartIsRun(es: seq<CGEntry>, i: nat, start: nat, end: nat)
    requires ValidEntries(es) && WellFormed(Expand(es)) && i < |es| && es[i].version <= start < end <= es[i].vEnd
    ensures IsRun(Expand(es), ParentsAt(es[i], start - es[i].version), start, end)
  {
    hide Expand, ValidEntries;
    ExpandAt(es, i, end - 1);
    forall v | start <= v < end
      ensures Expand(es)[v] == ParentsAt(es[i], v - es[i].version)
    {
      ExpandAt(es, i, v);
    }
  }

  lemma {:induction false} PartHist(es: seq<CGEntry>, i: nat, start: nat, end: nat)
    requires ValidEntries(es) && WellFormed(Expand(es)) && i < |es| && es[i].version <= start < end <= es[i].vEnd
    ensures end <= |Expand(es)| && Expand(es)[start] == ParentsAt(es[i], start - es[i].version)
    ensures InGraph(Expand(es), Expand(es)[start])
    ensures Hist(Expand(es), [end - 1]) == Hist(Expand(es), Expand(es)[start]) + Range(start, end)
    ensures forall x | x in Hist(Expand(es), Expand(es)[start]) :: x < start
    ensures var last := end - 1; forall x: nat | start <= x < end :: Reaches(Expand(es), last, x)
  {
    hide Expand, ValidEntries, Hist, Reaches;
    PartIsRun(es, i, start, end);
    RunHist(Expand(es), Expand(es)[start], start, end);
  }

  lemma {:induction false} PartBelow(g: Graph, parents: seq<nat>, start: nat)
    requires WellFormed(g) && InGraph(g, parents) && forall p | p in parents :: p < start
    ensures forall x | x in Hist(g, parents) :: x < start
  {
    forall x | x in Hist(g, parents)
      ensures x < start
    {
      var p :| p in parents && Reaches(g, p, x);
      ReachesLower(g, p, x);
    }
  }

  // ---- Advancing ----

  /** A run on top of a frontier replaces those of its members that are parents of the run. */
  lemma {:induction false} AdvancedFrontier(g: Graph, f: seq<nat>, parents: seq<nat>, last: nat, run: set<nat>, f': seq<nat>)
    requires WellFormed(g) && Dominators.IsFrontier(g, f) && InGraph(g, parents) && last < |g|
    requires forall p | p in parents :: p in Hist(g, f)
    requires Hist(g, [last]) == Hist(g, parents) + run && last in run && run !! Hist(g, f)
    requires StrictlyAscending(f') && forall v :: v in f' <==> (v in f && v !in parents) || v == last
    ensures Dominators.IsFrontier(g, f') && Hist(g, f') == Hist(g, f) + run
  {
    HistClosed(g, f);
    HistMonotone(g, parents, f);
    forall v, w | v in f' && w in f' && v != w
      ensures !Reaches(g, v, w)
    {
      if v == last {
        StaysDominator(g, f, parents, last, run, w);
      } else {
        BelowMember(g, f, v, w);
      }
    }
    AdvancedHist(g, f, parents, last, run, f');
  }

  lemma {:induction false} AdvancedHist(g: Graph, f: seq<nat>, parents: seq<nat>, last: nat, run: set<nat>, f': seq<nat>)
    requires WellFormed(g) && InGraph(g, f) && InGraph(g, parents) && last < |g| && InGraph(g, f')
    requires Hist(g, parents) <= Hist(g, f)
    requires Hist(g, [last]) == Hist(g, parents) + run
    requires forall v :: v in f' <==> (v in f && v !in parents) || v == last
    ensures Hist(g, f') == Hist(g, f) + run
  {
    hide Hist, Reaches;
    HistClosed(g, f');
    HistClosed(g, parents);
    HistLeast(g, [last], Hist(g, f'));
    forall v | v in f
      ensures v in Hist(g, f')
    {
      if v in parents { assert v in Hist(g, [last]); }
    }
    HistMonotone(g, f, f');
    HistJoin(g, f, [last]);
    HistMonotoneIn(g, f', f + [last]);
  }

  lemma {:induction false} BelowMember(g: Graph, f: seq<nat>, v: nat, w: nat)
    requires WellFormed(g) && InGraph(g, f) && v in f
    ensures Reaches(g, v, w) ==> w in Hist(g, f)
  {
    if Reaches(g, v, w) { ReachesLower(g, v, w); }
  }

  /** A member that is no parent is not below the run either. */
  lemma {:induction false} StaysDominator(g: Graph, f: seq<nat>, parents: seq<nat>, last: nat, run: set<nat>, w: nat)
    requires WellFormed(g) && Dominators.IsFrontier(g, f) && InGraph(g, parents) && last < |g|
    requires forall p | p in parents :: p in Hist(g, f)
    requires Hist(g, [last]) == Hist(g, parents) + run && run !! Hist(g, f)
    requires w in f && w !in parents
    ensures !Reaches(g, last, w)
  {
    HistClosed(g, f);
    if Reaches(g, last, w) {
      assert last in [last];
      assert w in Hist(g, [last]);
      var p :| p in parents && Reaches(g, p, w);
      var u :| u in f && Reaches(g, u, p);
      ReachesTransitive(g, u, p, w);
      ReachesLower(g, p, w);
      ReachesLower(g, u, p);
    }
  }

  function Position(vs: seq<nat>, x: nat, lo: nat, hi: nat): (k: nat)
    requires StrictlyAscending(vs) && x !in vs && lo <= hi <= |vs|
    requires (forall i | 0 <= i < lo :: vs[i] < x) && (forall i | hi <= i < |vs| :: x < vs[i])
    ensures k <= |vs| && (forall i | 0 <= i < k :: vs[i] < x) && (forall i | k <= i < |vs| :: x < vs[i])
    decreases hi - lo
  {
    if lo == hi then lo
    else
      var mid := (lo + hi) / 2;
      assert vs[mid] in vs;
      if vs[mid] < x then Position(vs, x, mid + 1, hi) else Position(vs, x, lo, mid)
  }

  function Retain(vs: seq<nat>, dropped: seq<nat>): (r: seq<nat>)
    ensures forall v :: v in r <==> v in vs && v !in dropped
    ensures StrictlyAscending(vs) ==> StrictlyAscending(r)
  {
    if vs == [] then []
    else
      var k := |vs| - 1;
      var r := Retain(vs[..k], dropped);
      assert vs == vs[..k] + [vs[k]];
      if vs[k] in dropped then r
      else
        assert StrictlyAscending(vs) ==> forall i | 0 <= i < |r| :: r[i] in r && r[i] < vs[k];
        r + [vs[k]]
  }

  class Frontier {
    var vs: seq<nat>

    constructor (vs: seq<nat>)
      ensures this.vs == vs
    {
      this.vs := vs;
    }

    method InsertNonoverlapping(newItem: nat)
      requires StrictlyAscending(vs) && newItem !in vs
      modifies this
      ensures StrictlyAscending(vs) && forall v :: v in vs <==> v in old(vs) || v == newItem
    {
      var newIdx := Position(vs, newItem, 0, |vs|);
      vs := vs[..newIdx] + [newItem] + vs[newIdx..];
      InsertedMembers(old(vs), newIdx, newItem);
    }

    /** Moves over one run of versions. */
    method AdvanceByKnownRun(parents: seq<nat>, span: LVRange, ghost g: Graph)
      requires IsRun(g, parents, span.start, span.end) && Dominators.IsFrontier(g, vs)
      requires (forall p | p in parents :: p in Hist(g, vs)) && Range(span.start, span.end) !! Hist(g, vs)
      modifies this
      ensures Dominators.IsFrontier(g, vs)
      ensures Hist(g, vs) == old(Hist(g, vs)) + Range(span.start, span.end)
    {
      hide Hist, Reaches;
      ghost var f, run := vs, Range(span.start, span.end);
      RunHist(g, parents, span.start, span.end);
      NotMember(g, f, span.end - 1, run);
      if |parents| == 1 && |vs| == 1 && parents[0] == vs[0] {
        vs := vs[0 := span.end - 1];
        assert vs == [span.end - 1];
        Replaced(f, parents, span.end - 1);
      } else if vs == parents {
        vs := [span.end - 1];
        Replaced(f, parents, span.end - 1);
      } else {
        vs := Retain(vs, parents);
        InsertNonoverlapping(span.end - 1);
      }
      AdvancedFrontier(g, f, parents, span.end - 1, run, vs);
    }

    /** Moves forwards over a range of new versions, entry by entry. */
    method Advance(es: seq<CGEntry>, range: LVRange)
      requires FrontierEntries(es) && range.start < range.end <= NextLV(es)
      requires Dominators.IsFrontier(Expand(es), vs) && Range(range.start, range.end) !! Hist(Expand(es), vs)
      requires ParentsReady(Expand(es), Hist(Expand(es), vs), range.start, range.end)
      modifies this
      ensures Dominators.IsFrontier(Expand(es), vs)
      ensures Hist(Expand(es), vs) == old(Hist(Expand(es), vs)) + Range(range.start, range.end)
    {
      hide Expand, ValidEntries, Hist, Reaches, FrontierEntries, Dominators.IsFrontier, ParentsReady, IsRun;
      EntriesValid(es);
      FrontierInGraph(Expand(es), vs);
      ghost var g, h := Expand(es), Hist(Expand(es), vs);
      var start: nat := range.start;
      var txnIdx: nat := FindEntryContaining(es, start);
      assert h + Range(range.start, range.start) == h;
      while true
        invariant range.start <= start < range.end && txnIdx < |es| && es[txnIdx].version <= start < es[txnIdx].vEnd
        invariant Dominators.IsFrontier(g, vs) && InGraph(g, vs)
        invariant Hist(g, vs) == h + Range(range.start, start)
        decreases range.end - start
      {
        var txn := es[txnIdx];
        var end := if txn.vEnd < range.end then txn.vEnd else range.end;
        PartReady(es, txnIdx, g, h, range.start, start, end, range.end);
        PartIsRun(es, txnIdx, start, end);
        AdvanceByKnownRun(ParentsAt(txn, start - txn.version), LVRange(start, end), g);
        assert h + Range(range.start, start) + Range(start, end) == h + Range(range.start, end);
        FrontierInGraph(g, vs);
        if end >= range.end { break; }
        NextEntry(es, txnIdx);
        start := end;
        txnIdx := txnIdx + 1;
      }
    }

    /** Puts back those parents that the rest of the frontier does not cover. */
    method ReinsertParents(es: seq<CGEntry>, parents: seq<nat>)
      requires FrontierEntries(es) && Dominators.IsFrontier(Expand(es), vs) && Dominators.IsFrontier(Expand(es), parents)
      requires forall p, v | p in parents && v in vs :: !Reaches(Expand(es), p, v)
      modifies this
      ensures Dominators.IsFrontier(Expand(es), vs)
      ensures Hist(Expand(es), vs) == old(Hist(Expand(es), vs)) + Hist(Expand(es), parents)
    {
      hide Expand, ValidEntries, Hist, Reaches, InHist;
      ghost var g, h := Expand(es), Hist(Expand(es), vs);
      NoHist(g);
      forall j | 0 <= j < |parents|
        ensures parents[j] < |g|
      {
        assert parents[j] in parents;
      }
      assert parents[..0] == [] && h + Hist(g, parents[..0]) == h;
      for k := 0 to |parents|
        invariant Dominators.IsFrontier(g, vs) && InGraph(g, parents[..k])
        invariant Hist(g, vs) == h + Hist(g, parents[..k])
        invariant forall j, v | k <= j < |parents| && v in vs :: !Reaches(g, parents[j], v)
      {
        var parent := parents[k];
        assert parent in parents;
        ghost var before := vs;
        assert parents[..k + 1] == parents[..k] + [parent];
        HistJoin(g, parents[..k], [parent]);
        var contained := Dominators.VersionContainsLV(es, vs, parent);
        if !contained {
          NotContained(g, vs, parent);
          InsertNonoverlapping(parent);
          OneMore(g, before, parent, vs);
          assert forall j | k < j < |parents| :: parents[j] in parents && parents[j] != parent;
        } else {
          Contained(g, vs, parent);
        }
      }
      assert parents[..|parents|] == parents;
    }

    /** Moves backwards over a range of versions, entry by entry. */
    method Retreat(es: seq<CGEntry>, range: LVRange, ghost h: set<nat>)
      requires FrontierEntries(es) && range.start <= range.end <= NextLV(es)
      requires Dominators.IsFrontier(Expand(es), vs) && Closed(Expand(es), h) && Range(range.start, range.end) !! h
      requires Hist(Expand(es), vs) == h + Range(range.start, range.end)
      modifies this
      ensures Dominators.IsFrontier(Expand(es), vs)
      ensures Hist(Expand(es), vs) == h
    {
      hide Expand, ValidEntries, Hist, Reaches, FrontierEntries, Dominators.IsFrontier, Closed, Range;
      EntriesValid(es);
      RangeEmpty(range.start, range.end);
      if range.start >= range.end {
        assert h + Range(range.start, range.end) == h;
        return;
      }
      ghost var g := Expand(es);
      FrontierInGraph(g, vs);
      var end: nat := range.end;
      var txnIdx: nat := FindEntryContaining(es, end - 1);
      while true
        invariant range.start < end <= range.end && txnIdx < |es| && es[txnIdx].version < end <= es[txnIdx].vEnd
        invariant Dominators.IsFrontier(g, vs) && InGraph(g, vs) && StrictlyAscending(vs)
        invariant Hist(g, vs) == h + Range(range.start, end)
        decreases end
      {
        var txn := es[txnIdx];
        ghost var cut := if range.start > txn.version then range.start else txn.version;
        CutFacts(es, txnIdx, vs, h, range.start, cut, end);
        if |vs| == 1 {
          SingleTop(es, txnIdx, vs, h, range.start, cut, end);
          if range.start > txn.version {
            vs := vs[0 := range.start - 1];
            assert vs == [range.start - 1];
            break;
          } else {
            vs := txn.parents;
          }
        } else {
          ghost var before := vs;
          vs := Retain(vs, [end - 1]);
          TopRemoved(es, txnIdx, before, vs, h, range.start, cut, end);
          ReinsertParents(es, ParentsAt(txn, if range.start > txn.version then range.start - txn.version else 0));
        }
        if range.start >= txn.version { break; }
        PreviousEntry(es, txnIdx);
        FrontierInGraph(g, vs);
        end := txn.version;
        txnIdx := txnIdx - 1;
      }
      assert h + Range(range.start, range.start) == h by { RangeEmpty(range.start, range.start); }
    }
  }

  lemma {:induction false} RangeEmpty(lo: nat, hi: nat)
    ensures lo >= hi ==> Range(lo, hi) == {}
  {
  }

  lemma {:induction false} NoHist(g: Graph)
    requires WellFormed(g)
    ensures InGraph(g, []) && Hist(g, []) == {}
  {
  }

  lemma {:induction false} NotContained(g: Graph, f: seq<nat>, p: nat)
    requires WellFormed(g) && InGraph(g, f) && p < |g| && !InHist(g, f, p)
    ensures p !in f && forall v | v in f :: !Reaches(g, v, p)
  {
    if p in f { assert Reaches(g, p, p); }
  }

  lemma {:induction false} Contained(g: Graph, f: seq<nat>, p: nat)
    requires WellFormed(g) && InGraph(g, f) && p < |g| && InHist(g, f, p)
    ensures InGraph(g, [p]) && Hist(g, [p]) <= Hist(g, f)
  {
    HistClosed(g, f);
    HistLeast(g, [p], Hist(g, f));
  }

  /** One more version that is above nothing and below nothing keeps a frontier a frontier. */
  lemma {:induction false} OneMore(g: Graph, f: seq<nat>, p: nat, f': seq<nat>)
    requires WellFormed(g) && Dominators.IsFrontier(g, f) && p < |g| && StrictlyAscending(f')
    requires forall v :: v in f' <==> v in f || v == p
    requires forall v | v in f :: !Reaches(g, v, p) && !Reaches(g, p, v)
    ensures Dominators.IsFrontier(g, f') && InGraph(g, [p]) && Hist(g, f') == Hist(g, f) + Hist(g, [p])
  {
    hide Reaches;
    HistJoin(g, f, [p]);
    HistMonotoneIn(g, f + [p], f');
    HistMonotoneIn(g, f', f + [p]);
  }

  lemma {:induction false} PreviousEntry(es: seq<CGEntry>, i: nat)
    requires ValidEntries(es) && i < |es| && es[i].version > 0
    ensures i > 0 && es[i - 1].version < es[i].version == es[i - 1].vEnd
  {
  }

  /** What one round of a retreat leaves: the part of entry `i` from `cut` to `end` goes. */
  lemma {:induction false} CutFacts(es: seq<CGEntry>, i: nat, f: seq<nat>, h: set<nat>, from: nat, cut: nat, end: nat)
    requires FrontierEntries(es) && i < |es| && es[i].version <= cut < end <= es[i].vEnd && from <= cut
    requires InGraph(Expand(es), f) && Hist(Expand(es), f) == h + Range(from, end) && Range(from, end) !! h
    ensures end <= |Expand(es)| && Expand(es)[cut] == ParentsAt(es[i], cut - es[i].version) && InGraph(Expand(es), Expand(es)[cut])
    ensures Dominators.IsFrontier(Expand(es), ParentsAt(es[i], cut - es[i].version))
    ensures Hist(Expand(es), [end - 1]) == Hist(Expand(es), Expand(es)[cut]) + Range(cut, end)
    ensures Hist(Expand(es), Expand(es)[cut]) <= h + Range(from, cut)
  {
    hide Expand, ValidEntries, Hist, Reaches;
    var g := Expand(es);
    PartHist(es, i, cut, end);
    HistClosed(g, f);
    assert end - 1 in Range(from, end);
    HistLeast(g, [end - 1], Hist(g, f));
  }

  /** A frontier of one version has the top of the range as that version. */
  lemma {:induction false} SingleTop(es: seq<CGEntry>, i: nat, f: seq<nat>, h: set<nat>, from: nat, cut: nat, end: nat)
    requires FrontierEntries(es) && i < |es| && es[i].version <= cut < end <= es[i].vEnd && from <= cut
    requires |f| == 1 && InGraph(Expand(es), f) && Hist(Expand(es), f) == h + Range(from, end) && Range(from, end) !! h && Closed(Expand(es), h)
    requires InGraph(Expand(es), Expand(es)[cut]) && Hist(Expand(es), [end - 1]) == Hist(Expand(es), Expand(es)[cut]) + Range(cut, end)
    ensures Hist(Expand(es), Expand(es)[cut]) == h + Range(from, cut)
  {
    hide Expand, ValidEntries;
    var g := Expand(es);
    TopInFrontier(g, f, h, from, end);
    assert f == [end - 1];
    PartHist(es, i, cut, end);
  }

  /** The top of the range is a member of the frontier: nothing else present builds on it. */
  lemma {:induction false} TopInFrontier(g: Graph, f: seq<nat>, h: set<nat>, from: nat, end: nat)
    requires WellFormed(g) && InGraph(g, f) && from < end <= |g|
    requires Hist(g, f) == h + Range(from, end) && Range(from, end) !! h && Closed(g, h)
    ensures end - 1 in f
  {
    var top := end - 1;
    var v := AboveIt(g, f, top);
    HistClosed(g, f);
    hide Hist, Reaches;
    ReachesLower(g, v, top);
    if v in h { ClosedReaches(g, h, v, top); }
  }

  /** Without the top of the range, the frontier covers nothing of the part that goes. */
  lemma {:induction false} TopRemoved(es: seq<CGEntry>, i: nat, f: seq<nat>, rest: seq<nat>, h: set<nat>, from: nat, cut: nat, end: nat)
    requires FrontierEntries(es) && i < |es| && es[i].version <= cut < end <= es[i].vEnd && from <= cut
    requires Dominators.IsFrontier(Expand(es), f) && Hist(Expand(es), f) == h + Range(from, end) && Range(from, end) !! h && Closed(Expand(es), h)
    requires InGraph(Expand(es), Expand(es)[cut]) && Hist(Expand(es), [end - 1]) == Hist(Expand(es), Expand(es)[cut]) + Range(cut, end)
    requires StrictlyAscending(rest) && forall v :: v in rest <==> v in f && v != end - 1
    ensures Dominators.IsFrontier(Expand(es), rest)
    ensures Hist(Expand(es), rest) + Hist(Expand(es), Expand(es)[cut]) == h + Range(from, cut)
    ensures forall p, v | p in Expand(es)[cut] && v in rest :: !Reaches(Expand(es), p, v)
  {
    hide Expand, ValidEntries, Reaches, Hist;
    var g := Expand(es);
    PartHist(es, i, cut, end);
    TopInFrontier(g, f, h, from, end);
    HistJoin(g, rest, [end - 1]);
    HistMonotoneIn(g, f, rest + [end - 1]);
    HistMonotoneIn(g, rest + [end - 1], f);
    forall x | x in Hist(g, rest)
      ensures !(cut <= x < end)
    {
      var v := AboveIt(g, rest, x);
      RestBelow(es, i, f, h, from, cut, end, v, x);
    }
    forall p, v | p in g[cut] && v in rest
      ensures !Reaches(g, p, v)
    {
      assert !Reaches(g, end - 1, v);
      BelowMember(g, g[cut], p, v);
      NotBelow(g, end - 1, v);
    }
  }

  lemma {:induction false} AboveIt(g: Graph, f: seq<nat>, x: nat) returns (v: nat)
    requires WellFormed(g) && InGraph(g, f) && x in Hist(g, f)
    ensures v in f && v < |g| && Reaches(g, v, x)
  {
    v :| v in f && Reaches(g, v, x);
  }

  lemma {:induction false} NotBelow(g: Graph, t: nat, v: nat)
    requires WellFormed(g) && t < |g| && !Reaches(g, t, v)
    ensures InGraph(g, [t]) && v !in Hist(g, [t])
  {
  }

  lemma {:induction false} RestBelow(es: seq<CGEntry>, i: nat, f: seq<nat>, h: set<nat>, from: nat, cut: nat, end: nat, v: nat, x: nat)
    requires FrontierEntries(es) && i < |es| && es[i].version <= cut < end <= es[i].vEnd && from <= cut
    requires Dominators.IsFrontier(Expand(es), f) && Hist(Expand(es), f) == h + Range(from, end) && Range(from, end) !! h && Closed(Expand(es), h)
    requires v in f && v != end - 1 && end - 1 in f && v < |Expand(es)| && Reaches(Expand(es), v, x)
    ensures !(cut <= x < end)
  {
    hide Expand, ValidEntries, Reaches;
    var g := Expand(es);
    HistClosed(g, f);
    ReachesLower(g, v, x);
    if v in h {
      ClosedReaches(g, h, v, x);
    } else {
      PartHist(es, i, cut, end);
      assert !Reaches(g, end - 1, v);
    }
  }

  /** Retreating over what has been advanced over gives the frontier back. */
  method AdvanceAndRetreat(f: Frontier, es: seq<CGEntry>, range: LVRange)
    requires FrontierEntries(es) && range.start < range.end <= NextLV(es)
    requires Dominators.IsFrontier(Expand(es), f.vs) && Range(range.start, range.end) !! Hist(Expand(es), f.vs)
    requires ParentsReady(Expand(es), Hist(Expand(es), f.vs), range.start, range.end)
    modifies f
    ensures f.vs == old(f.vs)
  {
    hide Expand, ValidEntries, Hist;
    ghost var g, vs0 := Expand(es), f.vs;
    HistClosed(g, vs0);
    f.Advance(es, range);
    f.Retreat(es, range, Hist(g, vs0));
    FrontierUnique(g, vs0, f.vs);
  }

  lemma {:induction false} InsertedMembers(vs: seq<nat>, k: nat, x: nat)
    requires StrictlyAscending(vs) && k <= |vs| && (forall i | 0 <= i < k :: vs[i] < x) && (forall i | k <= i < |vs| :: x < vs[i])
    ensures StrictlyAscending(vs[..k] + [x] + vs[k..])
    ensures forall v :: v in vs[..k] + [x] + vs[k..] <==> v in vs || v == x
  {
    assert vs == vs[..k] + vs[k..];
  }

  lemma {:induction false} NotMember(g: Graph, f: seq<nat>, v: nat, run: set<nat>)
    requires WellFormed(g) && InGraph(g, f) && v in run && run !! Hist(g, f)
    ensures v !in f
  {
    HistClosed(g, f);
  }

  lemma {:induction false} Replaced(f: seq<nat>, parents: seq<nat>, last: nat)
    requires forall v | v in f :: v in parents
    ensures StrictlyAscending([last]) && forall v :: v in [last] <==> (v in f && v !in parents) || v == last
  {
  }

  lemma {:induction false} FrontierInGraph(g: Graph, f: seq<nat>)
    requires WellFormed(g) && Dominators.IsFrontier(g, f)
    ensures InGraph(g, f) && StrictlyAscending(f)
  {
  }

  lemma {:induction false} EntriesValid(es: seq<CGEntry>)
    requires FrontierEntries(es)
    ensures ValidEntries(es) && WellFormed(Expand(es)) && |Expand(es)| == NextLV(es)
  {
    ExpandLength(es);
  }

  lemma {:induction false} NextEntry(es: seq<CGEntry>, i: nat)
    requires ValidEntries(es) && i < |es| && es[i].vEnd < NextLV(es)
    ensures i + 1 < |es| && es[i + 1].version == es[i].vEnd < es[i + 1].vEnd
  {
  }

  /** Parents of the range are in the history already or come earlier in the range. */
  ghost predicate ParentsReady(g: Graph, h: set<nat>, start: nat, end: nat) {
    forall v, p | start <= v < end && v < |g| && p in g[v] :: p in h || start <= p < v
  }

  lemma {:induction false} PartReady(es: seq<CGEntry>, i: nat, g: Graph, h: set<nat>, from: nat, start: nat, end: nat, upTo: nat)
    requires ValidEntries(es) && g == Expand(es) && i < |es| && es[i].version <= start < end <= es[i].vEnd && from <= start && end <= upTo
    requires Range(from, upTo) !! h && ParentsReady(g, h, from, upTo)
    ensures forall p | p in ParentsAt(es[i], start - es[i].version) :: p in h + Range(from, start)
    ensures Range(start, end) !! h + Range(from, start)
  {
    hide Expand;
    ExpandAt(es, i, start);
    assert ParentsAt(es[i], start - es[i].version) == g[start];
  }
}
