/** `versionContainsLV`, `findDominators2` and `findDominators` of causal-graph.ts. */
module Dominators {
  import opened Dag
  import opened RleGraph
  import opened Ranges
  import opened PriorityQueue

  // ---- versionContainsLV ----

  ghost predicate QueueReaches(g: Graph, queue: multiset<nat>, x: nat)
    requires WellFormed(g)
  {
    exists q :: q in queue && q < |g| && Reaches(g, q, x)
  }

  /** The inner loop: drops the queued versions of the entry that starts at `version`. */
  method DropEntry(queue0: multiset<nat>, version: nat) returns (queue: multiset<nat>)
    ensures queue <= queue0
    ensures forall q :: q in queue <==> q in queue0 && q < version
    ensures forall q | q in queue :: queue[q] == queue0[q]
  {
    queue := queue0;
    while queue != multiset{}
      invariant queue <= queue0
      invariant forall q | q in queue0 && q < version :: queue[q] == queue0[q]
      decreases |queue|
    {
      var v := Peek(queue);
      if v < version { break; }
      queue := queue - multiset{v};
    }
  }

  /** Below the dropped entry, its versions reach only what its parents reach. */
  lemma {:induction false} DropReaches(es: seq<CGEntry>, i: nat, v: nat, queue: multiset<nat>, rest: multiset<nat>, x: nat)
    requires ValidEntries(es) && WellFormed(Expand(es))
    requires i < |es| && es[i].version <= v < es[i].vEnd && x < es[i].version
    requires IsMax(queue, v)
    requires forall q :: q in rest <==> q in queue && q < es[i].version
    ensures InGraph(Expand(es), es[i].parents) && v < |Expand(es)|
    ensures QueueReaches(Expand(es), queue, x) <==> QueueReaches(Expand(es), rest, x) || InHist(Expand(es), es[i].parents, x)
  {
    var g := Expand(es);
    EntryReaches(es, i, v, x);
    if QueueReaches(g, queue, x) {
      var q :| q in queue && q < |g| && Reaches(g, q, x);
      if q < es[i].version {
        assert q in rest;
      } else {
        EntryReaches(es, i, q, x);
      }
    }
  }

  method VersionContainsLV(es: seq<CGEntry>, frontier: seq<nat>, target: nat) returns (r: bool)
    requires ValidEntries(es)
    requires WellFormed(Expand(es)) && InGraph(Expand(es), frontier) && target < |Expand(es)|
    ensures r == InHist(Expand(es), frontier, target)
  {
    hide Expand, Reaches, InHist, QueueReaches;
    ghost var g := Expand(es);
    ExpandWellFormed(es);
    if target in frontier {
      InOwnHist(g, frontier, target);
      return true;
    }
    var queue: multiset<nat> := multiset{};
    for i := 0 to |frontier|
      invariant forall q :: q in queue <==> q in frontier[..i] && q > target
    {
      assert frontier[..i + 1] == frontier[..i] + [frontier[i]];
      if frontier[i] > target {
        queue := queue + multiset{frontier[i]};
      }
    }
    assert frontier[..|frontier|] == frontier;
    InitialQueue(g, frontier, queue, target);
    ghost var lim: nat := |g|;
    while queue != multiset{}
      invariant forall q | q in queue :: target < q < lim
      invariant lim <= |g|
      invariant InHist(g, frontier, target) <==> QueueReaches(g, queue, target)
      decreases lim
    {
      var v := Peek(queue);
      if v == target { return true; }
      var idx := FindEntryContaining(es, v);
      var e := es[idx];
      if e.version <= target {
        RunReaches(es, idx, v, target);
        QueuedReaches(g, queue, v, target);
        return true;
      }
      ghost var queue0 := queue;
      queue := DropEntry(queue - multiset{v}, e.version);
      DropReaches(es, idx, v, queue0, queue, target);
      lim := e.version;
      var rest := queue;
      for k := 0 to |e.parents|
        invariant forall q | q in queue :: target < q < lim
        invariant forall q :: q in queue <==> q in rest || (q in e.parents[..k] && q > target)
        invariant target !in e.parents[..k]
      {
        var p := e.parents[k];
        assert p in e.parents;
        if p == target {
          InOwnHist(g, e.parents, target);
          return true;
        }
        assert e.parents[..k + 1] == e.parents[..k] + [p];
        if p > target {
          queue := queue + multiset{p};
        }
      }
      assert e.parents[..|e.parents|] == e.parents;
      ParentsQueued(g, e.parents, rest, queue, target);
    }
    NothingQueuedReaches(g, target);
    r := false;
  }

  lemma {:induction false} InOwnHist(g: Graph, f: seq<nat>, v: nat)
    requires WellFormed(g) && InGraph(g, f) && v in f
    ensures InHist(g, f, v)
  {
    assert Reaches(g, v, v);
  }

  lemma {:induction false} QueuedReaches(g: Graph, queue: multiset<nat>, v: nat, x: nat)
    requires WellFormed(g) && v in queue && v < |g| && Reaches(g, v, x)
    ensures QueueReaches(g, queue, x)
  {
  }

  lemma {:induction false} NothingQueuedReaches(g: Graph, x: nat)
    requires WellFormed(g)
    ensures !QueueReaches(g, multiset{}, x)
  {
  }

  lemma {:induction false} InitialQueue(g: Graph, frontier: seq<nat>, queue: multiset<nat>, target: nat)
    requires WellFormed(g) && InGraph(g, frontier) && target !in frontier
    requires forall q :: q in queue <==> q in frontier && q > target
    ensures InHist(g, frontier, target) <==> QueueReaches(g, queue, target)
  {
    ParentsQueued(g, frontier, multiset{}, queue, target);
  }

  lemma {:induction false} ParentsQueued(g: Graph, parents: seq<nat>, rest: multiset<nat>, queue: multiset<nat>, target: nat)
    requires WellFormed(g) && InGraph(g, parents) && target !in parents
    requires forall q :: q in queue <==> q in rest || (q in parents && q > target)
    ensures QueueReaches(g, queue, target) <==> QueueReaches(g, rest, target) || InHist(g, parents, target)
  {
    if InHist(g, parents, target) {
      var p :| p in parents && Reaches(g, p, target);
      ReachesLower(g, p, target);
      assert p in queue;
    }
  }

  // ---- findDominators2 ----

  datatype Report = Report(v: nat, isDominator: bool)

  /** `v` is listed, and no other listed version has it in its history. */
  ghost predicate IsDominator(g: Graph, versions: seq<nat>, v: nat)
    requires WellFormed(g) && InGraph(g, versions)
  {
    v in versions && forall w | w in versions && w != v :: !Reaches(g, w, v)
  }

  /** The queue holds listed versions as even numbers and their ancestors as odd ones. */
  function Input(v: nat): nat { v * 2 }

  predicate IsInput(q: nat) { q % 2 == 0 }

  function Half(q: nat): nat { q / 2 }

  function Ancestor(v: nat): nat { v * 2 + 1 }

  function Listed(reports: seq<Report>): seq<nat> {
    seq(|reports|, i requires 0 <= i < |reports| => reports[i].v)
  }

  function DominatorsOf(reports: seq<Report>): seq<nat> {
    if reports == [] then []
    else
      var k := |reports| - 1;
      DominatorsOf(reports[..k]) + (if reports[k].isDominator then [reports[k].v] else [])
  }

  ghost predicate StrictlyDescending(vs: seq<nat>) {
    forall i, j | 0 <= i < j < |vs| :: vs[i] > vs[j]
  }

  ghost predicate NonAscending(vs: seq<nat>) {
    forall i, j | 0 <= i < j < |vs| :: vs[i] >= vs[j]
  }

  /** Some listed version at or above `lim` has `x` in its history. */
  ghost predicate Dominated(g: Graph, versions: seq<nat>, lim: nat, x: nat)
    requires WellFormed(g) && InGraph(g, versions)
  {
    exists w :: w in versions && lim <= w && Reaches(g, w, x)
  }

  /** Some queued ancestor of a listed version has `x` in its history. */
  ghost predicate AncestorReaches(g: Graph, queue: multiset<nat>, x: nat)
    requires WellFormed(g)
  {
    exists p: nat :: Ancestor(p) in queue && p < |g| && Reaches(g, p, x)
  }

  /** Reported and still queued listings together are the input, and reports come largest first. */
  ghost predicate Tally(versions: seq<nat>, reports: seq<Report>, queue: multiset<nat>, pending: multiset<nat>) {
    && (forall x: nat :: queue[Input(x)] == pending[x])
    && multiset(Listed(reports)) + pending == multiset(versions)
    && NonAscending(Listed(reports))
  }

  /** Exactly the dominators at or above `lim` have been reported as such, each once. */
  ghost predicate Truths(g: Graph, versions: seq<nat>, doms: seq<nat>, lim: nat)
    requires WellFormed(g) && InGraph(g, versions)
  {
    && StrictlyDescending(doms)
    && (forall x: nat :: x in doms <==> lim <= x && IsDominator(g, versions, x))
  }

  ghost predicate DominatorQueue(g: Graph, versions: seq<nat>, queue: multiset<nat>, pending: multiset<nat>, lim: nat)
    requires WellFormed(g) && InGraph(g, versions)
  {
    && lim <= |g|
    && (forall q | q in queue :: q < Input(lim))
    && (forall x: nat | x < lim :: pending[x] == multiset(versions)[x])
    && (forall x: nat | x < lim :: Dominated(g, versions, lim, x) <==> AncestorReaches(g, queue, x))
  }

  lemma {:induction false} ListedQueued(g: Graph, versions: seq<nat>, reports: seq<Report>, queue: multiset<nat>, pending: multiset<nat>, lim: nat, top: nat)
    requires WellFormed(g) && InGraph(g, versions)
    requires DominatorQueue(g, versions, queue, pending, lim) && Tally(versions, reports, queue, pending)
    requires forall q | q in queue :: q <= Ancestor(top)
    ensures forall x | top < x < lim :: x !in versions
  {
    forall x | x < lim && x in versions
      ensures x <= top
    {
      assert x in multiset(versions);
      assert queue[Input(x)] == pending[x];
      assert Input(x) in queue;
    }
  }

  /** Taking an even maximum: `v` is a listed version that nothing listed dominates. */
  lemma {:induction false} TopInput(g: Graph, versions: seq<nat>, reports: seq<Report>, queue: multiset<nat>, pending: multiset<nat>, lim: nat, v: nat)
    requires WellFormed(g) && InGraph(g, versions)
    requires DominatorQueue(g, versions, queue, pending, lim) && Tally(versions, reports, queue, pending)
    requires IsMax(queue, Input(v))
    ensures v < lim && pending[v] > 0 && IsDominator(g, versions, v)
    ensures forall x | v < x < lim :: x !in versions
  {
    ListedQueued(g, versions, reports, queue, pending, lim, v);
    assert queue[Input(v)] == pending[v];
    assert v in multiset(versions);
    forall w | w in versions && w != v
      ensures !Reaches(g, w, v)
    {
      if Reaches(g, w, v) {
        ReachesLower(g, w, v);
        assert Dominated(g, versions, lim, v);
        var p: nat :| Ancestor(p) in queue && p < |g| && Reaches(g, p, v);
        ReachesLower(g, p, v);
        assert false;
      }
    }
  }

  /** Taking an odd maximum: nothing is listed in `(v, lim)`, and `v` is below a listed version. */
  lemma {:induction false} TopAncestor(g: Graph, versions: seq<nat>, reports: seq<Report>, queue: multiset<nat>, pending: multiset<nat>, lim: nat, v: nat)
    requires WellFormed(g) && InGraph(g, versions)
    requires DominatorQueue(g, versions, queue, pending, lim) && Tally(versions, reports, queue, pending)
    requires IsMax(queue, Ancestor(v))
    ensures v < lim && v < |g| && Dominated(g, versions, lim, v)
    ensures forall x | v < x < lim :: x !in versions
  {
    ListedQueued(g, versions, reports, queue, pending, lim, v);
    assert Reaches(g, v, v);
    assert AncestorReaches(g, queue, v);
  }

  lemma {:induction false} TopListing(g: Graph, versions: seq<nat>, reports: seq<Report>, queue: multiset<nat>, pending: multiset<nat>, lim: nat, enc: nat)
    requires WellFormed(g) && InGraph(g, versions)
    requires DominatorQueue(g, versions, queue, pending, lim) && Tally(versions, reports, queue, pending)
    requires IsMax(queue, enc)
    requires forall r | r in reports :: lim <= r.v
    ensures Half(enc) < lim <= |g|
    ensures if IsInput(enc) then IsDominator(g, versions, Half(enc)) else Dominated(g, versions, lim, Half(enc))
    ensures forall x | Half(enc) < x < lim :: x !in versions
    ensures Below(queue, reports, Half(enc))
  {
    if IsInput(enc) {
      assert enc == Input(Half(enc));
      TopInput(g, versions, reports, queue, pending, lim, Half(enc));
    } else {
      assert enc == Ancestor(Half(enc));
      TopAncestor(g, versions, reports, queue, pending, lim, Half(enc));
    }
  }

  lemma {:induction false} NextQueue(es: seq<CGEntry>, i: nat, versions: seq<nat>, queue: multiset<nat>, queue': multiset<nat>, lim: nat, v: nat)
    requires ValidEntries(es) && WellFormed(Expand(es)) && InGraph(Expand(es), versions)
    requires i < |es| && es[i].version <= v < es[i].vEnd && v < lim <= |Expand(es)|
    requires forall x: nat | x < lim :: Dominated(Expand(es), versions, lim, x) <==> AncestorReaches(Expand(es), queue, x)
    requires v in versions || Dominated(Expand(es), versions, lim, v)
    requires forall q | q in queue :: q <= Ancestor(v)
    requires forall x | v < x < lim :: x !in versions
    requires forall p: nat :: Ancestor(p) in queue' <==> (Ancestor(p) in queue && p < es[i].version) || p in es[i].parents
    ensures forall x: nat | x < es[i].version ::
              Dominated(Expand(es), versions, es[i].version, x) <==> AncestorReaches(Expand(es), queue', x)
  {
    var g := Expand(es);
    ExpandWellFormed(es);
    var e := es[i];
    forall x: nat | x < e.version
      ensures Dominated(g, versions, e.version, x) <==> AncestorReaches(g, queue', x)
    {
      EntryReaches(es, i, v, x);
      if Dominated(g, versions, e.version, x) {
        var w :| w in versions && e.version <= w && Reaches(g, w, x);
        if lim <= w {
          assert Dominated(g, versions, lim, x);
          var p: nat :| Ancestor(p) in queue && p < |g| && Reaches(g, p, x);
          assert Ancestor(p) <= Ancestor(v);
          if e.version <= p {
            EntryReaches(es, i, p, x);
            ParentsAncestors(g, e.parents, queue', x);
          }
        } else {
          EntryReaches(es, i, w, x);
          ParentsAncestors(g, e.parents, queue', x);
        }
      }
      if AncestorReaches(g, queue', x) {
        var p: nat :| Ancestor(p) in queue' && p < |g| && Reaches(g, p, x);
        if p in e.parents {
          assert InHist(g, e.parents, x);
          DominatedThrough(g, versions, lim, e.version, v, x);
        } else {
          assert AncestorReaches(g, queue, x);
        }
      }
    }
  }

  lemma {:induction false} ParentsAncestors(g: Graph, parents: seq<nat>, queue: multiset<nat>, x: nat)
    requires WellFormed(g) && InGraph(g, parents) && InHist(g, parents, x)
    requires forall p: nat | p in parents :: Ancestor(p) in queue
    ensures AncestorReaches(g, queue, x)
  {
  }

  lemma {:induction false} DominatedThrough(g: Graph, versions: seq<nat>, lim: nat, low: nat, v: nat, x: nat)
    requires WellFormed(g) && InGraph(g, versions) && v < |g| && low <= v < lim && x < |g|
    requires v in versions || Dominated(g, versions, lim, v)
    requires Reaches(g, v, x)
    ensures Dominated(g, versions, low, x)
  {
    if v !in versions {
      var w :| w in versions && lim <= w && Reaches(g, w, v);
      ReachesTransitive(g, w, v, x);
    }
  }

  /** Listed versions of the entry below `v` are dominated; `v` itself only if it was not listed. */
  lemma {:induction false} NextTruths(es: seq<CGEntry>, i: nat, versions: seq<nat>, doms: seq<nat>, lim: nat, v: nat, isInput: bool, doms': seq<nat>)
    requires ValidEntries(es) && WellFormed(Expand(es)) && InGraph(Expand(es), versions)
    requires i < |es| && es[i].version <= v < es[i].vEnd && v < lim <= |Expand(es)|
    requires Truths(Expand(es), versions, doms, lim)
    requires forall x | v < x < lim :: x !in versions
    requires if isInput then IsDominator(Expand(es), versions, v) else Dominated(Expand(es), versions, lim, v)
    requires doms' == doms + (if isInput then [v] else [])
    ensures Truths(Expand(es), versions, doms', es[i].version)
  {
    var g := Expand(es);
    forall x: nat | es[i].version <= x < lim && IsDominator(g, versions, x)
      ensures isInput && x == v
    {
      assert x <= v;
      RunReaches(es, i, v, x);
      if !isInput {
        var w :| w in versions && lim <= w && Reaches(g, w, v);
        ReachesTransitive(g, w, v, x);
        assert false;
      }
    }
    forall i | 0 <= i < |doms| ensures doms[i] >= lim {
      assert doms[i] in doms;
    }
  }

  lemma {:induction false} ListedAppend(reports: seq<Report>, x: nat, isDominator: bool)
    requires NonAscending(Listed(reports)) && forall r | r in reports :: x <= r.v
    ensures Listed(reports + [Report(x, isDominator)]) == Listed(reports) + [x]
    ensures NonAscending(Listed(reports) + [x])
    ensures DominatorsOf(reports + [Report(x, isDominator)]) == DominatorsOf(reports) + (if isDominator then [x] else [])
  {
    assert (reports + [Report(x, isDominator)])[..|reports|] == reports;
    forall i | 0 <= i < |reports|
      ensures Listed(reports)[i] >= x
    {
      assert reports[i] in reports;
    }
  }

  lemma {:induction false} PendingStep(queue: multiset<nat>, pending: multiset<nat>, x: nat)
    requires Input(x) in queue && forall y: nat :: queue[Input(y)] == pending[y]
    ensures pending[x] > 0 && |pending - multiset{x}| == |pending| - 1
    ensures pending == (pending - multiset{x}) + multiset{x}
    ensures forall y: nat :: (queue - multiset{Input(x)})[Input(y)] == (pending - multiset{x})[y]
  {
    assert queue[Input(x)] == pending[x];
    forall y: nat
      ensures (queue - multiset{Input(x)})[Input(y)] == (pending - multiset{x})[y]
    {
      assert queue[Input(y)] == pending[y];
    }
  }

  /** Reporting the listing `x` moves it from the queue to the reports. */
  lemma {:induction false} TallyStep(versions: seq<nat>, reports: seq<Report>, queue: multiset<nat>, pending: multiset<nat>, x: nat, isDominator: bool)
    requires Tally(versions, reports, queue, pending) && Input(x) in queue
    requires forall r | r in reports :: x <= r.v
    ensures pending[x] > 0 && |pending - multiset{x}| == |pending| - 1
    ensures Tally(versions, reports + [Report(x, isDominator)], queue - multiset{Input(x)}, pending - multiset{x})
    ensures DominatorsOf(reports + [Report(x, isDominator)]) == DominatorsOf(reports) + (if isDominator then [x] else [])
  {
    ListedAppend(reports, x, isDominator);
    PendingStep(queue, pending, x);
    assert multiset(Listed(reports) + [x]) == multiset(Listed(reports)) + multiset{x};
  }

  /** Taking an odd entry off the queue leaves the tally alone. */
  lemma {:induction false} TallyOdd(versions: seq<nat>, reports: seq<Report>, queue: multiset<nat>, pending: multiset<nat>, q: nat)
    requires Tally(versions, reports, queue, pending) && !IsInput(q)
    ensures Tally(versions, reports, queue - multiset{q}, pending)
  {
    forall y: nat
      ensures (queue - multiset{q})[Input(y)] == pending[y]
    {
      assert queue[Input(y)] == pending[y];
    }
  }

  /** What one turn of the inner loop does with the maximum `enc`. */
  function ReportsAfter(reports: seq<Report>, enc: nat, isDominator: bool): seq<Report> {
    if IsInput(enc) then reports + [Report(Half(enc), isDominator)] else reports
  }

  ghost function PendingAfter(pending: multiset<nat>, enc: nat): multiset<nat> {
    if IsInput(enc) then pending - multiset{Half(enc)} else pending
  }

  ghost predicate Below(queue: multiset<nat>, reports: seq<Report>, bound: nat) {
    && (forall q | q in queue :: q <= Ancestor(bound))
    && (forall r | r in reports :: bound <= r.v)
  }

  lemma {:induction false} DrainStep(versions: seq<nat>, reports: seq<Report>, queue: multiset<nat>, pending: multiset<nat>, bound: nat, enc: nat, isDominator: bool)
    requires Tally(versions, reports, queue, pending) && Below(queue, reports, bound) && IsMax(queue, enc)
    ensures Tally(versions, ReportsAfter(reports, enc, isDominator), queue - multiset{enc}, PendingAfter(pending, enc))
    ensures |PendingAfter(pending, enc)| == if IsInput(enc) then |pending| - 1 else |pending|
    ensures Below(queue - multiset{enc}, ReportsAfter(reports, enc, isDominator), Half(enc))
    ensures DominatorsOf(ReportsAfter(reports, enc, isDominator)) ==
            DominatorsOf(reports) + (if IsInput(enc) && isDominator then [Half(enc)] else [])
    ensures forall x: nat | x < Half(enc) :: PendingAfter(pending, enc)[x] == pending[x]
  {
    hide Tally, Below, DominatorsOf;
    var x := Half(enc);
    BelowAfter(queue, reports, bound, enc, isDominator);
    if IsInput(enc) {
      assert enc == Input(x);
      assert ReportsAfter(reports, enc, isDominator) == reports + [Report(x, isDominator)];
      assert PendingAfter(pending, enc) == pending - multiset{x};
      TallyStep(versions, reports, queue, pending, x, isDominator);
    } else {
      assert ReportsAfter(reports, enc, isDominator) == reports;
      assert PendingAfter(pending, enc) == pending;
      TallyOdd(versions, reports, queue, pending, enc);
    }
  }

  lemma {:induction false} BelowAfter(queue: multiset<nat>, reports: seq<Report>, bound: nat, enc: nat, isDominator: bool)
    requires Below(queue, reports, bound) && IsMax(queue, enc)
    ensures Half(enc) <= bound
    ensures Below(queue - multiset{enc}, ReportsAfter(reports, enc, isDominator), Half(enc))
  {
    forall q | q in queue - multiset{enc}
      ensures q <= Ancestor(Half(enc))
    {
      assert q in queue;
    }
  }

  /** Draining down to `version` leaves everything below it in place. */
  ghost predicate Untouched(queue: multiset<nat>, queue0: multiset<nat>, pending: multiset<nat>, pending0: multiset<nat>, version: nat) {
    && (forall q | q < Input(version) :: queue[q] == queue0[q])
    && (forall x: nat | x < version :: pending[x] == pending0[x])
  }

  lemma {:induction false} UntouchedStep(queue: multiset<nat>, queue0: multiset<nat>, pending: multiset<nat>, pending0: multiset<nat>, version: nat, enc: nat)
    requires Untouched(queue, queue0, pending, pending0, version) && Input(version) <= enc
    ensures Untouched(queue - multiset{enc}, queue0, PendingAfter(pending, enc), pending0, version)
  {
  }

  lemma {:induction false} DrainedExactly(queue: multiset<nat>, queue0: multiset<nat>, pending: multiset<nat>, pending0: multiset<nat>, version: nat)
    requires Untouched(queue, queue0, pending, pending0, version)
    requires forall q | q in queue :: q < Input(version)
    ensures forall q :: queue[q] == if q < Input(version) then queue0[q] else 0
    ensures forall x: nat | x < version :: pending[x] == pending0[x]
  {
  }

  /** The inner loop: every queued listing inside the entry is reported as dominated. */
  method DrainInputs(queue0: multiset<nat>, version: nat, reports0: seq<Report>, remaining0: int, ghost top: nat, ghost versions: seq<nat>, ghost pending0: multiset<nat>)
    returns (queue: multiset<nat>, reports: seq<Report>, remaining: int, ghost pending: multiset<nat>)
    requires Tally(versions, reports0, queue0, pending0) && remaining0 == |pending0|
    requires Below(queue0, reports0, top) && version <= top
    ensures Tally(versions, reports, queue, pending) && remaining == |pending|
    ensures forall r | r in reports :: version <= r.v
    ensures forall q :: queue[q] == if q < Input(version) then queue0[q] else 0
    ensures forall x: nat | x < version :: pending[x] == pending0[x]
    ensures DominatorsOf(reports) == DominatorsOf(reports0)
  {
    hide Tally, ReportsAfter, DominatorsOf;
    queue, reports, remaining, pending := queue0, reports0, remaining0, pending0;
    ghost var bound: nat := top;
    while queue != multiset{}
      invariant Tally(versions, reports, queue, pending) && remaining == |pending|
      invariant Below(queue, reports, bound) && version <= bound
      invariant Untouched(queue, queue0, pending, pending0, version)
      invariant DominatorsOf(reports) == DominatorsOf(reports0)
      decreases |queue|
    {
      var enc := Peek(queue);
      if enc < Input(version) { break; }
      DrainStep(versions, reports, queue, pending, bound, enc, false);
      UntouchedStep(queue, queue0, pending, pending0, version, enc);
      BelowAfter(queue, reports, bound, enc, false);
      reports, pending, bound := ReportsAfter(reports, enc, false), PendingAfter(pending, enc), Half(enc);
      remaining := if IsInput(enc) then remaining - 1 else remaining;
      queue := queue - multiset{enc};
    }
    DrainedExactly(queue, queue0, pending, pending0, version);
  }

  /** Queues the parents of an entry as ancestors. */
  method EnqAncestors(queue0: multiset<nat>, parents: seq<nat>) returns (queue: multiset<nat>)
    ensures forall x: nat :: queue[Input(x)] == queue0[Input(x)]
    ensures forall p: nat :: Ancestor(p) in queue <==> Ancestor(p) in queue0 || p in parents
    ensures forall q | q in queue :: q in queue0 || exists p :: p in parents && q == Ancestor(p)
  {
    queue := queue0;
    for k := 0 to |parents|
      invariant forall x: nat :: queue[Input(x)] == queue0[Input(x)]
      invariant forall p: nat :: Ancestor(p) in queue <==> Ancestor(p) in queue0 || p in parents[..k]
      invariant forall q | q in queue :: q in queue0 || exists p :: p in parents && q == Ancestor(p)
    {
      assert parents[..k + 1] == parents[..k] + [parents[k]];
      assert parents[k] in parents;
      queue := queue + multiset{Ancestor(parents[k])};
    }
    assert parents[..|parents|] == parents;
  }

  lemma {:induction false} AncestorsLeft(queue: multiset<nat>, drained: multiset<nat>, queue': multiset<nat>, enc: nat, version: nat, parents: seq<nat>)
    requires Input(version) <= enc
    requires forall q :: drained[q] == if q < Input(version) then (queue - multiset{enc})[q] else 0
    requires forall p: nat :: Ancestor(p) in queue' <==> Ancestor(p) in drained || p in parents
    requires forall q | q in queue' :: q in drained || exists p :: p in parents && q == Ancestor(p)
    requires forall p | p in parents :: p < version
    ensures forall p: nat :: Ancestor(p) in queue' <==> (Ancestor(p) in queue && p < version) || p in parents
    ensures forall q | q in queue' :: q < Input(version)
  {
    forall p: nat
      ensures Ancestor(p) in drained <==> Ancestor(p) in queue && p < version
    {
      assert drained[Ancestor(p)] == if Ancestor(p) < Input(version) then (queue - multiset{enc})[Ancestor(p)] else 0;
    }
    forall q | q in drained
      ensures q < Input(version)
    {
      assert drained[q] > 0;
    }
  }

  /** After the parents are queued the invariants hold again, one entry lower. */
  lemma {:induction false} NextRound(es: seq<CGEntry>, i: nat, versions: seq<nat>, queue: multiset<nat>, drained: multiset<nat>, queue': multiset<nat>,
                                     pending0: multiset<nat>, pending: multiset<nat>, reports: seq<Report>, lim: nat, enc: nat)
    requires ValidEntries(es) && WellFormed(Expand(es)) && InGraph(Expand(es), versions)
    requires i < |es| && es[i].version <= Half(enc) < es[i].vEnd && Half(enc) < lim
    requires DominatorQueue(Expand(es), versions, queue, pending0, lim) && IsMax(queue, enc)
    requires if IsInput(enc) then IsDominator(Expand(es), versions, Half(enc)) else Dominated(Expand(es), versions, lim, Half(enc))
    requires forall x | Half(enc) < x < lim :: x !in versions
    requires forall q :: drained[q] == if q < Input(es[i].version) then (queue - multiset{enc})[q] else 0
    requires forall x: nat | x < es[i].version :: pending[x] == pending0[x]
    requires forall x: nat :: queue'[Input(x)] == drained[Input(x)]
    requires forall p: nat :: Ancestor(p) in queue' <==> Ancestor(p) in drained || p in es[i].parents
    requires forall q | q in queue' :: q in drained || exists p :: p in es[i].parents && q == Ancestor(p)
    requires Tally(versions, reports, drained, pending)
    ensures Tally(versions, reports, queue', pending)
    ensures DominatorQueue(Expand(es), versions, queue', pending, es[i].version)
  {
    AncestorsLeft(queue, drained, queue', enc, es[i].version, es[i].parents);
    NextQueue(es, i, versions, queue, queue', lim, Half(enc));
  }

  /** One round of the outer loop: classifies every listing in the entry of the queue's maximum. */
  method DominatorRound(es: seq<CGEntry>, queue0: multiset<nat>, reports0: seq<Report>, remaining0: int,
                        ghost versions: seq<nat>, ghost pending0: multiset<nat>, ghost lim0: nat)
    returns (queue: multiset<nat>, reports: seq<Report>, remaining: int, ghost pending: multiset<nat>, ghost lim: nat)
    requires ValidEntries(es) && WellFormed(Expand(es)) && InGraph(Expand(es), versions)
    requires DominatorQueue(Expand(es), versions, queue0, pending0, lim0) && queue0 != multiset{}
    requires Tally(versions, reports0, queue0, pending0) && remaining0 == |pending0|
    requires Truths(Expand(es), versions, DominatorsOf(reports0), lim0)
    requires forall r | r in reports0 :: lim0 <= r.v
    ensures lim < lim0
    ensures DominatorQueue(Expand(es), versions, queue, pending, lim)
    ensures Tally(versions, reports, queue, pending) && remaining == |pending|
    ensures Truths(Expand(es), versions, DominatorsOf(reports), lim)
    ensures forall r | r in reports :: lim <= r.v
  {
    hide Expand, Reaches, Dominated, Tally, Truths, IsDominator, DominatorsOf, ReportsAfter, Below, DominatorQueue;
    var enc := Peek(queue0);
    var v := Half(enc);
    TopListing(Expand(es), versions, reports0, queue0, pending0, lim0, enc);
    DrainStep(versions, reports0, queue0, pending0, v, enc, true);
    reports, pending := ReportsAfter(reports0, enc, true), PendingAfter(pending0, enc);
    remaining := if IsInput(enc) then remaining0 - 1 else remaining0;
    ExpandWellFormed(es);
    var idx := FindEntryContaining(es, v);
    lim := es[idx].version;
    queue, reports, remaining, pending := DrainInputs(queue0 - multiset{enc}, es[idx].version, reports, remaining, v, versions, pending);
    NextTruths(es, idx, versions, DominatorsOf(reports0), lim0, v, IsInput(enc), DominatorsOf(reports));
    ghost var drained := queue;
    queue := EnqAncestors(queue, es[idx].parents);
    NextRound(es, idx, versions, queue0, drained, queue, pending0, pending, reports, lim0, enc);
  }

  /** What the callback of `findDominators2` receives, and in which order. */
  ghost predicate Classified(g: Graph, versions: seq<nat>, reports: seq<Report>)
    requires WellFormed(g) && InGraph(g, versions)
  {
    && multiset(Listed(reports)) == multiset(versions)
    && NonAscending(Listed(reports))
    && StrictlyDescending(DominatorsOf(reports))
    && (forall v: nat :: v in DominatorsOf(reports) <==> IsDominator(g, versions, v))
  }

  ghost predicate InputsQueued(queue: multiset<nat>, versions: seq<nat>) {
    && (forall x: nat :: queue[Input(x)] == multiset(versions)[x])
    && (forall q | q in queue :: q == Input(Half(q)) && Half(q) in versions)
  }

  lemma {:induction false} InputsQueuedStep(queue: multiset<nat>, versions: seq<nat>, v: nat)
    requires InputsQueued(queue, versions)
    ensures InputsQueued(queue + multiset{Input(v)}, versions + [v])
  {
    hide Input, Half;
    var queue', versions' := queue + multiset{Input(v)}, versions + [v];
    assert multiset(versions') == multiset(versions) + multiset{v};
    forall x: nat
      ensures queue'[Input(x)] == multiset(versions')[x]
    {
      InputApart(x, v);
      assert queue[Input(x)] == multiset(versions)[x];
    }
    forall q | q in queue'
      ensures q == Input(Half(q)) && Half(q) in versions'
    {
      if q != Input(v) {
        assert q in queue;
      } else {
        InputApart(v, v);
        assert versions'[|versions|] == v;
      }
    }
  }

  lemma {:induction false} InputApart(x: nat, v: nat)
    ensures Half(Input(x)) == x && (Input(x) == Input(v) ==> x == v)
  {
  }

  method EnqInputs(versions: seq<nat>) returns (queue: multiset<nat>)
    ensures InputsQueued(queue, versions)
  {
    queue := multiset{};
    for i := 0 to |versions|
      invariant InputsQueued(queue, versions[..i])
    {
      assert versions[..i + 1] == versions[..i] + [versions[i]];
      InputsQueuedStep(queue, versions[..i], versions[i]);
      queue := queue + multiset{Input(versions[i])};
    }
    assert versions[..|versions|] == versions;
  }

  lemma {:induction false} InitialDominatorQueue(g: Graph, versions: seq<nat>, queue: multiset<nat>)
    requires WellFormed(g) && InGraph(g, versions)
    requires InputsQueued(queue, versions)
    ensures DominatorQueue(g, versions, queue, multiset(versions), |g|)
    ensures Tally(versions, [], queue, multiset(versions))
    ensures Truths(g, versions, DominatorsOf([]), |g|)
  {
  }

  lemma {:induction false} AllReported(g: Graph, versions: seq<nat>, reports: seq<Report>, queue: multiset<nat>, pending: multiset<nat>, lim: nat)
    requires WellFormed(g) && InGraph(g, versions)
    requires DominatorQueue(g, versions, queue, pending, lim) && Tally(versions, reports, queue, pending)
    requires Truths(g, versions, DominatorsOf(reports), lim)
    requires queue == multiset{} || |pending| == 0
    ensures Classified(g, versions, reports)
  {
    forall x: nat
      ensures pending[x] == 0
    {
      assert queue[Input(x)] == pending[x];
    }
    assert pending == multiset{};
    forall x: nat | IsDominator(g, versions, x)
      ensures lim <= x
    {
      assert x in multiset(versions);
    }
  }

  lemma {:induction false} EmptyReports()
    ensures Listed([]) == [] && DominatorsOf([]) == []
  {
  }

  lemma {:induction false} PairDominators(g: Graph, versions: seq<nat>, v0: nat, v1: nat)
    requires WellFormed(g) && InGraph(g, versions) && multiset(versions) == multiset{v0, v1} && v0 < v1 < |g|
    ensures forall v: nat :: IsDominator(g, versions, v) <==> v == v1 || (v == v0 && !Reaches(g, v1, v0))
  {
    hide Reaches;
    forall v: nat
      ensures v in versions <==> v == v0 || v == v1
    {
      assert v in versions <==> v in multiset(versions);
    }
    if Reaches(g, v0, v1) {
      ReachesLower(g, v0, v1);
    }
  }

  lemma {:induction false} PairClassified(g: Graph, versions: seq<nat>, v0: nat, v1: nat, isDominator: bool)
    requires WellFormed(g) && InGraph(g, versions) && multiset(versions) == multiset{v0, v1} && v0 < v1 < |g|
    requires isDominator <==> !Reaches(g, v1, v0)
    ensures Classified(g, versions, [Report(v1, true), Report(v0, isDominator)])
  {
    hide DominatorsOf, Listed, Reaches, IsDominator;
    PairReports(v0, v1, isDominator);
    PairDominators(g, versions, v0, v1);
    assert multiset([v1, v0]) == multiset{v0, v1};
  }

  lemma {:induction false} PairReports(v0: nat, v1: nat, isDominator: bool)
    requires v0 <= v1
    ensures var reports := [Report(v1, true), Report(v0, isDominator)];
            Listed(reports) == [v1, v0] && DominatorsOf(reports) == if isDominator then [v1, v0] else [v1]
  {
    hide DominatorsOf, Listed;
    var one := [Report(v1, true)];
    EmptyReports();
    assert [] + one == one;
    ListedAppend([], v1, true);
    ListedAppend(one, v0, isDominator);
    assert one + [Report(v0, isDominator)] == [Report(v1, true), Report(v0, isDominator)];
  }

  lemma {:induction false} NoneClassified(g: Graph)
    requires WellFormed(g)
    ensures InGraph(g, []) && Classified(g, [], [])
  {
    assert Listed([]) == [];
  }

  lemma {:induction false} OneClassified(g: Graph, v: nat)
    requires WellFormed(g) && v < |g|
    ensures InGraph(g, [v]) && Classified(g, [v], [Report(v, true)])
  {
    var one := [Report(v, true)];
    assert one[..0] == [];
    assert Listed(one) == [v] && DominatorsOf(one) == [v];
  }

  lemma {:induction false} SameClassified(g: Graph, v: nat)
    requires WellFormed(g) && v < |g|
    ensures InGraph(g, [v, v]) && Classified(g, [v, v], [Report(v, true), Report(v, false)])
  {
    hide Reaches;
    var one := [Report(v, true)];
    EmptyReports();
    assert [] + one == one;
    ListedAppend([], v, true);
    ListedAppend(one, v, false);
    assert one + [Report(v, false)] == [Report(v, true), Report(v, false)];
  }

  /** The calls `findDominators2` makes to its callback. */
  method FindDominators2(es: seq<CGEntry>, versions: seq<nat>) returns (reports: seq<Report>)
    requires ValidEntries(es) && WellFormed(Expand(es)) && InGraph(Expand(es), versions)
    ensures Classified(Expand(es), versions, reports)
  {
    hide Expand, Reaches, Tally, Truths, DominatorQueue, Classified, DominatorsOf;
    if |versions| == 0 {
      assert versions == [];
      NoneClassified(Expand(es));
      return [];
    } else if |versions| == 1 {
      assert versions[0] in versions;
      assert versions == [versions[0]];
      OneClassified(Expand(es), versions[0]);
      return [Report(versions[0], true)];
    } else if |versions| == 2 {
      var v0, v1 := versions[0], versions[1];
      assert v0 in versions && v1 in versions;
      assert versions == [v0, v1];
      if v0 == v1 {
        SameClassified(Expand(es), v0);
        return [Report(v0, true), Report(v0, false)];
      }
      if v0 > v1 {
        v0, v1 := v1, v0;
      }
      ExpandWellFormed(es);
      var contained := VersionContainsLV(es, [v1], v0);
      PairClassified(Expand(es), versions, v0, v1, !contained);
      return [Report(v1, true), Report(v0, !contained)];
    }
    var queue := EnqInputs(versions);
    var inputsRemaining: int := |versions|;
    reports := [];
    ghost var pending, lim: nat := multiset(versions), |Expand(es)|;
    InitialDominatorQueue(Expand(es), versions, queue);
    while queue != multiset{} && inputsRemaining > 0
      invariant DominatorQueue(Expand(es), versions, queue, pending, lim)
      invariant Tally(versions, reports, queue, pending) && inputsRemaining == |pending|
      invariant Truths(Expand(es), versions, DominatorsOf(reports), lim)
      invariant forall r | r in reports :: lim <= r.v
      decreases lim
    {
      queue, reports, inputsRemaining, pending, lim := DominatorRound(es, queue, reports, inputsRemaining, versions, pending, lim);
    }
    AllReported(Expand(es), versions, reports, queue, pending, lim);
  }

  /** A frontier: sorted, and no version is in the history of another. */
  ghost predicate IsFrontier(g: Graph, f: seq<nat>)
    requires WellFormed(g)
  {
    && InGraph(g, f)
    && StrictlyAscending(f)
    && forall v, w | v in f && w in f && v != w :: !Reaches(g, v, w)
  }

  /** Every listed version is in the history of some dominator. */
  lemma {:induction false} BelowSomeDominator(g: Graph, versions: seq<nat>, v: nat)
    requires WellFormed(g) && InGraph(g, versions) && v in versions
    ensures exists w :: IsDominator(g, versions, w) && Reaches(g, w, v)
    decreases |g| - v
  {
    if IsDominator(g, versions, v) {
      assert Reaches(g, v, v);
    } else {
      var u :| u in versions && u != v && Reaches(g, u, v);
      ReachesLower(g, u, v);
      BelowSomeDominator(g, versions, u);
      var w :| IsDominator(g, versions, w) && Reaches(g, w, u);
      ReachesTransitive(g, w, u, v);
    }
  }

  /** The frontier of the dominators has the same history as the versions it came from. */
  lemma {:induction false} DominatorsHist(g: Graph, versions: seq<nat>, f: seq<nat>)
    requires WellFormed(g) && InGraph(g, versions)
    requires forall v: nat :: v in f <==> IsDominator(g, versions, v)
    ensures InGraph(g, f) && Hist(g, f) == Hist(g, versions)
  {
    forall v | v in f ensures v in versions { }
    forall v | v in versions
      ensures v in Hist(g, f)
    {
      BelowSomeDominator(g, versions, v);
    }
    HistMonotone(g, versions, f);
    HistClosed(g, versions);
    HistMonotone(g, f, versions);
  }

  lemma {:induction false} DominatorsFrontier(g: Graph, versions: seq<nat>, doms: seq<nat>)
    requires WellFormed(g) && InGraph(g, versions) && StrictlyDescending(doms)
    requires forall v: nat :: v in doms <==> IsDominator(g, versions, v)
    ensures IsFrontier(g, Reverse(doms)) && forall v: nat :: v in Reverse(doms) <==> IsDominator(g, versions, v)
  {
    hide Reaches, Reverse;
  }

  method FindDominators(es: seq<CGEntry>, versions: seq<nat>) returns (f: seq<nat>)
    requires ValidEntries(es) && WellFormed(Expand(es)) && InGraph(Expand(es), versions)
    ensures forall v: nat :: v in f <==> IsDominator(Expand(es), versions, v)
    ensures IsFrontier(Expand(es), f)
    ensures Hist(Expand(es), f) == Hist(Expand(es), versions)
  {
    hide Expand, Reaches, Hist, DominatorsOf, ValidEntries;
    if |versions| <= 1 {
      f := versions;
      DominatorsHist(Expand(es), versions, f);
      return;
    }
    var reports := FindDominators2(es, versions);
    f := Reverse(DominatorsOf(reports));
    DominatorsFrontier(Expand(es), versions, DominatorsOf(reports));
    DominatorsHist(Expand(es), versions, f);
  }
}
