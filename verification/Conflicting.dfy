/** `findConflicting` of causal-graph.ts: finds a version that everything concurrent in two
    frontiers builds on, and visits every version above it with the side it belongs to. */
module Conflicting {
  import opened Dag
  import opened RleGraph
  import opened Ranges

  /** A set of versions reached at the same time; `v` runs from highest to lowest. */
  datatype TimePoint = TimePoint(v: seq<nat>, flag: DiffFlag)

  datatype Visit = Visit(range: LVRange, flag: DiffFlag)

  // ---- The priority queue: an unordered list with a comparator ----

  /** The queue's comparator, up to ties between points that list the same versions. */
  predicate LexLess(a: seq<nat>, b: seq<nat>) {
    if b == [] then false
    else if a == [] then true
    else a[0] < b[0] || (a[0] == b[0] && LexLess(a[1..], b[1..]))
  }

  function FlagRank(flag: DiffFlag): nat {
    match flag
    case A => 0
    case B => 1
    case Shared => 2
  }

  predicate PointLess(p: TimePoint, q: TimePoint) {
    LexLess(p.v, q.v) || (p.v == q.v && FlagRank(p.flag) < FlagRank(q.flag))
  }

  lemma {:induction false} LexTotal(a: seq<nat>, b: seq<nat>)
    ensures LexLess(a, b) || a == b || LexLess(b, a)
    ensures !(LexLess(a, b) && LexLess(b, a)) && (a == b ==> !LexLess(a, b))
  {
    if a != [] && b != [] && a[0] == b[0] {
      LexTotal(a[1..], b[1..]);
      assert a == [a[0]] + a[1..] && b == [b[0]] + b[1..];
    }
  }

  lemma {:induction false} LexTransitive(a: seq<nat>, b: seq<nat>, c: seq<nat>)
    requires !LexLess(b, a) && !LexLess(c, b)
    ensures !LexLess(c, a)
  {
    if a != [] && b != [] && c != [] && a[0] == b[0] == c[0] {
      LexTransitive(a[1..], b[1..], c[1..]);
    }
  }

  /** No queued point precedes the one at `i` in the max-first order. */
  ghost predicate IsTop(queue: seq<TimePoint>, i: nat) {
    i < |queue| && forall q | q in queue :: !PointLess(queue[i], q)
  }

  lemma {:induction false} PointTransitive(p: TimePoint, q: TimePoint, r: TimePoint)
    requires !PointLess(q, p) && !PointLess(r, q)
    ensures !PointLess(r, p)
  {
    LexTotal(p.v, q.v);
    LexTotal(q.v, r.v);
    LexTotal(p.v, r.v);
    LexTransitive(p.v, q.v, r.v);
  }

  method PeekTop(queue: seq<TimePoint>) returns (i: nat)
    requires queue != []
    ensures i < |queue| && IsTop(queue, i)
  {
    i := 0;
    LexTotal(queue[0].v, queue[0].v);
    for k := 1 to |queue|
      invariant i < k
      invariant forall j | 0 <= j < k :: !PointLess(queue[i], queue[j])
    {
      if PointLess(queue[i], queue[k]) {
        forall j | 0 <= j <= k
          ensures !PointLess(queue[k], queue[j])
        {
          LexTotal(queue[i].v, queue[k].v);
          LexTotal(queue[k].v, queue[k].v);
          if j < k {
            PointTransitive(queue[j], queue[i], queue[k]);
          }
        }
        i := k;
      }
    }
  }

  function RemoveAt(queue: seq<TimePoint>, i: nat): seq<TimePoint>
    requires i < |queue|
  {
    queue[..i] + queue[i + 1..]
  }

  // ---- What the queue stands for ----

  ghost predicate Covers(flag: DiffFlag, side: DiffFlag) {
    flag == side || flag == Shared
  }

  function Join(f: DiffFlag, f': DiffFlag): DiffFlag {
    if f == f' then f else Shared
  }

  ghost predicate SortedDown(v: seq<nat>) {
    forall i, j | 0 <= i < j < |v| :: v[i] >= v[j]
  }

  ghost predicate PointHas(g: Graph, p: TimePoint, side: DiffFlag, x: nat)
    requires WellFormed(g)
  {
    InGraph(g, p.v) && Covers(p.flag, side) && InHist(g, p.v, x)
  }

  ghost predicate Has(g: Graph, points: seq<TimePoint>, side: DiffFlag, x: nat)
    requires WellFormed(g)
  {
    exists p :: p in points && PointHas(g, p, side, x)
  }

  ghost predicate CoversSome(points: seq<TimePoint>, side: DiffFlag) {
    exists p :: p in points && Covers(p.flag, side)
  }

  /** Everything in the history of `f` is in the history of `f'`. */
  ghost predicate SubHist(g: Graph, f: seq<nat>, f': seq<nat>)
    requires WellFormed(g)
  {
    InGraph(g, f) && InGraph(g, f') && forall x: nat | InHist(g, f, x) :: InHist(g, f', x)
  }

  ghost predicate VisitedAs(visits: seq<Visit>, x: nat, flag: DiffFlag) {
    exists vis :: vis in visits && vis.flag == flag && vis.range.start <= x < vis.range.end
  }

  ghost predicate Visited(visits: seq<Visit>, x: nat) {
    exists flag :: VisitedAs(visits, x, flag)
  }

  /** Visits are non-empty, disjoint and come highest first. */
  ghost predicate VisitsDescend(visits: seq<Visit>) {
    && (forall i | 0 <= i < |visits| :: visits[i].range.start < visits[i].range.end)
    && (forall i, j | 0 <= i < j < |visits| :: visits[j].range.end <= visits[i].range.start)
  }

  ghost predicate PointsBelow(g: Graph, points: seq<TimePoint>, lim: nat) {
    forall p, v | p in points && v in p.v :: v < lim && v < |g|
  }

  /** Below `lim` the points account for both histories. */
  ghost predicate Account(g: Graph, a: seq<nat>, b: seq<nat>, points: seq<TimePoint>, lim: nat)
    requires WellFormed(g) && InGraph(g, a) && InGraph(g, b)
  {
    && (forall x: nat | x < lim :: InHist(g, a, x) <==> Has(g, points, A, x))
    && (forall x: nat | x < lim :: InHist(g, b, x) <==> Has(g, points, B, x))
  }

  /** At and above `lim` every version has been visited with the right flag. */
  ghost predicate Partitioned(g: Graph, a: seq<nat>, b: seq<nat>, visits: seq<Visit>, lim: nat)
    requires WellFormed(g) && InGraph(g, a) && InGraph(g, b)
  {
    && VisitsDescend(visits)
    && (forall vis | vis in visits :: lim <= vis.range.start && vis.range.end <= |g|)
    && (forall x: nat | lim <= x :: VisitedAs(visits, x, A) <==> InHist(g, a, x) && !InHist(g, b, x))
    && (forall x: nat | lim <= x :: VisitedAs(visits, x, B) <==> InHist(g, b, x) && !InHist(g, a, x))
    && (forall x: nat | lim <= x :: VisitedAs(visits, x, Shared) <==> InHist(g, a, x) && InHist(g, b, x))
  }

  /** Whatever has been visited builds on the whole history of some point. */
  ghost predicate BuildsOn(g: Graph, visits: seq<Visit>, points: seq<TimePoint>)
    requires WellFormed(g)
  {
    forall x: nat | x < |g| && Visited(visits, x) :: exists p :: p in points && SubHist(g, p.v, g[x])
  }

  ghost predicate Frontline(g: Graph, a: seq<nat>, b: seq<nat>, points: seq<TimePoint>, visits: seq<Visit>, lim: nat)
    requires WellFormed(g) && InGraph(g, a) && InGraph(g, b)
  {
    && PointsBelow(g, points, lim)
    && Account(g, a, b, points, lim)
    && Partitioned(g, a, b, visits, lim)
    && BuildsOn(g, visits, points)
    && CoversSome(points, A) && CoversSome(points, B)
  }

  // ---- Changing the points without changing what they stand for ----

  /** `points'` stands for the same histories as `points` and may only be lower. */
  ghost predicate Lowers(g: Graph, points: seq<TimePoint>, points': seq<TimePoint>)
    requires WellFormed(g)
  {
    && (forall side, x: nat | side != Shared :: Has(g, points, side, x) <==> Has(g, points', side, x))
    && (forall p | p in points :: exists p' :: p' in points' && SubHist(g, p'.v, p.v))
    && (forall side | side != Shared :: CoversSome(points, side) ==> CoversSome(points', side))
  }

  lemma {:induction false} SubHistTransitive(g: Graph, f: seq<nat>, f': seq<nat>, f'': seq<nat>)
    requires WellFormed(g) && SubHist(g, f, f') && SubHist(g, f', f'')
    ensures SubHist(g, f, f'')
  {
  }

  lemma {:induction false} LowersKeeps(g: Graph, a: seq<nat>, b: seq<nat>, points: seq<TimePoint>, points': seq<TimePoint>, visits: seq<Visit>, lim: nat)
    requires WellFormed(g) && InGraph(g, a) && InGraph(g, b)
    requires Frontline(g, a, b, points, visits, lim) && Lowers(g, points, points') && PointsBelow(g, points', lim)
    ensures Frontline(g, a, b, points', visits, lim)
  {
    forall x: nat | x < |g| && Visited(visits, x)
      ensures exists p :: p in points' && SubHist(g, p.v, g[x])
    {
      var p :| p in points && SubHist(g, p.v, g[x]);
      var p' :| p' in points' && SubHist(g, p'.v, p.v);
      SubHistTransitive(g, p'.v, p.v, g[x]);
    }
  }

  /** Nothing lies between the points and a limit just above them. */
  lemma {:induction false} ShrinkLimit(g: Graph, a: seq<nat>, b: seq<nat>, points: seq<TimePoint>, visits: seq<Visit>, lim: nat, lim': nat)
    requires WellFormed(g) && InGraph(g, a) && InGraph(g, b)
    requires Frontline(g, a, b, points, visits, lim) && PointsBelow(g, points, lim') && lim' <= lim
    ensures Frontline(g, a, b, points, visits, lim')
  {
    forall x: nat | lim' <= x < lim
      ensures !InHist(g, a, x) && !InHist(g, b, x) && !VisitedAs(visits, x, A) && !VisitedAs(visits, x, B) && !VisitedAs(visits, x, Shared)
    {
      NotAbove(g, points, lim', A, x);
      NotAbove(g, points, lim', B, x);
    }
  }

  lemma {:induction false} NotAbove(g: Graph, points: seq<TimePoint>, lim: nat, side: DiffFlag, x: nat)
    requires WellFormed(g) && PointsBelow(g, points, lim) && lim <= x
    ensures !Has(g, points, side, x)
  {
    if Has(g, points, side, x) {
      var p :| p in points && PointHas(g, p, side, x);
      var v :| v in p.v && Reaches(g, v, x);
      ReachesLower(g, v, x);
    }
  }

  lemma {:induction false} SubHistReflexive(g: Graph, f: seq<nat>)
    requires WellFormed(g) && InGraph(g, f)
    ensures SubHist(g, f, f)
  {
  }

  /** Two points with the same versions act as one with the joined flag. */
  lemma {:induction false} MergeEqual(g: Graph, rest: seq<TimePoint>, q: TimePoint, p: TimePoint, points: seq<TimePoint>, points': seq<TimePoint>)
    requires WellFormed(g) && p.v == q.v && forall r | r in points :: InGraph(g, r.v)
    requires forall r :: r in points <==> r in rest || r == q || r == p
    requires forall r :: r in points' <==> r in rest || r == TimePoint(p.v, Join(p.flag, q.flag))
    ensures Lowers(g, points, points')
  {
    var m := TimePoint(p.v, Join(p.flag, q.flag));
    assert p in points && q in points && m in points';
    forall side, x: nat | side != Shared
      ensures Has(g, points, side, x) <==> Has(g, points', side, x)
    {
      if Has(g, points, side, x) {
        var r :| r in points && PointHas(g, r, side, x);
        if r !in rest { assert PointHas(g, m, side, x); }
      }
      if Has(g, points', side, x) {
        var r :| r in points' && PointHas(g, r, side, x);
        if r !in rest { assert PointHas(g, p, side, x) || PointHas(g, q, side, x); }
      }
    }
    forall r | r in points
      ensures exists r' :: r' in points' && SubHist(g, r'.v, r.v)
    {
      SubHistReflexive(g, r.v);
      if r !in rest { assert SubHist(g, m.v, r.v); }
    }
    forall side | side != Shared && CoversSome(points, side)
      ensures CoversSome(points', side)
    {
      var r :| r in points && Covers(r.flag, side);
      if r !in rest { assert Covers(m.flag, side); }
    }
  }

  /** A point falls apart into one point per version. */
  lemma {:induction false} Shatter(g: Graph, rest: seq<TimePoint>, p: TimePoint, points: seq<TimePoint>, points': seq<TimePoint>)
    requires WellFormed(g) && p.v != [] && forall r | r in points :: InGraph(g, r.v)
    requires forall r :: r in points <==> r in rest || r == p
    requires forall r :: r in points' <==> r in rest || exists w :: w in p.v && r == TimePoint([w], p.flag)
    ensures Lowers(g, points, points')
  {
    assert p in points;
    var first := TimePoint([p.v[0]], p.flag);
    assert p.v[0] in p.v && first in points';
    forall side, x: nat | side != Shared
      ensures Has(g, points, side, x) <==> Has(g, points', side, x)
    {
      if Has(g, points, side, x) {
        var r :| r in points && PointHas(g, r, side, x);
        if r !in rest {
          var w :| w in p.v && Reaches(g, w, x);
          assert TimePoint([w], p.flag) in points' && w in [w];
          assert PointHas(g, TimePoint([w], p.flag), side, x);
        }
      }
      if Has(g, points', side, x) {
        var r :| r in points' && PointHas(g, r, side, x);
        if r !in rest {
          var w :| w in p.v && r == TimePoint([w], p.flag);
          assert PointHas(g, p, side, x);
        }
      }
    }
    forall r | r in points
      ensures exists r' :: r' in points' && SubHist(g, r'.v, r.v)
    {
      SubHistReflexive(g, r.v);
      if r !in rest {
        assert p.v[0] < |g|;
        assert SubHist(g, first.v, p.v);
      }
    }
    forall side | side != Shared && CoversSome(points, side)
      ensures CoversSome(points', side)
    {
      var r :| r in points && Covers(r.flag, side);
      if r !in rest { assert Covers(first.flag, side); }
    }
  }

  // ---- Moving the current point down its entry ----

  lemma {:induction false} VisitedAppend(visits: seq<Visit>, vis: Visit)
    ensures forall x: nat, flag :: VisitedAs(visits + [vis], x, flag) <==>
              VisitedAs(visits, x, flag) || (flag == vis.flag && vis.range.start <= x < vis.range.end)
  {
    forall x: nat, flag
      ensures VisitedAs(visits + [vis], x, flag) <==> VisitedAs(visits, x, flag) || (flag == vis.flag && vis.range.start <= x < vis.range.end)
    {
      assert vis in visits + [vis];
      if VisitedAs(visits, x, flag) {
        var w :| w in visits && w.flag == flag && w.range.start <= x < w.range.end;
        assert w in visits + [vis];
      }
    }
  }

  lemma {:induction false} PartitionedVisit(g: Graph, a: seq<nat>, b: seq<nat>, visits: seq<Visit>, low: nat, lim: nat, flag: DiffFlag)
    requires WellFormed(g) && InGraph(g, a) && InGraph(g, b)
    requires Partitioned(g, a, b, visits, lim) && low < lim <= |g|
    requires forall x: nat | low <= x < lim :: InHist(g, a, x) <==> Covers(flag, A)
    requires forall x: nat | low <= x < lim :: InHist(g, b, x) <==> Covers(flag, B)
    ensures Partitioned(g, a, b, visits + [Visit(LVRange(low, lim), flag)], low)
  {
    VisitedAppend(visits, Visit(LVRange(low, lim), flag));
    forall x: nat, f | low <= x < lim
      ensures !VisitedAs(visits, x, f)
    {
    }
  }

  /** Visiting `[low, t]` and replacing the point `[t]` by `next`, which is what `t` reaches below. */
  lemma {:induction false} Descend(g: Graph, a: seq<nat>, b: seq<nat>, rest: seq<TimePoint>, points: seq<TimePoint>, points': seq<TimePoint>,
                t: nat, flag: DiffFlag, next: seq<nat>, low: nat, visits: seq<Visit>)
    requires WellFormed(g) && InGraph(g, a) && InGraph(g, b) && InGraph(g, next) && low <= t < |g|
    requires forall r :: r in points <==> r in rest || r == TimePoint([t], flag)
    requires forall r :: r in points' <==> r in rest || r == TimePoint(next, flag)
    requires Frontline(g, a, b, points, visits, t + 1)
    requires PointsBelow(g, rest, low) && forall v | v in next :: v < low
    requires forall x: nat | low <= x <= t :: Reaches(g, t, x) && SubHist(g, next, g[x])
    requires forall x: nat | x < low :: Reaches(g, t, x) <==> InHist(g, next, x)
    ensures Frontline(g, a, b, points', visits + [Visit(LVRange(low, t + 1), flag)], low)
  {
    DescendPartition(g, a, b, rest, points, points', t, flag, next, low, visits);
    DescendBuilds(g, a, b, rest, points, points', t, flag, next, low, visits);
    DescendCovers(rest, points, points', t, flag, next, A);
    DescendCovers(rest, points, points', t, flag, next, B);
  }

  lemma {:induction false} DescendCovers(rest: seq<TimePoint>, points: seq<TimePoint>, points': seq<TimePoint>, t: nat, flag: DiffFlag, next: seq<nat>, side: DiffFlag)
    requires forall r :: r in points <==> r in rest || r == TimePoint([t], flag)
    requires forall r :: r in points' <==> r in rest || r == TimePoint(next, flag)
    requires CoversSome(points, side)
    ensures CoversSome(points', side)
  {
    var r :| r in points && Covers(r.flag, side);
    assert TimePoint(next, flag) in points';
    if r !in rest { assert Covers(TimePoint(next, flag).flag, side); }
  }

  lemma {:induction false} DescendPartition(g: Graph, a: seq<nat>, b: seq<nat>, rest: seq<TimePoint>, points: seq<TimePoint>, points': seq<TimePoint>,
                t: nat, flag: DiffFlag, next: seq<nat>, low: nat, visits: seq<Visit>)
    requires WellFormed(g) && InGraph(g, a) && InGraph(g, b) && InGraph(g, next) && low <= t < |g|
    requires forall r :: r in points <==> r in rest || r == TimePoint([t], flag)
    requires forall r :: r in points' <==> r in rest || r == TimePoint(next, flag)
    requires Account(g, a, b, points, t + 1) && Partitioned(g, a, b, visits, t + 1)
    requires PointsBelow(g, rest, low)
    requires forall x: nat | low <= x <= t :: Reaches(g, t, x)
    requires forall x: nat | x < low :: Reaches(g, t, x) <==> InHist(g, next, x)
    ensures Account(g, a, b, points', low)
    ensures Partitioned(g, a, b, visits + [Visit(LVRange(low, t + 1), flag)], low)
  {
    hide Reaches, InHist, Has, Partitioned;
    DescendAccount(g, rest, points, points', t, flag, next, low);
    PartitionedVisit(g, a, b, visits, low, t + 1, flag);
  }

  lemma {:induction false} DescendAccount(g: Graph, rest: seq<TimePoint>, points: seq<TimePoint>, points': seq<TimePoint>, t: nat, flag: DiffFlag, next: seq<nat>, low: nat)
    requires WellFormed(g) && InGraph(g, next) && low <= t < |g|
    requires forall r :: r in points <==> r in rest || r == TimePoint([t], flag)
    requires forall r :: r in points' <==> r in rest || r == TimePoint(next, flag)
    requires PointsBelow(g, rest, low)
    requires forall x: nat | low <= x <= t :: Reaches(g, t, x)
    requires forall x: nat | x < low :: Reaches(g, t, x) <==> InHist(g, next, x)
    ensures forall side, x: nat | low <= x <= t :: Has(g, points, side, x) <==> Covers(flag, side)
    ensures forall side, x: nat | x < low :: Has(g, points, side, x) <==> Has(g, points', side, x)
  {
    var cur, nxt := TimePoint([t], flag), TimePoint(next, flag);
    assert cur in points && nxt in points';
    forall side, x: nat | low <= x <= t
      ensures Has(g, points, side, x) <==> Covers(flag, side)
    {
      NotAbove(g, rest, low, side, x);
      assert t in cur.v;
      if Covers(flag, side) { assert PointHas(g, cur, side, x); }
    }
    forall side, x: nat | x < low
      ensures Has(g, points, side, x) <==> Has(g, points', side, x)
    {
      assert t in cur.v;
      assert PointHas(g, cur, side, x) <==> PointHas(g, nxt, side, x);
      if Has(g, points, side, x) {
        var r :| r in points && PointHas(g, r, side, x);
      }
      if Has(g, points', side, x) {
        var r :| r in points' && PointHas(g, r, side, x);
      }
    }
  }

  lemma {:induction false} DescendBuilds(g: Graph, a: seq<nat>, b: seq<nat>, rest: seq<TimePoint>, points: seq<TimePoint>, points': seq<TimePoint>,
                      t: nat, flag: DiffFlag, next: seq<nat>, low: nat, visits: seq<Visit>)
    requires WellFormed(g) && InGraph(g, next) && low <= t < |g|
    requires forall r :: r in points <==> r in rest || r == TimePoint([t], flag)
    requires forall r :: r in points' <==> r in rest || r == TimePoint(next, flag)
    requires BuildsOn(g, visits, points) && forall v | v in next :: v < low
    requires forall x: nat | low <= x <= t :: SubHist(g, next, g[x])
    requires forall x: nat | x < low :: Reaches(g, t, x) <==> InHist(g, next, x)
    ensures BuildsOn(g, visits + [Visit(LVRange(low, t + 1), flag)], points')
  {
    var visits' := visits + [Visit(LVRange(low, t + 1), flag)];
    VisitedAppend(visits, Visit(LVRange(low, t + 1), flag));
    var nxt := TimePoint(next, flag);
    assert nxt in points';
    forall x: nat | x < |g| && Visited(visits', x)
      ensures exists p :: p in points' && SubHist(g, p.v, g[x])
    {
      if low <= x <= t {
        assert SubHist(g, nxt.v, g[x]);
      } else {
        var f :| VisitedAs(visits', x, f);
        assert Visited(visits, x);
        var p :| p in points && SubHist(g, p.v, g[x]);
        if p !in rest {
          forall y: nat | InHist(g, next, y)
            ensures InHist(g, p.v, y)
          {
            var v :| v in next && Reaches(g, v, y);
            ReachesLower(g, v, y);
            assert t in p.v;
          }
          SubHistTransitive(g, nxt.v, p.v, g[x]);
        }
      }
    }
  }

  /** Within its entry the current point moves down to `w`. */
  lemma {:induction false} MoveDown(es: seq<CGEntry>, i: nat, a: seq<nat>, b: seq<nat>, rest: seq<TimePoint>, points: seq<TimePoint>, points': seq<TimePoint>,
                 t: nat, flag: DiffFlag, w: nat, visits: seq<Visit>)
    requires ValidEntries(es) && WellFormed(Expand(es)) && InGraph(Expand(es), a) && InGraph(Expand(es), b)
    requires i < |es| && es[i].version <= w < t < es[i].vEnd
    requires forall r :: r in points <==> r in rest || r == TimePoint([t], flag)
    requires forall r :: r in points' <==> r in rest || r == TimePoint([w], flag)
    requires Frontline(Expand(es), a, b, points, visits, t + 1)
    requires PointsBelow(Expand(es), rest, w + 1)
    ensures Frontline(Expand(es), a, b, points', visits + [Visit(LVRange(w + 1, t + 1), flag)], w + 1)
  {
    hide Expand, Frontline, ValidEntries, Reaches, SubHist, PointsBelow;
    var g := Expand(es);
    RunReaches(es, i, t, w);
    forall x: nat | w + 1 <= x <= t
      ensures Reaches(g, t, x) && SubHist(g, [w], g[x])
    {
      RunReaches(es, i, t, x);
      ExpandAt(es, i, x);
      assert g[x] == [x - 1];
      RunReaches(es, i, x - 1, w);
      OneReaches(g, [w], [x - 1], w, x - 1);
    }
    forall x: nat | x < w + 1
      ensures Reaches(g, t, x) <==> InHist(g, [w], x)
    {
      assert w in [w];
    }
    Descend(g, a, b, rest, points, points', t, flag, [w], w + 1, visits);
  }

  lemma {:induction false} OneReaches(g: Graph, f: seq<nat>, f': seq<nat>, w: nat, v: nat)
    requires WellFormed(g) && v < |g| && w < |g| && f == [w] && f' == [v] && Reaches(g, v, w)
    ensures SubHist(g, f, f')
  {
    forall y: nat | InHist(g, f, y)
      ensures InHist(g, f', y)
    {
      ReachesTransitive(g, v, w, y);
      assert v in f';
    }
  }

  /** At the bottom of its entry the current point is replaced by the entry's parents. */
  lemma {:induction false} LeaveEntry(es: seq<CGEntry>, i: nat, a: seq<nat>, b: seq<nat>, rest: seq<TimePoint>, points: seq<TimePoint>, points': seq<TimePoint>,
                   t: nat, flag: DiffFlag, parents: seq<nat>, visits: seq<Visit>)
    requires ValidEntries(es) && WellFormed(Expand(es)) && InGraph(Expand(es), a) && InGraph(Expand(es), b)
    requires i < |es| && es[i].version <= t < es[i].vEnd
    requires forall v :: v in parents <==> v in es[i].parents
    requires forall r :: r in points <==> r in rest || r == TimePoint([t], flag)
    requires forall r :: r in points' <==> r in rest || r == TimePoint(parents, flag)
    requires Frontline(Expand(es), a, b, points, visits, t + 1)
    requires PointsBelow(Expand(es), rest, es[i].version)
    ensures Frontline(Expand(es), a, b, points', visits + [Visit(LVRange(es[i].version, t + 1), flag)], es[i].version)
  {
    var g := Expand(es);
    var low := es[i].version;
    RunReaches(es, i, t, low);
    forall v | v in parents ensures v < |g| { }
    forall x: nat | x < low
      ensures Reaches(g, t, x) <==> InHist(g, parents, x)
    {
      EntryReaches(es, i, t, x);
    }
    forall x: nat | low <= x <= t
      ensures Reaches(g, t, x) && SubHist(g, parents, g[x])
    {
      RunReaches(es, i, t, x);
      ExpandAt(es, i, x);
      if x == low {
        assert g[x] == es[i].parents;
      } else {
        assert g[x] == [x - 1];
        assert x - 1 in [x - 1];
        forall y: nat | InHist(g, parents, y)
          ensures InHist(g, g[x], y)
        {
          InHistBelow(g, parents, low, y);
          EntryReaches(es, i, x - 1, y);
        }
      }
    }
    Descend(g, a, b, rest, points, points', t, flag, parents, low, visits);
  }

  lemma {:induction false} InHistBelow(g: Graph, f: seq<nat>, lim: nat, x: nat)
    requires WellFormed(g) && InGraph(g, f) && InHist(g, f, x) && forall v | v in f :: v < lim
    ensures x < lim
  {
    var v :| v in f && Reaches(g, v, x);
    ReachesLower(g, v, x);
  }

  // ---- The traversal ----

  ghost predicate PointsSorted(points: seq<TimePoint>) {
    forall p | p in points :: SortedDown(p.v)
  }

  /** Total number of versions listed, which every turn of the inner loop reduces. */
  ghost function Weight(points: seq<TimePoint>): nat {
    if points == [] then 0 else |points[0].v| + Weight(points[1..])
  }

  lemma {:induction false} WeightConcat(p: seq<TimePoint>, q: seq<TimePoint>)
    ensures Weight(p + q) == Weight(p) + Weight(q)
  {
    if p == [] {
      assert p + q == q;
    } else {
      assert (p + q)[1..] == p[1..] + q;
      WeightConcat(p[1..], q);
    }
  }

  /** One point per version, all with the same flag. */
  function Singles(v: seq<nat>, flag: DiffFlag): (points: seq<TimePoint>)
    ensures forall r :: r in points <==> exists w :: w in v && r == TimePoint([w], flag)
  {
    if v == [] then [] else [TimePoint([v[0]], flag)] + Singles(v[1..], flag)
  }

  lemma {:induction false} SinglesWeight(v: seq<nat>, flag: DiffFlag)
    ensures Weight(Singles(v, flag)) == |v|
  {
    if v != [] {
      var tail := Singles(v[1..], flag);
      assert ([TimePoint([v[0]], flag)] + tail)[1..] == tail;
      SinglesWeight(v[1..], flag);
    }
  }

  lemma {:induction false} RemoveAtFacts(queue: seq<TimePoint>, i: nat)
    requires i < |queue|
    ensures Weight(RemoveAt(queue, i)) == Weight(queue) - |queue[i].v|
    ensures forall r :: r in queue <==> r in RemoveAt(queue, i) || r == queue[i]
  {
    assert queue == queue[..i] + ([queue[i]] + queue[i + 1..]);
    WeightConcat(queue[..i], [queue[i]] + queue[i + 1..]);
    WeightConcat([queue[i]], queue[i + 1..]);
    WeightConcat(queue[..i], queue[i + 1..]);
    forall r | r in queue
      ensures r in RemoveAt(queue, i) || r == queue[i]
    {
      var k :| 0 <= k < |queue| && queue[k] == r;
      if k < i {
        assert RemoveAt(queue, i)[k] == r;
      } else if k > i {
        assert RemoveAt(queue, i)[k - 1] == r;
      }
    }
  }

  /** The top point has the highest version of the whole queue first. */
  lemma {:induction false} TopIsHighest(queue: seq<TimePoint>, i: nat)
    requires IsTop(queue, i) && PointsSorted(queue)
    ensures queue[i].v == [] ==> forall q | q in queue :: q.v == []
    ensures queue[i].v != [] ==> forall q, w | q in queue && w in q.v :: w <= queue[i].v[0]
  {
    forall q | q in queue
      ensures q.v == [] || (queue[i].v != [] && q.v[0] <= queue[i].v[0])
    {
      assert !PointLess(queue[i], q);
      LexTotal(queue[i].v, q.v);
    }
    forall q, w | q in queue && w in q.v
      ensures queue[i].v != [] && w <= queue[i].v[0]
    {
      var k :| 0 <= k < |q.v| && q.v[k] == w;
      assert SortedDown(q.v);
    }
  }

  /** `pointFromVersions`: the versions, highest first. */
  function SortDown(v: seq<nat>): (r: seq<nat>)
    ensures SortedDown(r)
    ensures |r| == |v| && forall x :: x in r <==> x in v
  {
    if v == [] then []
    else
      InsertDown(v[0], SortDown(v[1..]))
  }

  function InsertDown(x: nat, v: seq<nat>): (r: seq<nat>)
    requires SortedDown(v)
    ensures SortedDown(r)
    ensures |r| == |v| + 1 && forall y :: y in r <==> y == x || y in v
  {
    if v == [] || v[0] <= x then [x] + v
    else
      var r := InsertDown(x, v[1..]);
      assert forall i | 0 <= i < |r| :: r[i] in r;
      [v[0]] + r
  }

  // ---- How high the base is ----

  /** No listed version is listed twice or is an ancestor of another. */
  ghost predicate Apart(g: Graph, f: seq<nat>)
    requires WellFormed(g) && InGraph(g, f)
  {
    && (forall i, j | 0 <= i < j < |f| :: f[i] != f[j])
    && (forall v, w | v in f && w in f && v != w :: !Reaches(g, v, w))
  }

  /** Parent lists and the two frontiers name no version together with its ancestor. */
  ghost predicate AllApart(g: Graph, a: seq<nat>, b: seq<nat>)
    requires WellFormed(g) && InGraph(g, a) && InGraph(g, b)
  {
    Apart(g, a) && Apart(g, b) && forall v | 0 <= v < |g| :: InGraph(g, g[v]) && Apart(g, g[v])
  }

  /** Both sides have seen `c`, and all that either side has beyond `c` builds on the whole of it. */
  ghost predicate Joint(g: Graph, a: seq<nat>, b: seq<nat>, c: seq<nat>)
    requires WellFormed(g) && InGraph(g, a) && InGraph(g, b)
  {
    && SubHist(g, c, a) && SubHist(g, c, b) && Apart(g, c)
    && (forall x: nat | x < |g| && (InHist(g, a, x) || InHist(g, b, x)) :: InHist(g, c, x) || SubHist(g, c, [x]))
  }

  ghost predicate StrictlyDown(v: seq<nat>) {
    forall i, j | 0 <= i < j < |v| :: v[i] > v[j]
  }

  ghost predicate Sorted(g: Graph, v: seq<nat>)
    requires WellFormed(g)
  {
    InGraph(g, v) && Apart(g, v) && StrictlyDown(v)
  }

  /** Every point has all of `c` in its history. */
  ghost predicate AllAbove(g: Graph, points: seq<TimePoint>, c: seq<nat>)
    requires WellFormed(g)
  {
    forall p | p in points :: Sorted(g, p.v) && SubHist(g, c, p.v)
  }

  /** Nothing that both sides come together in has been passed. */
  ghost predicate NonePassed(g: Graph, a: seq<nat>, b: seq<nat>, points: seq<TimePoint>)
    requires WellFormed(g) && InGraph(g, a) && InGraph(g, b)
  {
    AllApart(g, a, b) ==> forall c | Joint(g, a, b, c) && Sorted(g, c) :: AllAbove(g, points, c)
  }

  lemma {:induction false} MemberReaches(g: Graph, c: seq<nat>, f: seq<nat>, x: nat) returns (v: nat)
    requires WellFormed(g) && SubHist(g, c, f) && x in c
    ensures v in f && v < |g| && x < |g| && Reaches(g, v, x)
  {
    assert InHist(g, c, x) by { assert Reaches(g, x, x); }
    v :| v in f && Reaches(g, v, x);
  }

  lemma {:induction false} ApartMembers(g: Graph, f: seq<nat>, v: nat, w: nat)
    requires WellFormed(g) && InGraph(g, f) && Apart(g, f) && v in f && w in f && Reaches(g, v, w)
    ensures v == w
  {
  }

  lemma {:induction false} FirstIn(v: seq<nat>)
    ensures v != [] ==> v[0] in v
  {
  }

  /** Two sorted lists with the same members are the same. */
  lemma {:induction false} SortedSame(u: seq<nat>, v: seq<nat>)
    requires StrictlyDown(u) && StrictlyDown(v)
    requires forall x :: x in u <==> x in v
    ensures u == v
    decreases |u|
  {
    if u == [] {
      FirstIn(v);
    } else {
      assert u[0] in v && (v == [] || v[0] in u);
      assert u[0] == v[0];
      forall x
        ensures x in u[1..] <==> x in v[1..]
      {
        TailMember(u, x);
        TailMember(v, x);
      }
      SortedSame(u[1..], v[1..]);
      assert u == [u[0]] + u[1..] && v == [v[0]] + v[1..];
    }
  }

  lemma {:induction false} TailMember(u: seq<nat>, x: nat)
    requires u != [] && StrictlyDown(u)
    ensures x in u[1..] <==> x in u && x != u[0]
  {
    if x in u {
      var i :| 0 <= i < |u| && u[i] == x;
      assert i > 0 ==> u[1..][i - 1] == x;
    }
    if x in u[1..] {
      var i :| 0 <= i < |u[1..]| && u[1..][i] == x;
      assert u[i + 1] == x;
    }
  }

  /** A member of a point that does not have `c` below it is a member of `c`. */
  lemma {:induction false} PieceIn(g: Graph, a: seq<nat>, b: seq<nat>, c: seq<nat>, v: seq<nat>, w: nat)
    requires WellFormed(g) && InGraph(g, a) && InGraph(g, b) && Joint(g, a, b, c) && Sorted(g, v) && SubHist(g, c, v)
    requires w in v && (InHist(g, a, w) || InHist(g, b, w)) && !SubHist(g, c, [w])
    ensures w in c
  {
    var x :| x in c && Reaches(g, x, w);
    var u := MemberReaches(g, c, v, x);
    ReachesTransitive(g, u, x, w);
    ApartMembers(g, v, u, w);
    ReachesLower(g, u, x);
    ReachesLower(g, x, w);
  }

  lemma {:induction false} OnlyMember(c: seq<nat>, w: nat)
    ensures w in c && |c| == 1 ==> c == [w]
  {
  }

  /** A point that is not `c` itself falls apart into versions that all have `c` below them. */
  lemma {:induction false} PieceAbove(g: Graph, a: seq<nat>, b: seq<nat>, c: seq<nat>, v: seq<nat>, w: nat)
    requires WellFormed(g) && InGraph(g, a) && InGraph(g, b) && Joint(g, a, b, c) && Sorted(g, c) && Sorted(g, v) && SubHist(g, c, v)
    requires forall x | x in v :: InHist(g, a, x) || InHist(g, b, x)
    requires w in v && (v != c || |c| == 1)
    ensures SubHist(g, c, [w])
  {
    hide SubHist, InHist, Reaches;
    if !SubHist(g, c, [w]) {
      PieceIn(g, a, b, c, v, w);
      forall x | x in v
        ensures x in c
      {
        if SubHist(g, c, [x]) {
          var u := MemberReaches(g, c, [x], w);
          ApartMembers(g, v, x, w);
        } else {
          PieceIn(g, a, b, c, v, x);
        }
      }
      forall x | x in c
        ensures x in v
      {
        var u := MemberReaches(g, c, v, x);
        ApartMembers(g, c, u, x);
      }
      SortedSame(c, v);
      OnlyMember(c, w);
    }
  }

  lemma {:induction false} NextAbove(g: Graph, c: seq<nat>, u: seq<nat>, i: nat)
    requires WellFormed(g) && Sorted(g, c) && Sorted(g, u) && SubHist(g, c, u)
    requires i < |c| && i <= |u| && c[..i] == u[..i]
    ensures i < |u| && u[i] >= c[i]
  {
    hide SubHist;
    assert c[i] in c;
    forall k | 0 <= k < i
      ensures u[k] in u && !Reaches(g, u[k], c[i])
    {
      SameHere(c, u, i, k);
    }
    var v := MemberReaches(g, c, u, c[i]);
    var k :| 0 <= k < |u| && u[k] == v;
    ReachesLower(g, v, c[i]);
  }

  lemma {:induction false} SameHere(c: seq<nat>, u: seq<nat>, i: nat, k: nat)
    requires i <= |c| && i <= |u| && c[..i] == u[..i] && k < i
    ensures c[k] == u[k]
  {
    assert c[..i][k] == u[..i][k];
  }

  /** Of two sorted lists the one that has the other in its history comes first in the queue's order. */
  lemma {:induction false} AboveIsLater(g: Graph, c: seq<nat>, u: seq<nat>, i: nat)
    requires i <= |c| && i <= |u| && c[..i] == u[..i]
    requires WellFormed(g) && Sorted(g, c) && Sorted(g, u) && SubHist(g, c, u) && !LexLess(c[i..], u[i..])
    ensures c == u
    decreases |c| - i
  {
    if i < |c| {
      NextAbove(g, c, u, i);
      assert u[i..][0] == u[i] && c[i..][0] == c[i];
      assert c[i..][1..] == c[i + 1..] && u[i..][1..] == u[i + 1..];
      assert c[..i + 1] == c[..i] + [c[i]] && u[..i + 1] == u[..i] + [u[i]];
      AboveIsLater(g, c, u, i + 1);
    } else {
      assert c[i..] == [];
      assert c == c[..i] && u == u[..i] + u[i..];
    }
  }

  lemma {:induction false} StrictlyDownCons(x: nat, v: seq<nat>)
    requires StrictlyDown(v) && forall y | y in v :: x > y
    ensures StrictlyDown([x] + v)
  {
    var r := [x] + v;
    forall i, j | 0 <= i < j < |r|
      ensures r[i] > r[j]
    {
      assert r[j] == v[j - 1] && v[j - 1] in v;
      if i > 0 { assert r[i] == v[i - 1]; }
    }
  }

  lemma {:induction false} StrictlyDownTail(v: seq<nat>)
    requires StrictlyDown(v) && v != []
    ensures StrictlyDown(v[1..]) && forall y | y in v[1..] :: v[0] > y
    ensures forall y | y in v :: y <= v[0]
  {
  }

  lemma {:induction false} InsertDownStrict(x: nat, v: seq<nat>)
    requires SortedDown(v) && x !in v && StrictlyDown(v)
    ensures StrictlyDown(InsertDown(x, v))
  {
    hide StrictlyDown;
    if v == [] {
      StrictlyDownCons(x, v);
    } else {
      StrictlyDownTail(v);
      if v[0] <= x {
        assert v[0] in v;
        StrictlyDownCons(x, v);
      } else {
        InsertDownStrict(x, v[1..]);
        StrictlyDownCons(v[0], InsertDown(x, v[1..]));
      }
    }
  }

  lemma {:induction false} SortDownStrict(f: seq<nat>)
    requires forall i, j | 0 <= i < j < |f| :: f[i] != f[j]
    ensures StrictlyDown(SortDown(f))
  {
    if f != [] {
      SortDownStrict(f[1..]);
      hide StrictlyDown;
      InsertDownStrict(f[0], SortDown(f[1..]));
    }
  }

  lemma {:induction false} SortDownSorted(g: Graph, f: seq<nat>)
    requires WellFormed(g) && InGraph(g, f)
    ensures Apart(g, f) ==> Sorted(g, SortDown(f))
    ensures SubHist(g, f, SortDown(f)) && SubHist(g, SortDown(f), f)
  {
    hide Reaches;
    if Apart(g, f) { SortDownStrict(f); }
  }

  lemma {:induction false} InitialNonePassed(g: Graph, a: seq<nat>, b: seq<nat>, points: seq<TimePoint>)
    requires WellFormed(g) && InGraph(g, a) && InGraph(g, b)
    requires points == [TimePoint(SortDown(a), A), TimePoint(SortDown(b), B)]
    ensures NonePassed(g, a, b, points)
  {
    hide Apart, Sorted, SubHist;
    SortDownSorted(g, a);
    SortDownSorted(g, b);
    forall c | AllApart(g, a, b) && Joint(g, a, b, c) && Sorted(g, c)
      ensures AllAbove(g, points, c)
    {
      SubHistTransitive(g, c, a, SortDown(a));
      SubHistTransitive(g, c, b, SortDown(b));
    }
  }

  /** Only which versions the points list counts. */
  lemma {:induction false} SameNonePassed(g: Graph, a: seq<nat>, b: seq<nat>, points: seq<TimePoint>, points': seq<TimePoint>)
    requires WellFormed(g) && InGraph(g, a) && InGraph(g, b) && NonePassed(g, a, b, points)
    requires forall p' | p' in points' :: exists p :: p in points && p.v == p'.v
    ensures NonePassed(g, a, b, points')
  {
    hide Apart, Sorted, SubHist, AllApart, Joint;
  }

  /** What the points list is part of one of the histories. */
  lemma {:induction false} ListedSeen(g: Graph, a: seq<nat>, b: seq<nat>, points: seq<TimePoint>, visits: seq<Visit>, lim: nat, p: TimePoint)
    requires WellFormed(g) && InGraph(g, a) && InGraph(g, b) && Frontline(g, a, b, points, visits, lim) && p in points
    ensures InGraph(g, p.v) && forall x | x in p.v :: x < lim && (InHist(g, a, x) || InHist(g, b, x))
  {
    forall x | x in p.v
      ensures x < lim && (InHist(g, a, x) || InHist(g, b, x))
    {
      var side := if Covers(p.flag, A) then A else B;
      assert Reaches(g, x, x);
      assert PointHas(g, p, side, x);
    }
  }

  /** A point may fall apart if it is not what both sides come together in. */
  lemma {:induction false} ShatterNonePassed(g: Graph, a: seq<nat>, b: seq<nat>, points: seq<TimePoint>, p: TimePoint, points': seq<TimePoint>)
    requires WellFormed(g) && InGraph(g, a) && InGraph(g, b) && NonePassed(g, a, b, points) && p in points
    requires InGraph(g, p.v) && forall x | x in p.v :: InHist(g, a, x) || InHist(g, b, x)
    requires forall c | Joint(g, a, b, c) && Sorted(g, c) && AllAbove(g, points, c) :: p.v != c || |c| == 1
    requires forall r | r in points' :: (exists q :: q in points && q.v == r.v) || exists w :: w in p.v && r.v == [w]
    ensures NonePassed(g, a, b, points')
  {
    hide SubHist, Reaches, InHist, Joint, AllApart, Apart;
    forall c | AllApart(g, a, b) && Joint(g, a, b, c) && Sorted(g, c)
      ensures AllAbove(g, points', c)
    {
      forall r | r in points'
        ensures Sorted(g, r.v) && SubHist(g, c, r.v)
      {
        if !(exists q :: q in points && q.v == r.v) {
          var w :| w in p.v && r.v == [w];
          PieceAbove(g, a, b, c, p.v, w);
          OneSorted(g, w);
        }
      }
    }
  }

  lemma {:induction false} OneSorted(g: Graph, w: nat)
    requires WellFormed(g) && w < |g|
    ensures Sorted(g, [w])
  {
  }

  /** While another point is queued that does not come after it, a point is not what both sides come together in. */
  lemma {:induction false} TopNotJoint(g: Graph, a: seq<nat>, b: seq<nat>, points: seq<TimePoint>, v: seq<nat>, q: TimePoint)
    requires WellFormed(g) && InGraph(g, a) && InGraph(g, b) && q in points && q.v != v && !LexLess(v, q.v)
    ensures forall c | Joint(g, a, b, c) && Sorted(g, c) && AllAbove(g, points, c) :: v != c
  {
    hide SubHist, Sorted, Joint, LexLess;
    forall c | Joint(g, a, b, c) && Sorted(g, c) && AllAbove(g, points, c)
      ensures v != c
    {
      if v == c {
        assert c[0..] == c && q.v[0..] == q.v && c[..0] == q.v[..0];
        AboveIsLater(g, c, q.v, 0);
      }
    }
  }

  /** Moving down inside an entry to the next listed version. */
  lemma {:induction false} MoveNonePassed(es: seq<CGEntry>, i: nat, a: seq<nat>, b: seq<nat>, queue: seq<TimePoint>, q: TimePoint, t: nat, flag: DiffFlag,
                                          points: seq<TimePoint>, points': seq<TimePoint>)
    requires ValidEntries(es) && WellFormed(Expand(es)) && InGraph(Expand(es), a) && InGraph(Expand(es), b)
    requires points == queue + [TimePoint([t], flag)] && NonePassed(Expand(es), a, b, points)
    requires q in queue && q.v != [] && SortedDown(q.v) && i < |es| && es[i].version <= q.v[0] < t < es[i].vEnd && t < |Expand(es)|
    requires InHist(Expand(es), a, t) || InHist(Expand(es), b, t)
    requires points' == queue + [TimePoint([q.v[0]], flag)]
    ensures NonePassed(Expand(es), a, b, points')
  {
    hide SubHist, Reaches, InHist, Joint, AllApart, Apart, Expand, ValidEntries, Sorted;
    var g := Expand(es);
    var last := TimePoint([t], flag);
    assert last in points && q in points;
    forall c | AllApart(g, a, b) && Joint(g, a, b, c) && Sorted(g, c)
      ensures AllAbove(g, points', c)
    {
      MoveAbove(es, i, a, b, c, q.v, t);
      OneSorted(g, q.v[0]);
    }
  }

  lemma {:induction false} MoveAbove(es: seq<CGEntry>, i: nat, a: seq<nat>, b: seq<nat>, c: seq<nat>, v: seq<nat>, t: nat)
    requires ValidEntries(es) && WellFormed(Expand(es)) && InGraph(Expand(es), a) && InGraph(Expand(es), b)
    requires Joint(Expand(es), a, b, c) && SubHist(Expand(es), c, v)
    requires v != [] && SortedDown(v) && i < |es| && es[i].version <= v[0] < t < es[i].vEnd && t < |Expand(es)|
    requires InHist(Expand(es), a, t) || InHist(Expand(es), b, t)
    ensures SubHist(Expand(es), c, [v[0]])
  {
    hide SubHist, Reaches, InHist, Expand, ValidEntries, Apart;
    var g, w := Expand(es), v[0];
    assert InGraph(g, c) by { SubHistGraph(g, c, v); }
    RunReaches(es, i, t, w);
    RunReaches(es, i, t, w + 1);
    SeenBelow(g, a, b, t, w);
    SeenBelow(g, a, b, t, w + 1);
    if !SubHist(g, c, [w]) {
      TopIsMember(g, c, v, w);
      if InHist(g, c, w + 1) {
        NotAboveMember(es, i, c, w);
      } else {
        BelowNext(es, i, c, w);
      }
    }
  }

  lemma {:induction false} SubHistGraph(g: Graph, f: seq<nat>, f': seq<nat>)
    requires WellFormed(g) && SubHist(g, f, f')
    ensures InGraph(g, f) && InGraph(g, f')
  {
  }

  /** The highest version of a point with `c` below it, if it is in the history of `c`, is a member of `c`. */
  lemma {:induction false} TopIsMember(g: Graph, c: seq<nat>, v: seq<nat>, w: nat)
    requires WellFormed(g) && InGraph(g, c) && SubHist(g, c, v) && InHist(g, c, w) && forall u | u in v :: u <= w
    ensures w in c
  {
    hide SubHist;
    var x :| x in c && Reaches(g, x, w);
    var u := MemberReaches(g, c, v, x);
    ReachesLower(g, u, x);
    ReachesLower(g, x, w);
  }

  /** No member of `c` reaches the version after another member in an entry. */
  lemma {:induction false} NotAboveMember(es: seq<CGEntry>, i: nat, c: seq<nat>, w: nat)
    requires ValidEntries(es) && WellFormed(Expand(es)) && InGraph(Expand(es), c) && Apart(Expand(es), c) && w in c
    requires i < |es| && es[i].version <= w < w + 1 < es[i].vEnd
    ensures !InHist(Expand(es), c, w + 1)
  {
    hide Expand, ValidEntries;
    var g := Expand(es);
    RunReaches(es, i, w + 1, w);
    forall x | x in c && Reaches(g, x, w + 1)
      ensures false
    {
      ReachesLower(g, x, w + 1);
      ReachesTransitive(g, x, w + 1, w);
    }
  }

  lemma {:induction false} BelowNext(es: seq<CGEntry>, i: nat, c: seq<nat>, w: nat)
    requires ValidEntries(es) && WellFormed(Expand(es)) && InGraph(Expand(es), c) && Apart(Expand(es), c) && w in c && SubHist(Expand(es), c, [w + 1])
    requires i < |es| && es[i].version <= w < w + 1 < es[i].vEnd
    ensures SubHist(Expand(es), c, [w])
  {
    hide Expand, ValidEntries;
    var g := Expand(es);
    RunReaches(es, i, w + 1, w);
    ExpandAt(es, i, w + 1);
    forall y: nat | InHist(g, c, y)
      ensures InHist(g, [w], y)
    {
      var x :| x in c && Reaches(g, x, y);
      var u := MemberReaches(g, c, [w + 1], x);
      assert x != w + 1;
      assert Reaches(g, w, x);
      ReachesTransitive(g, w, x, y);
      assert w in [w];
    }
  }

  lemma {:induction false} SeenBelow(g: Graph, a: seq<nat>, b: seq<nat>, t: nat, x: nat)
    requires WellFormed(g) && InGraph(g, a) && InGraph(g, b) && t < |g| && Reaches(g, t, x)
    requires InHist(g, a, t) || InHist(g, b, t)
    ensures x < |g| && (InHist(g, a, x) || InHist(g, b, x))
  {
    ReachesLower(g, t, x);
    if InHist(g, a, t) {
      var v :| v in a && Reaches(g, v, t);
      ReachesTransitive(g, v, t, x);
    } else {
      var v :| v in b && Reaches(g, v, t);
      ReachesTransitive(g, v, t, x);
    }
  }

  /** Leaving an entry: nothing of `c` can lie inside it, while another point lies below it. */
  lemma {:induction false} LeaveNonePassed(es: seq<CGEntry>, i: nat, a: seq<nat>, b: seq<nat>, queue: seq<TimePoint>, t: nat, flag: DiffFlag, parents: seq<nat>)
    requires ValidEntries(es) && WellFormed(Expand(es)) && InGraph(Expand(es), a) && InGraph(Expand(es), b)
    requires i < |es| && es[i].version <= t < es[i].vEnd && queue != [] && PointsBelow(Expand(es), queue, es[i].version)
    requires NonePassed(Expand(es), a, b, queue + [TimePoint([t], flag)]) && parents == SortDown(es[i].parents)
    ensures NonePassed(Expand(es), a, b, queue + [TimePoint(parents, flag)])
  {
    hide SubHist, Reaches, InHist, Joint, Apart, Expand, ValidEntries, Sorted;
    var g := Expand(es);
    var points, points' := queue + [TimePoint([t], flag)], queue + [TimePoint(parents, flag)];
    RunReaches(es, i, t, es[i].version);
    ExpandAt(es, i, es[i].version);
    assert queue[0] in queue && queue[0] in points && TimePoint([t], flag) in points;
    forall c | AllApart(g, a, b) && Joint(g, a, b, c) && Sorted(g, c)
      ensures AllAbove(g, points', c)
    {
      assert AllAbove(g, points, c);
      LeaveAbove(es, i, c, queue[0].v, t);
      SortDownSorted(g, es[i].parents);
      SubHistTransitive(g, c, es[i].parents, parents);
    }
  }

  lemma {:induction false} LeaveAbove(es: seq<CGEntry>, i: nat, c: seq<nat>, v: seq<nat>, t: nat)
    requires ValidEntries(es) && WellFormed(Expand(es)) && i < |es| && es[i].version <= t < es[i].vEnd
    requires SubHist(Expand(es), c, v) && SubHist(Expand(es), c, [t]) && forall w | w in v :: w < es[i].version
    ensures InGraph(Expand(es), es[i].parents) && SubHist(Expand(es), c, es[i].parents)
  {
    hide Expand, ValidEntries, Reaches;
    var g, low := Expand(es), es[i].version;
    RunReaches(es, i, t, low);
    EntryParents(es, i);
    forall y: nat | InHist(g, c, y)
      ensures InHist(g, es[i].parents, y)
    {
      InHistBelow(g, v, low, y);
      EntryReaches(es, i, t, y);
    }
  }

  lemma {:induction false} EntryParents(es: seq<CGEntry>, i: nat)
    requires ValidEntries(es) && WellFormed(Expand(es)) && i < |es|
    ensures InGraph(Expand(es), es[i].parents) && es[i].version < |Expand(es)| && Expand(es)[es[i].version] == es[i].parents
  {
    hide Expand;
    RunReaches(es, i, es[i].version, es[i].version);
    ExpandAt(es, i, es[i].version);
  }

  /** The base is what both sides come together in last: it is one such frontier, and any other lies in its
      history. */
  ghost predicate Highest(g: Graph, a: seq<nat>, b: seq<nat>, base: seq<nat>)
    requires WellFormed(g) && InGraph(g, a) && InGraph(g, b)
  {
    AllApart(g, a, b) ==> Joint(g, a, b, base) && forall c | Joint(g, a, b, c) :: SubHist(g, c, base)
  }

  lemma {:induction false} HighestOf(g: Graph, a: seq<nat>, b: seq<nat>, points: seq<TimePoint>, p: TimePoint, base: seq<nat>, visits: seq<Visit>)
    requires WellFormed(g) && InGraph(g, a) && InGraph(g, b) && NonePassed(g, a, b, points) && p in points
    requires SplitAt(g, a, b, base, visits) && (base == p.v || base == Reverse(p.v))
    ensures Highest(g, a, b, base)
  {
    hide SubHist, Reaches, InHist, Apart, AllApart, Joint, Sorted, SplitAt;
    if AllApart(g, a, b) {
      EmptyJoint(g, a, b);
      assert AllAbove(g, points, []);
      BaseJoint(g, a, b, p.v, base, visits);
    }
    forall c | AllApart(g, a, b) && Joint(g, a, b, c)
      ensures SubHist(g, c, base)
    {
      JointSorted(g, a, b, c);
      SubHistTransitive(g, c, SortDown(c), p.v);
      SubHistGraph(g, c, p.v);
      SameMembersHist(g, p.v, base);
      SubHistTransitive(g, c, p.v, base);
    }
  }

  lemma {:induction false} EmptyJoint(g: Graph, a: seq<nat>, b: seq<nat>)
    requires WellFormed(g) && InGraph(g, a) && InGraph(g, b)
    ensures Joint(g, a, b, []) && Sorted(g, [])
  {
  }

  lemma {:induction false} ReverseApart(g: Graph, v: seq<nat>)
    requires WellFormed(g) && InGraph(g, v) && Apart(g, v)
    ensures InGraph(g, Reverse(v)) && Apart(g, Reverse(v))
  {
    hide Reaches;
  }

  /** All that was visited builds on the base. */
  lemma {:induction false} BaseJoint(g: Graph, a: seq<nat>, b: seq<nat>, v: seq<nat>, base: seq<nat>, visits: seq<Visit>)
    requires WellFormed(g) && InGraph(g, a) && InGraph(g, b) && Sorted(g, v) && (base == v || base == Reverse(v))
    requires SplitAt(g, a, b, base, visits)
    ensures Joint(g, a, b, base)
  {
    hide Reaches, Apart, VisitedAs;
    ReverseApart(g, v);
    forall x: nat | x < |g| && (InHist(g, a, x) || InHist(g, b, x))
      ensures InHist(g, base, x) || SubHist(g, base, [x])
    {
      if !InHist(g, base, x) {
        assert VisitedAs(visits, x, A) || VisitedAs(visits, x, B) || VisitedAs(visits, x, Shared);
        assert Visited(visits, x);
        OneMore(g, base, x);
      }
    }
  }

  lemma {:induction false} OneMore(g: Graph, base: seq<nat>, x: nat)
    requires WellFormed(g) && x < |g| && SubHist(g, base, g[x])
    ensures SubHist(g, base, [x])
  {
    forall y: nat | InHist(g, base, y)
      ensures InHist(g, [x], y)
    {
      var p :| p in g[x] && Reaches(g, p, y);
      assert x in [x] && Reaches(g, x, y);
    }
  }

  lemma {:induction false} SameMembersHist(g: Graph, f: seq<nat>, f': seq<nat>)
    requires WellFormed(g) && InGraph(g, f) && InGraph(g, f') && forall v :: v in f <==> v in f'
    ensures SubHist(g, f, f')
  {
  }

  lemma {:induction false} JointSorted(g: Graph, a: seq<nat>, b: seq<nat>, c: seq<nat>)
    requires WellFormed(g) && InGraph(g, a) && InGraph(g, b) && Joint(g, a, b, c)
    ensures Joint(g, a, b, SortDown(c)) && Sorted(g, SortDown(c)) && SubHist(g, c, SortDown(c))
  {
    hide Reaches;
    SortDownSorted(g, c);
    SubHistTransitive(g, SortDown(c), c, a);
    SubHistTransitive(g, SortDown(c), c, b);
    forall x: nat | x < |g| && SubHist(g, c, [x])
      ensures SubHist(g, SortDown(c), [x])
    {
      SubHistTransitive(g, SortDown(c), c, [x]);
    }
  }

  /** Discards queued duplicates of the point `v`, joining their flags. */
  method DropEqual(queue0: seq<TimePoint>, v: seq<nat>, flag0: DiffFlag, ghost g: Graph, ghost points: seq<TimePoint>)
    returns (queue: seq<TimePoint>, flag: DiffFlag)
    requires WellFormed(g) && forall r | r in points :: InGraph(g, r.v)
    requires forall r :: r in points <==> r in queue0 || r == TimePoint(v, flag0)
    requires forall q | q in queue0 :: !LexLess(v, q.v)
    ensures forall q | q in queue :: q in queue0 && q.v != v
    ensures Lowers(g, points, queue + [TimePoint(v, flag)])
  {
    hide Lowers, IsTop, LexLess;
    queue, flag := queue0, flag0;
    LowersReflexive(g, points, queue + [TimePoint(v, flag)]);
    while queue != []
      invariant forall q | q in queue :: q in queue0
      invariant Lowers(g, points, queue + [TimePoint(v, flag)])
      decreases |queue|
    {
      var i := PeekTop(queue);
      if queue[i].v != v {
        NoneEqual(queue, i, v);
        break;
      }
      RemoveAtFacts(queue, i);
      ghost var before, joined := queue + [TimePoint(v, flag)], Join(queue[i].flag, flag);
      ghost var after := RemoveAt(queue, i) + [TimePoint(v, joined)];
      MergeEqual(g, RemoveAt(queue, i), TimePoint(v, flag), queue[i], before, after);
      LowersTransitive(g, points, before, after);
      flag := if queue[i].flag != flag then Shared else flag;
      queue := RemoveAt(queue, i);
    }
  }

  /** If the top of the queue is another point, no queued point lists the same versions. */
  lemma {:induction false} NoneEqual(queue: seq<TimePoint>, i: nat, v: seq<nat>)
    requires IsTop(queue, i) && queue[i].v != v && forall q | q in queue :: !LexLess(v, q.v)
    ensures forall q | q in queue :: q.v != v
  {
    assert queue[i] in queue;
    LexTotal(queue[i].v, v);
  }

  lemma {:induction false} LowersReflexive(g: Graph, points: seq<TimePoint>, points': seq<TimePoint>)
    requires WellFormed(g) && forall r | r in points :: InGraph(g, r.v)
    requires forall r :: r in points <==> r in points'
    ensures Lowers(g, points, points')
  {
    forall p | p in points
      ensures exists p' :: p' in points' && SubHist(g, p'.v, p.v)
    {
      SubHistReflexive(g, p.v);
    }
  }

  lemma {:induction false} LowersTransitive(g: Graph, points: seq<TimePoint>, points': seq<TimePoint>, points'': seq<TimePoint>)
    requires WellFormed(g) && Lowers(g, points, points') && Lowers(g, points', points'')
    ensures Lowers(g, points, points'')
  {
    forall p | p in points
      ensures exists p'' :: p'' in points'' && SubHist(g, p''.v, p.v)
    {
      var p' :| p' in points' && SubHist(g, p'.v, p.v);
      var p'' :| p'' in points'' && SubHist(g, p''.v, p'.v);
      SubHistTransitive(g, p''.v, p'.v, p.v);
    }
  }

  /** Popping the point at `i`, shattering it and joining its highest version with the current point. */
  lemma {:induction false} ConsumePoint(g: Graph, queue: seq<TimePoint>, i: nat, flag: DiffFlag, queue': seq<TimePoint>)
    requires WellFormed(g) && i < |queue| && queue[i].v != [] && forall r | r in queue :: InGraph(g, r.v)
    requires queue' == RemoveAt(queue, i) + Singles(queue[i].v[1..], queue[i].flag)
    ensures Lowers(g, queue + [TimePoint([queue[i].v[0]], flag)], queue' + [TimePoint([queue[i].v[0]], Join(queue[i].flag, flag))])
    ensures Weight(queue') == Weight(queue) - 1
  {
    hide Lowers;
    var q, w := queue[i], queue[i].v[0];
    var rest, cur := RemoveAt(queue, i), TimePoint([w], flag);
    assert q in queue && w in q.v;
    RemoveAtFacts(queue, i);
    var shattered := rest + [cur] + Singles(q.v, q.flag);
    Shatter(g, rest + [cur], q, queue + [cur], shattered);
    SinglesSplit(q.v, q.flag);
    MergeEqual(g, queue', cur, TimePoint([w], q.flag), shattered, queue' + [TimePoint([w], Join(q.flag, flag))]);
    LowersTransitive(g, queue + [cur], shattered, queue' + [TimePoint([w], Join(q.flag, flag))]);
    WeightConcat(rest, Singles(q.v[1..], q.flag));
    SinglesWeight(q.v[1..], q.flag);
  }

  lemma {:induction false} SinglesSplit(v: seq<nat>, flag: DiffFlag)
    requires v != []
    ensures forall r :: r in Singles(v, flag) <==> r == TimePoint([v[0]], flag) || r in Singles(v[1..], flag)
  {
  }

  lemma {:induction false} SinglesBelow(g: Graph, v: seq<nat>, flag: DiffFlag, lim: nat)
    requires forall w | w in v :: w < lim && w < |g|
    ensures PointsBelow(g, Singles(v, flag), lim) && PointsSorted(Singles(v, flag))
  {
  }

  lemma {:induction false} ConsumedBelow(g: Graph, queue: seq<TimePoint>, i: nat, queue': seq<TimePoint>, last: nat, flag: DiffFlag)
    requires i < |queue| && queue[i].v != [] && queue[i].v[0] == last && PointsSorted(queue)
    requires forall q, w | q in queue && w in q.v :: w <= last && w < |g|
    requires queue' == RemoveAt(queue, i) + Singles(queue[i].v[1..], queue[i].flag)
    ensures PointsBelow(g, queue' + [TimePoint([last], flag)], last + 1) && PointsSorted(queue')
  {
    RemoveAtFacts(queue, i);
    assert queue[i] in queue && last in queue[i].v;
    SinglesBelow(g, queue[i].v[1..], queue[i].flag, last + 1);
  }

  /** The inner loop: takes every point of the entry off the queue. */
  method ConsumeEntry(es: seq<CGEntry>, idx: nat, queue0: seq<TimePoint>, t: nat, flag0: DiffFlag, visits0: seq<Visit>, ghost a: seq<nat>, ghost b: seq<nat>)
    returns (queue: seq<TimePoint>, last: nat, flag: DiffFlag, visits: seq<Visit>)
    requires ValidEntries(es) && WellFormed(Expand(es)) && InGraph(Expand(es), a) && InGraph(Expand(es), b)
    requires idx < |es| && es[idx].version <= t < es[idx].vEnd
    requires Frontline(Expand(es), a, b, queue0 + [TimePoint([t], flag0)], visits0, t + 1) && PointsSorted(queue0)
    requires NonePassed(Expand(es), a, b, queue0 + [TimePoint([t], flag0)])
    ensures es[idx].version <= last <= t
    ensures Frontline(Expand(es), a, b, queue + [TimePoint([last], flag)], visits, last + 1) && PointsSorted(queue)
    ensures NonePassed(Expand(es), a, b, queue + [TimePoint([last], flag)])
    ensures PointsBelow(Expand(es), queue, es[idx].version)
  {
    hide Expand, ValidEntries, Frontline, Lowers, WellFormed, IsTop, NonePassed;
    queue, last, flag, visits := queue0, t, flag0, visits0;
    while queue != []
      invariant es[idx].version <= last <= t
      invariant Frontline(Expand(es), a, b, queue + [TimePoint([last], flag)], visits, last + 1) && PointsSorted(queue)
      invariant NonePassed(Expand(es), a, b, queue + [TimePoint([last], flag)])
      decreases Weight(queue)
    {
      var i := PeekTop(queue);
      TopIsHighest(queue, i);
      FrontlineBelow(Expand(es), a, b, queue, TimePoint([last], flag), visits, last + 1);
      if queue[i].v == [] || queue[i].v[0] < es[idx].version {
        break;
      }
      queue, last, flag, visits := ConsumeTop(es, idx, queue, i, last, flag, visits, a, b);
    }
  }

  lemma {:induction false} FrontlineBelow(g: Graph, a: seq<nat>, b: seq<nat>, queue: seq<TimePoint>, p: TimePoint, visits: seq<Visit>, lim: nat)
    requires WellFormed(g) && InGraph(g, a) && InGraph(g, b)
    requires Frontline(g, a, b, queue + [p], visits, lim)
    ensures PointsBelow(g, queue, lim) && PointsBelow(g, [p], lim)
  {
    forall r | r in queue || r == p ensures r in queue + [p] { }
  }

  /** One turn of the inner loop. */
  method ConsumeTop(ghost es: seq<CGEntry>, ghost idx: nat, queue0: seq<TimePoint>, i: nat, last0: nat, flag0: DiffFlag, visits0: seq<Visit>, ghost a: seq<nat>, ghost b: seq<nat>)
    returns (queue: seq<TimePoint>, last: nat, flag: DiffFlag, visits: seq<Visit>)
    requires ValidEntries(es) && WellFormed(Expand(es)) && InGraph(Expand(es), a) && InGraph(Expand(es), b)
    requires idx < |es| && es[idx].version <= last0 < es[idx].vEnd
    requires Frontline(Expand(es), a, b, queue0 + [TimePoint([last0], flag0)], visits0, last0 + 1) && PointsSorted(queue0)
    requires NonePassed(Expand(es), a, b, queue0 + [TimePoint([last0], flag0)])
    requires i < |queue0| && IsTop(queue0, i) && queue0[i].v != [] && es[idx].version <= queue0[i].v[0]
    ensures es[idx].version <= last <= last0
    ensures Frontline(Expand(es), a, b, queue + [TimePoint([last], flag)], visits, last + 1) && PointsSorted(queue)
    ensures NonePassed(Expand(es), a, b, queue + [TimePoint([last], flag)])
    ensures Weight(queue) < Weight(queue0)
  {
    hide Expand, ValidEntries, Frontline, Lowers, WellFormed, IsTop, NonePassed, Weight, InHist;
    var peek := queue0[i];
    ghost var g := Expand(es);
    FrontlineBelow(g, a, b, queue0, TimePoint([last0], flag0), visits0, last0 + 1);
    TopIsHighest(queue0, i);
    assert peek in queue0 && peek.v[0] in peek.v;
    last, flag, visits := last0, flag0, visits0;
    if peek.v[0] + 1 < last0 + 1 {
      MoveOn(es, idx, a, b, queue0, peek, last0, flag0, visits0);
      visits := visits0 + [Visit(LVRange(peek.v[0] + 1, last0 + 1), flag0)];
      last := peek.v[0];
    }
    assert Frontline(g, a, b, queue0 + [TimePoint([last], flag0)], visits, last + 1);
    ghost var before := queue0 + [TimePoint([last], flag0)];
    queue := RemoveAt(queue0, i) + Singles(peek.v[1..], peek.flag);
    flag := if peek.flag != flag0 then Shared else flag0;
    ConsumePoint(g, queue0, i, flag0, queue);
    ConsumedBelow(g, queue0, i, queue, last, flag);
    LowersKeeps(g, a, b, before, queue + [TimePoint([last], flag)], visits, last + 1);
    ConsumeNonePassed(g, a, b, queue0, i, last, flag0, flag, visits, before, queue + [TimePoint([last], flag)]);
  }

  /** The current point moves down to the top of the queue, which lies in the same entry. */
  lemma {:induction false} MoveOn(es: seq<CGEntry>, i: nat, a: seq<nat>, b: seq<nat>, queue: seq<TimePoint>, q: TimePoint, t: nat, flag: DiffFlag, visits: seq<Visit>)
    requires ValidEntries(es) && WellFormed(Expand(es)) && InGraph(Expand(es), a) && InGraph(Expand(es), b)
    requires Frontline(Expand(es), a, b, queue + [TimePoint([t], flag)], visits, t + 1) && NonePassed(Expand(es), a, b, queue + [TimePoint([t], flag)])
    requires q in queue && q.v != [] && SortedDown(q.v) && i < |es| && es[i].version <= q.v[0] < t < es[i].vEnd
    requires PointsBelow(Expand(es), queue, q.v[0] + 1)
    ensures NonePassed(Expand(es), a, b, queue + [TimePoint([q.v[0]], flag)])
    ensures Frontline(Expand(es), a, b, queue + [TimePoint([q.v[0]], flag)], visits + [Visit(LVRange(q.v[0] + 1, t + 1), flag)], q.v[0] + 1)
  {
    hide Expand, ValidEntries, Frontline, NonePassed, PointsBelow, SortedDown;
    var points, points' := queue + [TimePoint([t], flag)], queue + [TimePoint([q.v[0]], flag)];
    var last := TimePoint([t], flag);
    assert last in points && t in last.v;
    ListedSeen(Expand(es), a, b, points, visits, t + 1, last);
    MoveNonePassed(es, i, a, b, queue, q, t, flag, points, points');
    MoveDown(es, i, a, b, queue, points, points', t, flag, q.v[0], visits);
  }

  /** Taking in a queued point whose highest version is the current one. */
  lemma {:induction false} ConsumeNonePassed(g: Graph, a: seq<nat>, b: seq<nat>, queue: seq<TimePoint>, i: nat, w: nat, flag: DiffFlag, flag': DiffFlag, visits: seq<Visit>,
                                             points: seq<TimePoint>, points': seq<TimePoint>)
    requires WellFormed(g) && InGraph(g, a) && InGraph(g, b) && i < |queue| && queue[i].v != [] && queue[i].v[0] == w
    requires points == queue + [TimePoint([w], flag)] && Frontline(g, a, b, points, visits, w + 1) && NonePassed(g, a, b, points)
    requires points' == RemoveAt(queue, i) + Singles(queue[i].v[1..], queue[i].flag) + [TimePoint([w], flag')]
    ensures NonePassed(g, a, b, points')
  {
    hide Frontline, NonePassed, SubHist, Reaches, Joint;
    var q, cur := queue[i], TimePoint([w], flag);
    assert q in queue && q in points && cur in points;
    RemoveAtFacts(queue, i);
    ListedSeen(g, a, b, points, visits, w + 1, q);
    forall c | Joint(g, a, b, c) && Sorted(g, c) && AllAbove(g, points, c)
      ensures q.v != c || |c| == 1
    {
      if q.v == c && |c| > 1 {
        NotBelowFirst(g, c, w);
      }
    }
    forall r | r in points'
      ensures (exists p :: p in points && p.v == r.v) || exists x :: x in q.v && r.v == [x]
    {
      if r in Singles(q.v[1..], q.flag) {
        var x :| x in q.v[1..] && r == TimePoint([x], q.flag);
        assert x in q.v;
      }
    }
    ShatterNonePassed(g, a, b, points, q, points');
  }

  /** The first of several versions does not have them all below it. */
  lemma {:induction false} NotBelowFirst(g: Graph, c: seq<nat>, w: nat)
    requires WellFormed(g) && Sorted(g, c) && |c| > 1 && c[0] == w
    ensures !SubHist(g, c, [w])
  {
    if SubHist(g, c, [w]) {
      var v := MemberReaches(g, c, [w], c[1]);
      ApartMembers(g, c, w, c[1]);
    }
  }

  /** What `findConflicting` promises about the base it returns and the ranges it visits. */
  ghost predicate SplitAt(g: Graph, a: seq<nat>, b: seq<nat>, base: seq<nat>, visits: seq<Visit>)
    requires WellFormed(g) && InGraph(g, a) && InGraph(g, b)
  {
    && InGraph(g, base)
    && VisitsDescend(visits)
    && (forall x: nat :: VisitedAs(visits, x, A) <==> InHist(g, a, x) && !InHist(g, b, x))
    && (forall x: nat :: VisitedAs(visits, x, B) <==> InHist(g, b, x) && !InHist(g, a, x))
    && (forall x: nat :: VisitedAs(visits, x, Shared) <==> InHist(g, a, x) && InHist(g, b, x) && !InHist(g, base, x))
    && (forall x: nat | InHist(g, base, x) :: InHist(g, a, x) && InHist(g, b, x))
    && (forall x: nat | x < |g| && Visited(visits, x) :: SubHist(g, base, g[x]))
  }

  /** A single point left over is the base. */
  lemma {:induction false} SinglePointSplits(g: Graph, a: seq<nat>, b: seq<nat>, p: TimePoint, visits: seq<Visit>, lim: nat, base: seq<nat>)
    requires WellFormed(g) && InGraph(g, a) && InGraph(g, b)
    requires Frontline(g, a, b, [p], visits, lim)
    requires forall v :: v in base <==> v in p.v
    ensures SplitAt(g, a, b, base, visits)
  {
    assert p in [p];
    forall v | v in base ensures v < |g| && v < lim { }
    assert Covers(p.flag, A) && Covers(p.flag, B);
    forall x: nat | InHist(g, base, x)
      ensures x < lim && PointHas(g, p, A, x) && PointHas(g, p, B, x)
    {
      InHistBelow(g, base, lim, x);
      assert InHist(g, p.v, x);
    }
    forall x: nat | Has(g, [p], A, x) || Has(g, [p], B, x)
      ensures InHist(g, base, x)
    {
      assert InHist(g, p.v, x);
    }
    forall x: nat | x < lim
      ensures !VisitedAs(visits, x, A) && !VisitedAs(visits, x, B) && !VisitedAs(visits, x, Shared)
    {
    }
    forall x: nat | x < |g| && Visited(visits, x)
      ensures SubHist(g, base, g[x])
    {
      assert SubHist(g, p.v, g[x]);
      forall y: nat | InHist(g, base, y)
        ensures InHist(g, g[x], y)
      {
        assert InHist(g, p.v, y);
      }
    }
  }

  /** If only the start of history is left, nothing is shared that was not visited. */
  lemma {:induction false} RootSplits(g: Graph, a: seq<nat>, b: seq<nat>, points: seq<TimePoint>, visits: seq<Visit>, lim: nat)
    requires WellFormed(g) && InGraph(g, a) && InGraph(g, b)
    requires Frontline(g, a, b, points, visits, lim)
    requires forall p | p in points :: p.v == []
    ensures SplitAt(g, a, b, [], visits)
  {
    forall side, x: nat
      ensures !Has(g, points, side, x)
    {
    }
    forall x: nat | x < lim
      ensures !VisitedAs(visits, x, A) && !VisitedAs(visits, x, B) && !VisitedAs(visits, x, Shared)
    {
    }
    forall x: nat | x < |g| && Visited(visits, x)
      ensures SubHist(g, [], g[x])
    {
    }
  }

  lemma {:induction false} InitialFrontline(g: Graph, a: seq<nat>, b: seq<nat>, points: seq<TimePoint>)
    requires WellFormed(g) && InGraph(g, a) && InGraph(g, b)
    requires points == [TimePoint(SortDown(a), A), TimePoint(SortDown(b), B)]
    ensures Frontline(g, a, b, points, [], |g|)
  {
    var p, q := points[0], points[1];
    assert p in points && q in points;
    forall x: nat
      ensures InHist(g, a, x) <==> PointHas(g, p, A, x)
      ensures InHist(g, b, x) <==> PointHas(g, q, B, x)
    {
    }
    forall x: nat | |g| <= x
      ensures !InHist(g, a, x) && !InHist(g, b, x)
    {
      if InHist(g, a, x) { InHistBound(g, a, x); }
      if InHist(g, b, x) { InHistBound(g, b, x); }
    }
    assert Covers(p.flag, A) && Covers(q.flag, B);
  }

  /** The top point falls apart: its highest version becomes the current point. */
  lemma {:induction false} ShatterTop(g: Graph, queue: seq<TimePoint>, v: seq<nat>, flag: DiffFlag)
    requires WellFormed(g) && v != [] && InGraph(g, v) && forall r | r in queue :: InGraph(g, r.v)
    ensures Lowers(g, queue + [TimePoint(v, flag)], queue + Singles(v[1..], flag) + [TimePoint([v[0]], flag)])
  {
    SinglesSplit(v, flag);
    Shatter(g, queue, TimePoint(v, flag), queue + [TimePoint(v, flag)], queue + Singles(v[1..], flag) + [TimePoint([v[0]], flag)]);
  }

  lemma {:induction false} StartBelow(g: Graph, queue: seq<TimePoint>, v: seq<nat>, flag: DiffFlag, lim: nat)
    requires v != [] && SortedDown(v) && PointsSorted(queue)
    requires forall q, w | q in queue && w in q.v :: w <= v[0]
    requires PointsBelow(g, queue, lim) && PointsBelow(g, [TimePoint(v, flag)], lim)
    ensures v[0] < lim && v[0] < |g| && PointsSorted(queue + Singles(v[1..], flag))
    ensures PointsBelow(g, queue + Singles(v[1..], flag) + [TimePoint([v[0]], flag)], lim)
    ensures PointsBelow(g, queue + Singles(v[1..], flag) + [TimePoint([v[0]], flag)], v[0] + 1)
  {
    assert v[0] in v && TimePoint(v, flag) in [TimePoint(v, flag)];
    forall w | w in v
      ensures w <= v[0] && w < |g|
    {
    }
    SinglesBelow(g, v[1..], flag, v[0] + 1);
  }

  lemma {:induction false} StartRound(g: Graph, a: seq<nat>, b: seq<nat>, queue: seq<TimePoint>, v: seq<nat>, flag: DiffFlag, visits: seq<Visit>, lim: nat)
    requires WellFormed(g) && InGraph(g, a) && InGraph(g, b)
    requires v != [] && SortedDown(v) && PointsSorted(queue)
    requires forall q, w | q in queue && w in q.v :: w <= v[0]
    requires Frontline(g, a, b, queue + [TimePoint(v, flag)], visits, lim)
    ensures v[0] < lim && v[0] < |g| && PointsSorted(queue + Singles(v[1..], flag))
    ensures Frontline(g, a, b, queue + Singles(v[1..], flag) + [TimePoint([v[0]], flag)], visits, v[0] + 1)
  {
    hide Frontline, Lowers, WellFormed;
    FrontlineBelow(g, a, b, queue, TimePoint(v, flag), visits, lim);
    ShatterTop(g, queue, v, flag);
    StartBelow(g, queue, v, flag, lim);
    var points := queue + Singles(v[1..], flag) + [TimePoint([v[0]], flag)];
    LowersKeeps(g, a, b, queue + [TimePoint(v, flag)], points, visits, lim);
    ShrinkLimit(g, a, b, points, visits, lim, v[0] + 1);
  }

  /** Starting on the top point: its highest version becomes the current one. */
  lemma {:induction false} StartNonePassed(g: Graph, a: seq<nat>, b: seq<nat>, queue: seq<TimePoint>, v: seq<nat>, flag: DiffFlag, visits: seq<Visit>, lim: nat)
    requires WellFormed(g) && InGraph(g, a) && InGraph(g, b) && v != [] && queue != []
    requires forall q | q in queue :: q.v != v && !LexLess(v, q.v)
    requires Frontline(g, a, b, queue + [TimePoint(v, flag)], visits, lim) && NonePassed(g, a, b, queue + [TimePoint(v, flag)])
    ensures NonePassed(g, a, b, queue + Singles(v[1..], flag) + [TimePoint([v[0]], flag)])
  {
    hide Frontline, NonePassed, LexLess, Joint;
    var p, points := TimePoint(v, flag), queue + [TimePoint(v, flag)];
    var points' := queue + Singles(v[1..], flag) + [TimePoint([v[0]], flag)];
    assert p in points && queue[0] in queue && queue[0] in points && v[0] in v;
    ListedSeen(g, a, b, points, visits, lim, p);
    TopNotJoint(g, a, b, points, v, queue[0]);
    forall r | r in points'
      ensures (exists q :: q in points && q.v == r.v) || exists w :: w in v && r.v == [w]
    {
      if r in queue {
        assert r in points;
      } else if r in Singles(v[1..], flag) {
        var x :| x in v[1..] && r == TimePoint([x], flag);
        assert x in v;
      }
    }
    ShatterNonePassed(g, a, b, points, p, points');
  }

  lemma {:induction false} TopLex(queue: seq<TimePoint>, i: nat)
    requires IsTop(queue, i)
    ensures forall q | q in queue :: !LexLess(queue[i].v, q.v)
  {
  }

  /** Dropping duplicates of the top point. */
  lemma {:induction false} DropNonePassed(g: Graph, a: seq<nat>, b: seq<nat>, points: seq<TimePoint>, p: TimePoint, queue: seq<TimePoint>, flag: DiffFlag)
    requires WellFormed(g) && InGraph(g, a) && InGraph(g, b) && NonePassed(g, a, b, points) && p in points
    requires forall q | q in queue :: q in points
    ensures NonePassed(g, a, b, queue + [TimePoint(p.v, flag)])
  {
    hide NonePassed;
    SameNonePassed(g, a, b, points, queue + [TimePoint(p.v, flag)]);
  }

  /** One round of the outer loop, from a popped point that is not the last one. */
  method ConflictRound(es: seq<CGEntry>, queue0: seq<TimePoint>, v: seq<nat>, flag0: DiffFlag, visits0: seq<Visit>,
                       ghost a: seq<nat>, ghost b: seq<nat>, ghost lim0: nat)
    returns (found: bool, base: seq<nat>, queue: seq<TimePoint>, visits: seq<Visit>, ghost lim: nat)
    requires ValidEntries(es) && WellFormed(Expand(es)) && InGraph(Expand(es), a) && InGraph(Expand(es), b)
    requires v != [] && SortedDown(v) && PointsSorted(queue0)
    requires forall q, w | q in queue0 && w in q.v :: w <= v[0]
    requires queue0 != [] && forall q | q in queue0 :: q.v != v && !LexLess(v, q.v)
    requires Frontline(Expand(es), a, b, queue0 + [TimePoint(v, flag0)], visits0, lim0)
    requires NonePassed(Expand(es), a, b, queue0 + [TimePoint(v, flag0)])
    ensures found ==> SplitAt(Expand(es), a, b, base, visits) && Highest(Expand(es), a, b, base)
    ensures !found ==> lim < lim0 && queue != [] && PointsSorted(queue) && Frontline(Expand(es), a, b, queue, visits, lim)
    ensures !found ==> NonePassed(Expand(es), a, b, queue)
  {
    hide Expand, ValidEntries, Frontline, Lowers, WellFormed, SplitAt, NonePassed, LexLess, Highest;
    StartRound(Expand(es), a, b, queue0, v, flag0, visits0, lim0);
    StartNonePassed(Expand(es), a, b, queue0, v, flag0, visits0, lim0);
    queue := queue0 + Singles(v[1..], flag0);
    var t := v[0];
    ExpandLengthAt(es);
    var idx := FindEntryContaining(es, t);
    var last, flag;
    queue, last, flag, visits := ConsumeEntry(es, idx, queue, t, flag0, visits0, a, b);
    lim := es[idx].version;
    if queue == [] {
      found, base := true, [last];
      assert queue + [TimePoint([last], flag)] == [TimePoint([last], flag)];
      SinglePointSplits(Expand(es), a, b, TimePoint([last], flag), visits, last + 1, base);
      HighestOf(Expand(es), a, b, [TimePoint([last], flag)], TimePoint([last], flag), base, visits);
    } else {
      found, base := false, [];
      var parents := SortDown(es[idx].parents);
      LeaveEntry(es, idx, a, b, queue, queue + [TimePoint([last], flag)], queue + [TimePoint(parents, flag)], last, flag, parents, visits);
      LeaveNonePassed(es, idx, a, b, queue, last, flag, parents);
      visits := visits + [Visit(LVRange(es[idx].version, last + 1), flag)];
      queue := queue + [TimePoint(parents, flag)];
    }
  }

  lemma {:induction false} ExpandLengthAt(es: seq<CGEntry>)
    requires ValidEntries(es)
    ensures |Expand(es)| == NextLV(es)
  {
    ExpandLength(es);
  }

  method FindConflicting(es: seq<CGEntry>, a: seq<nat>, b: seq<nat>) returns (base: seq<nat>, visits: seq<Visit>)
    requires ValidEntries(es) && WellFormed(Expand(es)) && InGraph(Expand(es), a) && InGraph(Expand(es), b)
    ensures SplitAt(Expand(es), a, b, base, visits) && Highest(Expand(es), a, b, base)
  {
    hide Expand, ValidEntries, Frontline, Lowers, WellFormed, SplitAt, IsTop, NonePassed, LexLess, Highest;
    ghost var g := Expand(es);
    var queue := [TimePoint(SortDown(a), A), TimePoint(SortDown(b), B)];
    InitialFrontline(g, a, b, queue);
    InitialNonePassed(g, a, b, queue);
    visits := [];
    ghost var lim: nat := |g|;
    while true
      invariant queue != [] && PointsSorted(queue) && Frontline(g, a, b, queue, visits, lim) && NonePassed(g, a, b, queue)
      decreases lim
    {
      var i := PeekTop(queue);
      TopIsHighest(queue, i);
      TopLex(queue, i);
      RemoveAtFacts(queue, i);
      var v, flag := queue[i].v, queue[i].flag;
      if |v| == 0 {
        RootSplits(g, a, b, queue, visits, lim);
        HighestOf(g, a, b, queue, queue[i], [], visits);
        return [], visits;
      }
      ghost var points := queue;
      FrontlinePoints(g, a, b, points, visits, lim);
      queue := RemoveAt(queue, i);
      queue, flag := DropEqual(queue, v, flag, g, points);
      LowersKeeps(g, a, b, points, queue + [TimePoint(v, flag)], visits, lim);
      DropNonePassed(g, a, b, points, points[i], queue, flag);
      if queue == [] {
        assert queue + [TimePoint(v, flag)] == [TimePoint(v, flag)];
        base := Reverse(v);
        SinglePointSplits(g, a, b, TimePoint(v, flag), visits, lim, base);
        HighestOf(g, a, b, [TimePoint(v, flag)], TimePoint(v, flag), base, visits);
        return;
      }
      var found;
      found, base, queue, visits, lim := ConflictRound(es, queue, v, flag, visits, a, b, lim);
      if found { return; }
    }
  }

  lemma {:induction false} FrontlinePoints(g: Graph, a: seq<nat>, b: seq<nat>, points: seq<TimePoint>, visits: seq<Visit>, lim: nat)
    requires WellFormed(g) && InGraph(g, a) && InGraph(g, b) && Frontline(g, a, b, points, visits, lim)
    ensures PointsBelow(g, points, lim) && forall r | r in points :: InGraph(g, r.v)
  {
  }
}
