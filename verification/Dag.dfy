/** The per-version view of the causal graph: every version (LV) lists its parents, and
    parents always have smaller LVs. `Hist` is the reflexive, transitive set of ancestors of a
    frontier; everything else about the graph is stated against it. */
module Dag {

  type Graph = seq<seq<nat>>

  ghost predicate WellFormed(g: Graph) {
    forall v, p | 0 <= v < |g| && p in g[v] :: p < v
  }

  ghost predicate InGraph(g: Graph, f: seq<nat>) {
    forall v | v in f :: v < |g|
  }

  /** `x` is `v` itself or one of its ancestors. */
  ghost predicate Reaches(g: Graph, v: nat, x: nat)
    requires WellFormed(g) && v < |g|
    decreases v
  {
    x == v || exists p :: p in g[v] && Reaches(g, p, x)
  }

  ghost predicate InHist(g: Graph, f: seq<nat>, x: nat)
    requires WellFormed(g) && InGraph(g, f)
  {
    exists v :: v in f && Reaches(g, v, x)
  }

  ghost function Hist(g: Graph, f: seq<nat>): set<nat>
    requires WellFormed(g) && InGraph(g, f)
  {
    set x: nat | x < |g| && InHist(g, f, x)
  }

  ghost predicate StrictlyAscending(vs: seq<nat>) {
    forall i, j | 0 <= i < j < |vs| :: vs[i] < vs[j]
  }

  /** The versions `[from, upTo)`. */
  ghost function Range(from: nat, upTo: nat): (r: set<nat>)
    ensures forall x: nat :: x in r <==> from <= x < upTo
  {
    if from >= upTo then {} else Range(from, upTo - 1) + {upTo - 1}
  }

  /** The members of a set below `t`, in order. */
  ghost function Members(d: set<nat>, t: nat): (r: seq<nat>)
    ensures forall v: nat :: v in r <==> v in d && v < t
    ensures forall i | 0 <= i < |r| :: r[i] in d && r[i] < t
    ensures StrictlyAscending(r)
  {
    if t == 0 then []
    else
      var before := Members(d, t - 1);
      assert forall i | 0 <= i < |before| :: before[i] in before;
      if t - 1 in d then before + [t - 1] else before
  }

  /** Ancestor-closed sets of versions. */
  ghost predicate Closed(g: Graph, s: set<nat>) {
    forall v, p | v in s && v < |g| && p in g[v] :: p in s
  }

  lemma {:induction false} ReachesLower(g: Graph, v: nat, x: nat)
    requires WellFormed(g) && v < |g|
    requires Reaches(g, v, x)
    ensures x <= v
    decreases v
  {
    if x != v {
      var p :| p in g[v] && Reaches(g, p, x);
      ReachesLower(g, p, x);
    }
  }

  lemma {:induction false} ReachesTransitive(g: Graph, v: nat, x: nat, y: nat)
    requires WellFormed(g) && v < |g| && x < |g|
    requires Reaches(g, v, x) && Reaches(g, x, y)
    ensures Reaches(g, v, y)
    decreases v
  {
    if x != v {
      var p :| p in g[v] && Reaches(g, p, x);
      ReachesTransitive(g, p, x, y);
    }
  }

  lemma {:induction false} InHistBound(g: Graph, f: seq<nat>, x: nat)
    requires WellFormed(g) && InGraph(g, f)
    requires InHist(g, f, x)
    ensures x < |g|
  {
    var v :| v in f && Reaches(g, v, x);
    ReachesLower(g, v, x);
  }

  lemma {:induction false} HistClosed(g: Graph, f: seq<nat>)
    requires WellFormed(g) && InGraph(g, f)
    ensures Closed(g, Hist(g, f))
    ensures forall v | v in f :: v in Hist(g, f)
  {
    forall x, p | x in Hist(g, f) && x < |g| && p in g[x]
      ensures p in Hist(g, f)
    {
      var v :| v in f && Reaches(g, v, x);
      assert Reaches(g, p, p);
      assert Reaches(g, x, p);
      ReachesTransitive(g, v, x, p);
    }
    forall v | v in f
      ensures v in Hist(g, f)
    {
      assert Reaches(g, v, v);
    }
  }

  lemma {:induction false} ClosedReaches(g: Graph, s: set<nat>, v: nat, x: nat)
    requires WellFormed(g) && v < |g|
    requires Closed(g, s) && v in s && Reaches(g, v, x)
    ensures x in s
    decreases v
  {
    if x != v {
      var p :| p in g[v] && Reaches(g, p, x);
      ClosedReaches(g, s, p, x);
    }
  }

  /** `Hist(g, f)` is the least ancestor-closed set that contains `f`. */
  lemma {:induction false} HistLeast(g: Graph, f: seq<nat>, s: set<nat>)
    requires WellFormed(g) && InGraph(g, f)
    requires Closed(g, s) && forall v | v in f :: v in s
    ensures Hist(g, f) <= s
  {
    forall x | x in Hist(g, f)
      ensures x in s
    {
      var v :| v in f && Reaches(g, v, x);
      ClosedReaches(g, s, v, x);
    }
  }

  lemma {:induction false} HistOne(g: Graph, v: nat)
    requires WellFormed(g) && v < |g|
    ensures InGraph(g, g[v])
    ensures Hist(g, [v]) == {v} + Hist(g, g[v])
    ensures v !in Hist(g, g[v])
  {
    forall x | x in Hist(g, [v])
      ensures x in {v} + Hist(g, g[v])
    {
      assert Reaches(g, v, x);
      if x != v {
        var p :| p in g[v] && Reaches(g, p, x);
        assert InHist(g, g[v], x);
      }
    }
    forall x | x in {v} + Hist(g, g[v])
      ensures x in Hist(g, [v])
    {
      if x == v {
        assert Reaches(g, v, x);
      } else {
        var p :| p in g[v] && Reaches(g, p, x);
        assert Reaches(g, v, x);
      }
      assert v in [v];
    }
    if v in Hist(g, g[v]) {
      var p :| p in g[v] && Reaches(g, p, v);
      ReachesLower(g, p, v);
      assert false;
    }
  }

  lemma {:induction false} HistMonotone(g: Graph, f: seq<nat>, f': seq<nat>)
    requires WellFormed(g) && InGraph(g, f) && InGraph(g, f')
    requires forall v | v in f :: v in Hist(g, f')
    ensures Hist(g, f) <= Hist(g, f')
  {
    HistClosed(g, f');
    HistLeast(g, f, Hist(g, f'));
  }

  /** The history of two frontiers taken together. */
  lemma {:induction false} HistJoin(g: Graph, a: seq<nat>, b: seq<nat>)
    requires WellFormed(g) && InGraph(g, a) && InGraph(g, b)
    ensures InGraph(g, a + b) && Hist(g, a + b) == Hist(g, a) + Hist(g, b)
  {
    forall x | x in Hist(g, a + b)
      ensures x in Hist(g, a) + Hist(g, b)
    {
      var v :| v in a + b && Reaches(g, v, x);
      assert v in a || v in b;
    }
    HistMonotoneIn(g, a, a + b);
    HistMonotoneIn(g, b, a + b);
  }

  lemma {:induction false} HistMonotoneIn(g: Graph, f: seq<nat>, f': seq<nat>)
    requires WellFormed(g) && InGraph(g, f) && InGraph(g, f')
    requires forall v | v in f :: v in f'
    ensures Hist(g, f) <= Hist(g, f')
  {
    HistClosed(g, f');
    HistMonotone(g, f, f');
  }
}
