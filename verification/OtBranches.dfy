/** Two branches of any length, made concurrently: merging them operation by operation, with every
    operation rewritten recursively to the version reached, is rewriting one list against the other. */
module OtBranches {
  import opened Dag
  import opened Dominators
  import opened Frontiers
  import opened ListLog
  import opened OtUnits
  import opened OtLists
  import opened OtGraph

  // ---- Lists in two parts ----

  lemma {:induction false} RowConcat(x: seq<Op>, y: seq<Op>, o: Op, isLeft: bool)
    ensures RowOps(x + y, o, isLeft) == RowOps(x, o, isLeft) + RowOps(y, RowOut(x, o, isLeft), isLeft)
    ensures RowOut(x + y, o, isLeft) == RowOut(y, RowOut(x, o, isLeft), isLeft)
    decreases |x|
  {
    hide Transformed;
    if x == [] {
      assert x + y == y;
    } else {
      assert (x + y)[1..] == x[1..] + y;
      RowConcat(x[1..], y, Transformed(o, x[0], !isLeft), isLeft);
    }
  }

  /** Rewriting against two lists, one after the other. */
  lemma {:induction false} AgainstTwo(x: seq<Op>, os: seq<Op>, os': seq<Op>, isLeft: bool)
    ensures ListRewritten(x, os + os', isLeft) == ListRewritten(ListRewritten(x, os, isLeft), os', isLeft)
    decreases |os|
  {
    hide RowOps;
    if os == [] {
      assert os + os' == os';
    } else {
      assert (os + os')[1..] == os[1..] + os';
      AgainstTwo(RowOps(x, os[0], isLeft), os[1..], os', isLeft);
    }
  }

  /** Rewriting a list in two parts: the second one meets the others as the first one leaves them. */
  lemma {:induction false} InTwo(x: seq<Op>, y: seq<Op>, os: seq<Op>, isLeft: bool)
    ensures ListRewritten(x + y, os, isLeft) == ListRewritten(x, os, isLeft) + ListRewritten(y, ListRewritten(os, x, !isLeft), isLeft)
  {
    GridSymmetric(x, os, isLeft);
    InTwoGrid(x, y, os, isLeft);
  }

  lemma {:induction false} InTwoGrid(x: seq<Op>, y: seq<Op>, os: seq<Op>, isLeft: bool)
    ensures ListRewritten(x + y, os, isLeft) == ListRewritten(x, os, isLeft) + ListRewritten(y, OthersOut(x, os, isLeft), isLeft)
    decreases |os|
  {
    hide RowOps, RowOut;
    if os != [] {
      var r, o' := RowOps(x, os[0], isLeft), RowOut(x, os[0], isLeft);
      RowConcat(x, y, os[0], isLeft);
      InTwoGrid(r, RowOps(y, o', isLeft), os[1..], isLeft);
      assert OthersOut(x, os, isLeft)[1..] == OthersOut(r, os[1..], isLeft);
    }
  }

  lemma {:induction false} AllConcat(x: seq<Op>, y: seq<Op>, doc: string)
    ensures AllFit(x + y, doc) <==> AllFit(x, doc) && AllFit(y, ApplyAll(x, doc))
    ensures AllFit(x + y, doc) ==> ApplyAll(x + y, doc) == ApplyAll(y, ApplyAll(x, doc))
    decreases |x|
  {
    hide Apply, Fits;
    if x == [] {
      assert x + y == y;
    } else {
      assert (x + y)[1..] == x[1..] + y;
      if Fits(x[0], doc) { AllConcat(x[1..], y, Apply(x[0], doc)); }
    }
  }

  // ---- Branches ----

  /** The operations of a path as they were written, in order. */
  ghost function Concat(ops: seq<seq<Op>>, path: seq<nat>): seq<Op>
    requires forall k | 0 <= k < |path| :: path[k] < |ops|
  {
    if path == [] then []
    else
      var k := |path| - 1;
      Concat(ops, path[..k]) + ops[path[k]]
  }

  lemma {:induction false} ConcatNext(ops: seq<seq<Op>>, path: seq<nat>, k: nat)
    requires (forall i | 0 <= i < |path| :: path[i] < |ops|) && k < |path|
    ensures Concat(ops, path[..k + 1]) == Concat(ops, path[..k]) + ops[path[k]]
  {
    assert path[..k + 1][..k] == path[..k];
  }

  /** Two branches from one frontier, each made by someone who saw nothing of the other; the versions of
      `p` are the smaller ones if `pFirst`, and the larger ones if not. */
  ghost predicate Branches(g: Graph, f: seq<nat>, p: seq<nat>, q: seq<nat>, pFirst: bool) {
    && IsPath(g, f, p) && InTurn(g, f, p) && IsPath(g, f, q) && InTurn(g, f, q)
    && (forall x, y | x in p && y in q :: x != y && (x < y <==> pFirst))
  }

  /** A version that has the first `k` of `p` and the first `j` of `q`. */
  ghost predicate Between(g: Graph, f: seq<nat>, p: seq<nat>, q: seq<nat>, k: nat, j: nat, v: seq<nat>) {
    && k <= |p| && j <= |q| && WellFormed(g) && InGraph(g, f) && IsFrontier(g, v)
    && Hist(g, v) == Hist(g, f) + SetOf(p[..k]) + SetOf(q[..j])
  }

  lemma {:induction false} SetNext(path: seq<nat>, k: nat)
    requires k < |path|
    ensures SetOf(path[..k + 1]) == SetOf(path[..k]) + {path[k]}
    ensures StrictlyAscending(path) ==> path[k] !in SetOf(path[..k])
  {
    assert path[..k + 1] == path[..k] + [path[k]];
  }

  lemma {:induction false} TurnAt(g: Graph, f: seq<nat>, path: seq<nat>, k: nat)
    requires InTurn(g, f, path) && k < |path|
    ensures path[k] < |g| && g[path[k]] == if k == 0 then f else [path[k - 1]]
    decreases k
  {
    if k > 0 { TurnAt(g, [path[0]], path[1..], k - 1); }
  }

  /** Each version of a branch builds on the start and the versions before it in the branch. */
  lemma {:induction false} TurnHist(g: Graph, f: seq<nat>, path: seq<nat>, k: nat)
    requires IsPath(g, f, path) && InTurn(g, f, path) && k < |path|
    ensures InGraph(g, f) && path[k] < |g| && InGraph(g, g[path[k]]) && IsFrontier(g, g[path[k]])
    ensures Hist(g, g[path[k]]) == Hist(g, f) + SetOf(path[..k])
    ensures path[k] !in Hist(g, f)
    decreases k
  {
    hide Hist, Reaches;
    TurnAt(g, f, path, k);
    assert path[k] in path;
    if k > 0 {
      TurnHist(g, f, path, k - 1);
      HistOne(g, path[k - 1]);
      SetNext(path, k - 1);
    } else {
      assert SetOf(path[..0]) == {};
    }
  }

  lemma {:induction false} Swapped(g: Graph, f: seq<nat>, p: seq<nat>, q: seq<nat>, pFirst: bool)
    requires Branches(g, f, p, q, pFirst)
    ensures Branches(g, f, q, p, !pFirst)
  {
    hide IsPath, InTurn;
  }

  lemma {:induction false} PathFits(g: Graph, f: seq<nat>, path: seq<nat>)
    requires IsPath(g, f, path)
    ensures AllFrontiers(g) && WellFormed(g) && IsFrontier(g, f) && InGraph(g, f) && StrictlyAscending(path)
    ensures forall k | 0 <= k < |path| :: path[k] < |g| && path[k] in path && path[k] !in Hist(g, f)
  {
    hide Hist, Reaches;
    forall k | 0 <= k < |path|
      ensures path[k] < |g| && path[k] in path && path[k] !in Hist(g, f)
    {
      assert path[k] in path;
    }
  }

  /** At a version with some of both branches, the next one of `q` is new, and `p[..k]` lies in between. */
  lemma {:induction false} NextOfBranch(g: Graph, f: seq<nat>, p: seq<nat>, q: seq<nat>, pFirst: bool, k: nat, j: nat, v: seq<nat>)
    requires Branches(g, f, p, q, pFirst) && Between(g, f, p, q, k, j, v) && j < |q|
    ensures k <= |p| && Next(g, v, q[j]) && InGraph(g, g[q[j]]) && InGraph(g, v) && IsPath(g, g[q[j]], p[..k])
    ensures Between(g, f, p, q, 0, j, g[q[j]])
    ensures Hist(g, g[q[j]]) + SetOf(p[..k]) == Hist(g, v) && Members(Hist(g, v) - Hist(g, g[q[j]]), |g|) == p[..k]
  {
    hide Hist, Reaches, InTurn;
    PathFits(g, f, p);
    PathFits(g, f, q);
    TurnHist(g, f, q, j);
    SetNext(q, j);
    var o := q[j];
    var h := Hist(g, f);
    assert SetOf(p[..0]) == {};
    Disjoint(g, f, p, q, pFirst, k, j);
    assert o !in Hist(g, v);
    assert Hist(g, v) - Hist(g, g[o]) == SetOf(p[..k]);
    assert Next(g, v, o);
    PathBetween(g, o, v);
    SameMembers(Members(SetOf(p[..k]), |g|), p[..k]);
  }

  /** What of `p` has been taken is not in the other branch nor in the history they share. */
  lemma {:induction false} Disjoint(g: Graph, f: seq<nat>, p: seq<nat>, q: seq<nat>, pFirst: bool, k: nat, j: nat)
    requires Branches(g, f, p, q, pFirst) && k <= |p| && j < |q|
    ensures WellFormed(g) && InGraph(g, f) && StrictlyAscending(p[..k])
    ensures forall x | x in SetOf(p[..k]) :: x < |g| && x !in Hist(g, f) && x !in SetOf(q[..j]) && x != q[j]
    ensures forall x :: x in SetOf(p[..k]) <==> x in p[..k]
  {
    hide Hist, Reaches, InTurn;
    PathFits(g, f, p);
    forall x | x in SetOf(p[..k])
      ensures x < |g| && x !in Hist(g, f) && x !in SetOf(q[..j]) && x != q[j]
    {
      var i :| 0 <= i < k && p[..k][i] == x;
      assert p[i] in p && q[j] in q;
      forall y | y in q[..j] ensures y in q { }
    }
  }

  // ---- Rewritten to any such version ----

  /** What is left of the operations of `q[j]` once the first `k` of `p` are there: they are rewritten
      against those, as the operations before `q[j]` leave them. */
  ghost function Met(ops: seq<seq<Op>>, p: seq<nat>, q: seq<nat>, pFirst: bool, k: nat, j: nat): seq<Op>
    requires (forall i | 0 <= i < |p| :: p[i] < |ops|) && (forall i | 0 <= i < |q| :: q[i] < |ops|) && k <= |p| && j < |q|
  {
    ListRewritten(ops[q[j]], ListRewritten(Concat(ops, p[..k]), Concat(ops, q[..j]), !pFirst), pFirst)
  }

  lemma {:induction false} MetNext(ops: seq<seq<Op>>, p: seq<nat>, q: seq<nat>, pFirst: bool, k: nat, j: nat)
    requires (forall i | 0 <= i < |p| :: p[i] < |ops|) && (forall i | 0 <= i < |q| :: q[i] < |ops|) && k < |p| && j < |q|
    ensures Met(ops, p, q, pFirst, k + 1, j) == ListRewritten(Met(ops, p, q, pFirst, k, j), Met(ops, q, p, !pFirst, j, k), pFirst)
  {
    hide ListRewritten, Concat;
    var ps, qs := Concat(ops, p[..k]), Concat(ops, q[..j]);
    ConcatNext(ops, p, k);
    InTwo(ps, ops[p[k]], qs, !pFirst);
    AgainstTwo(ops[q[j]], ListRewritten(ps, qs, !pFirst), ListRewritten(ops[p[k]], ListRewritten(qs, ps, pFirst), !pFirst), pFirst);
  }

  lemma {:induction false} MetNone(ops: seq<seq<Op>>, p: seq<nat>, q: seq<nat>, pFirst: bool, j: nat)
    requires (forall i | 0 <= i < |p| :: p[i] < |ops|) && (forall i | 0 <= i < |q| :: q[i] < |ops|) && j < |q|
    ensures Met(ops, p, q, pFirst, 0, j) == ops[q[j]]
  {
    NothingMet(Concat(ops, q[..j]), !pFirst);
  }

  lemma {:induction false} NothingMet(os: seq<Op>, isLeft: bool)
    ensures ListRewritten([], os, isLeft) == []
    decreases |os|
  {
    if os != [] { NothingMet(os[1..], isLeft); }
  }

  /** The recursion over versions, for any distance between two branches. */
  lemma {:induction false} BranchRewritten(g: Graph, ops: seq<seq<Op>>, f: seq<nat>, p: seq<nat>, q: seq<nat>, pFirst: bool, k: nat, j: nat, v: seq<nat>)
    requires |ops| == |g| && Branches(g, f, p, q, pFirst) && Between(g, f, p, q, k, j, v) && j < |q|
    ensures (forall i | 0 <= i < |p| :: p[i] < |ops|) && (forall i | 0 <= i < |q| :: q[i] < |ops|)
    ensures Next(g, v, q[j]) && RewriteAt(g, ops, q[j], v) == Met(ops, p, q, pFirst, k, j)
    decreases k + j, k + 1
  {
    hide Hist, Reaches, IsPath, InTurn, Met, Next, RewriteThrough, Between, Branches, Members;
    BranchesFit(g, f, p, q, pFirst);
    NextOfBranch(g, f, p, q, pFirst, k, j, v);
    MetNone(ops, p, q, pFirst, j);
    if v == g[q[j]] {
      NothingBetween(g, f, p, q, k, j, v);
    } else {
      assert p[0..k] == p[..k];
      BranchThrough(g, ops, f, p, q, pFirst, k, j, 0, g[q[j]], ops[q[j]]);
    }
  }

  lemma {:induction false} BranchesFit(g: Graph, f: seq<nat>, p: seq<nat>, q: seq<nat>, pFirst: bool)
    requires Branches(g, f, p, q, pFirst)
    ensures (forall i | 0 <= i < |p| :: p[i] < |g|) && (forall i | 0 <= i < |q| :: q[i] < |g|)
    ensures IsPath(g, f, p) && IsPath(g, f, q) && InTurn(g, f, p) && InTurn(g, f, q)
  {
    hide InTurn;
    PathFits(g, f, p);
    PathFits(g, f, q);
  }

  lemma {:induction false} NothingBetween(g: Graph, f: seq<nat>, p: seq<nat>, q: seq<nat>, k: nat, j: nat, v: seq<nat>)
    requires Between(g, f, p, q, k, j, v) && Members(Hist(g, v) - Hist(g, v), |g|) == p[..k]
    ensures k == 0
  {
    NoMembers(|g|);
    assert Hist(g, v) - Hist(g, v) == {};
  }

  lemma {:induction false} BranchThrough(g: Graph, ops: seq<seq<Op>>, f: seq<nat>, p: seq<nat>, q: seq<nat>, pFirst: bool, k: nat, j: nat,
                                         m: nat, v: seq<nat>, cur: seq<Op>)
    requires |ops| == |g| && Branches(g, f, p, q, pFirst) && m <= k <= |p| && j < |q| && Between(g, f, p, q, m, j, v)
    requires (forall i | 0 <= i < |p| :: p[i] < |ops|) && (forall i | 0 <= i < |q| :: q[i] < |ops|)
    requires cur == Met(ops, p, q, pFirst, m, j) && IsPath(g, v, p[m..k])
    ensures RewriteThrough(g, ops, q[j], v, cur, p[m..k]) == Met(ops, p, q, pFirst, k, j)
    decreases k + j, k - m
  {
    hide Hist, Reaches, IsPath, InTurn, Met, Next, Between, Branches, Members, ListRewritten, AdvanceBy, RewriteAt;
    if m < k {
      var o := p[m];
      StepAlong(g, ops, q[j], v, cur, p, m, k);
      SwappedBetween(g, f, p, q, pFirst, m, j, v);
      BranchRewritten(g, ops, f, q, p, !pFirst, j, m, v);
      MetNext(ops, p, q, pFirst, m, j);
      assert o < q[j] <==> pFirst by { InOrder(g, f, p, q, pFirst, m, j); }
      BetweenNext(g, f, p, q, m, j, v);
      BranchThrough(g, ops, f, p, q, pFirst, k, j, m + 1, AdvanceBy(v, o, g[o]), ListRewritten(cur, RewriteAt(g, ops, o, v), o < q[j]));
    }
  }

  lemma {:induction false} InOrder(g: Graph, f: seq<nat>, p: seq<nat>, q: seq<nat>, pFirst: bool, m: nat, j: nat)
    requires Branches(g, f, p, q, pFirst) && m < |p| && j < |q|
    ensures p[m] < q[j] <==> pFirst
  {
    hide IsPath, InTurn;
    assert p[m] in p && q[j] in q;
  }

  lemma {:induction false} SwappedBetween(g: Graph, f: seq<nat>, p: seq<nat>, q: seq<nat>, pFirst: bool, k: nat, j: nat, v: seq<nat>)
    requires Branches(g, f, p, q, pFirst) && Between(g, f, p, q, k, j, v)
    ensures Branches(g, f, q, p, !pFirst) && Between(g, f, q, p, j, k, v)
  {
    hide Hist, IsFrontier, Branches;
    Swapped(g, f, p, q, pFirst);
    assert Hist(g, f) + SetOf(p[..k]) + SetOf(q[..j]) == Hist(g, f) + SetOf(q[..j]) + SetOf(p[..k]);
  }

  /** One version of the path further. */
  lemma {:induction false} StepAlong(g: Graph, ops: seq<seq<Op>>, i: nat, v: seq<nat>, cur: seq<Op>, p: seq<nat>, m: nat, k: nat)
    requires |ops| == |g| && m < k <= |p| && IsPath(g, v, p[m..k])
    ensures var o := p[m];
            && Next(g, v, o) && StrictlyAscending(v) && o !in v && IsPath(g, AdvanceBy(v, o, g[o]), p[m + 1..k])
            && RewriteThrough(g, ops, i, v, cur, p[m..k]) ==
               RewriteThrough(g, ops, i, AdvanceBy(v, o, g[o]), ListRewritten(cur, RewriteAt(g, ops, o, v), o < i), p[m + 1..k])
  {
    hide Hist, Reaches, AdvanceBy, ListRewritten, RewriteAt, IsPath, Next;
    PathNext(g, v, p[m..k]);
    assert p[m..k][1..] == p[m + 1..k] && p[m..k][0] == p[m];
  }

  lemma {:induction false} BetweenNext(g: Graph, f: seq<nat>, p: seq<nat>, q: seq<nat>, k: nat, j: nat, v: seq<nat>)
    requires Between(g, f, p, q, k, j, v) && k < |p| && Next(g, v, p[k])
    ensures StrictlyAscending(v) && p[k] !in v && Between(g, f, p, q, k + 1, j, AdvanceBy(v, p[k], g[p[k]]))
  {
    hide Hist, Reaches, AdvanceBy;
    AdvanceByMeans(g, v, p[k]);
    SetNext(p, k);
  }

  // ---- Documents ----

  /** The rest of the second branch, operation by operation. */
  lemma {:induction false} SecondBranch(g: Graph, ops: seq<seq<Op>>, f: seq<nat>, p: seq<nat>, q: seq<nat>, j: nat, v: seq<nat>, base: string)
    requires |ops| == |g| && Branches(g, f, p, q, true) && j <= |q| && Between(g, f, p, q, |p|, j, v) && IsPath(g, v, q[j..])
    requires (forall i | 0 <= i < |p| :: p[i] < |ops|) && (forall i | 0 <= i < |q| :: q[i] < |ops|)
    requires AllFit(ListRewritten(Concat(ops, q), Concat(ops, p), true), base)
    ensures AllFit(ListRewritten(Concat(ops, q[..j]), Concat(ops, p), true), base)
    ensures DocThrough(g, ops, v, ApplyAll(ListRewritten(Concat(ops, q[..j]), Concat(ops, p), true), base), q[j..]) ==
            Some(ApplyAll(ListRewritten(Concat(ops, q), Concat(ops, p), true), base))
    decreases |q| - j
  {
    hide Hist, Reaches, IsPath, InTurn, Next, Between, Branches, Members, ListRewritten, AdvanceBy, RewriteAt, Concat, AllFit, ApplyAll;
    FittingPart(ops, p, q, j, base);
    if j < |q| {
      DocStep(g, ops, v, ApplyAll(ListRewritten(Concat(ops, q[..j]), Concat(ops, p), true), base), q, j);
      BranchRewritten(g, ops, f, p, q, true, |p|, j, v);
      MetConcat(ops, p, q, j);
      FittingPart(ops, p, q, j + 1, base);
      AllConcat(ListRewritten(Concat(ops, q[..j]), Concat(ops, p), true), Met(ops, p, q, true, |p|, j), base);
      NextAfter(g, f, p, q, j, v);
      SecondBranch(g, ops, f, p, q, j + 1, AdvanceBy(v, q[j], g[q[j]]), base);
    } else {
      assert q[..j] == q;
      DocDone(g, ops, v, ApplyAll(ListRewritten(Concat(ops, q), Concat(ops, p), true), base), q);
    }
  }

  lemma {:induction false} NextAfter(g: Graph, f: seq<nat>, p: seq<nat>, q: seq<nat>, j: nat, v: seq<nat>)
    requires Branches(g, f, p, q, true) && Between(g, f, p, q, |p|, j, v) && j < |q| && Next(g, v, q[j])
    ensures StrictlyAscending(v) && q[j] !in v && Between(g, f, p, q, |p|, j + 1, AdvanceBy(v, q[j], g[q[j]]))
  {
    hide Hist, Branches, AdvanceBy, Next, Between;
    NextFacts(g, v, q[j]);
    SwappedBetween(g, f, p, q, true, |p|, j, v);
    BetweenNext(g, f, q, p, j, |p|, v);
    SwappedBetween(g, f, q, p, false, j + 1, |p|, AdvanceBy(v, q[j], g[q[j]]));
  }

  /** Concatenating what the members of the second branch become. */
  lemma {:induction false} MetConcat(ops: seq<seq<Op>>, p: seq<nat>, q: seq<nat>, j: nat)
    requires (forall i | 0 <= i < |p| :: p[i] < |ops|) && (forall i | 0 <= i < |q| :: q[i] < |ops|) && j < |q|
    ensures ListRewritten(Concat(ops, q[..j + 1]), Concat(ops, p), true) ==
            ListRewritten(Concat(ops, q[..j]), Concat(ops, p), true) + Met(ops, p, q, true, |p|, j)
  {
    hide ListRewritten, Concat;
    ConcatNext(ops, q, j);
    InTwo(Concat(ops, q[..j]), ops[q[j]], Concat(ops, p), true);
    assert p[..|p|] == p;
  }

  lemma {:induction false} FittingPart(ops: seq<seq<Op>>, p: seq<nat>, q: seq<nat>, j: nat, base: string)
    requires (forall i | 0 <= i < |p| :: p[i] < |ops|) && (forall i | 0 <= i < |q| :: q[i] < |ops|) && j <= |q|
    requires AllFit(ListRewritten(Concat(ops, q), Concat(ops, p), true), base)
    ensures AllFit(ListRewritten(Concat(ops, q[..j]), Concat(ops, p), true), base)
    decreases |q| - j
  {
    hide ListRewritten, Concat, Met, AllFit, ApplyAll;
    if j < |q| {
      FittingPart(ops, p, q, j + 1, base);
      MetConcat(ops, p, q, j);
      AllConcat(ListRewritten(Concat(ops, q[..j]), Concat(ops, p), true), Met(ops, p, q, true, |p|, j), base);
    } else {
      assert q[..j] == q;
    }
  }

  /** The first branch applies as it was written, and the second one goes on from there. */
  lemma {:induction false} FirstBranch(g: Graph, ops: seq<seq<Op>>, f: seq<nat>, p: seq<nat>, q: seq<nat>, k: nat, v: seq<nat>, doc: string)
    requires |ops| == |g| && Branches(g, f, p, q, true) && k <= |p| && Between(g, f, p, q, k, 0, v) && IsPath(g, v, p[k..] + q)
    requires (forall i | 0 <= i < |p| :: p[i] < |ops|) && (forall i | 0 <= i < |q| :: q[i] < |ops|)
    requires AllFit(Concat(ops, p), doc) && AllFit(Concat(ops, q), doc)
    ensures AllFit(Concat(ops, p[..k]), doc)
    ensures AllFit(ListRewritten(Concat(ops, q), Concat(ops, p), true), ApplyAll(Concat(ops, p), doc))
    ensures DocThrough(g, ops, v, ApplyAll(Concat(ops, p[..k]), doc), p[k..] + q) ==
            Some(ApplyAll(ListRewritten(Concat(ops, q), Concat(ops, p), true), ApplyAll(Concat(ops, p), doc)))
    decreases |p| - k
  {
    hide Hist, Reaches, IsPath, InTurn, Next, Between, Branches, Members, ListRewritten, AdvanceBy, RewriteAt, Concat, AllFit, ApplyAll;
    ListsConverge(Concat(ops, q), Concat(ops, p), doc, true);
    FittingFirst(ops, p, k, doc);
    if k < |p| {
      FirstStep(g, ops, v, ApplyAll(Concat(ops, p[..k]), doc), p, q, k);
      SwappedBetween(g, f, p, q, true, k, 0, v);
      BranchRewritten(g, ops, f, q, p, false, 0, k, v);
      MetNone(ops, q, p, false, k);
      FittingFirst(ops, p, k + 1, doc);
      ConcatNext(ops, p, k);
      AllConcat(Concat(ops, p[..k]), ops[p[k]], doc);
      BetweenNext(g, f, p, q, k, 0, v);
      FirstBranch(g, ops, f, p, q, k + 1, AdvanceBy(v, p[k], g[p[k]]), doc);
    } else {
      assert p[..k] == p && p[k..] + q == q && q[0..] == q && q[..0] == [];
      NoneYet(ops, p);
      SecondBranch(g, ops, f, p, q, 0, v, ApplyAll(Concat(ops, p), doc));
    }
  }

  lemma {:induction false} NoneYet(ops: seq<seq<Op>>, p: seq<nat>)
    requires forall i | 0 <= i < |p| :: p[i] < |ops|
    ensures ListRewritten(Concat(ops, []), Concat(ops, p), true) == [] && forall base :: ApplyAll([], base) == base
  {
    NothingMet(Concat(ops, p), true);
  }

  lemma {:induction false} FittingFirst(ops: seq<seq<Op>>, p: seq<nat>, k: nat, doc: string)
    requires (forall i | 0 <= i < |p| :: p[i] < |ops|) && k <= |p| && AllFit(Concat(ops, p), doc)
    ensures AllFit(Concat(ops, p[..k]), doc)
    decreases |p| - k
  {
    hide Concat, AllFit, ApplyAll;
    if k < |p| {
      FittingFirst(ops, p, k + 1, doc);
      ConcatNext(ops, p, k);
      AllConcat(Concat(ops, p[..k]), ops[p[k]], doc);
    } else {
      assert p[..k] == p;
    }
  }

  lemma {:induction false} FirstStep(g: Graph, ops: seq<seq<Op>>, v: seq<nat>, doc: string, p: seq<nat>, q: seq<nat>, k: nat)
    requires |ops| == |g| && k < |p| && IsPath(g, v, p[k..] + q)
    ensures var o := p[k];
            && Next(g, v, o) && StrictlyAscending(v) && o !in v && IsPath(g, AdvanceBy(v, o, g[o]), p[k + 1..] + q)
            && var here := RewriteAt(g, ops, o, v);
               DocThrough(g, ops, v, doc, p[k..] + q) ==
               if !AllFit(here, doc) then None else DocThrough(g, ops, AdvanceBy(v, o, g[o]), ApplyAll(here, doc), p[k + 1..] + q)
  {
    hide Hist, Reaches, AdvanceBy, RewriteAt, AllFit, ApplyAll, IsPath, Next, DocThrough;
    DocFirst(g, ops, v, doc, p[k..] + q);
    assert (p[k..] + q)[1..] == p[k + 1..] + q && (p[k..] + q)[0] == p[k];
  }

  lemma {:induction false} BothPath(g: Graph, f: seq<nat>, p: seq<nat>, q: seq<nat>)
    requires Branches(g, f, p, q, true)
    ensures IsPath(g, f, p + q) && Between(g, f, p, q, 0, 0, f)
  {
    hide Hist, Reaches, InTurn;
    PathFits(g, f, p);
    PathFits(g, f, q);
    assert SetOf(p + q) == SetOf(p) + SetOf(q);
    assert SetOf(p[..0]) == {} && SetOf(q[..0]) == {};
  }

  /** Two people work on the same document without seeing each other's operations, any number of them.
      If all of these fit when they were made, merging them in order of version gives the document of the
      first branch and then the second one, rewritten against it as a list; or, which is the same, of the
      second branch and then the first one. */
  lemma {:induction false} BranchesConverge(g: Graph, ops: seq<seq<Op>>, f: seq<nat>, doc: string, p: seq<nat>, q: seq<nat>)
    requires |ops| == |g| && Branches(g, f, p, q, true)
    requires (forall i | 0 <= i < |p| :: p[i] < |ops|) && (forall i | 0 <= i < |q| :: q[i] < |ops|)
    requires AllFit(Concat(ops, p), doc) && AllFit(Concat(ops, q), doc)
    ensures IsPath(g, f, p + q)
    ensures AllFit(ListRewritten(Concat(ops, q), Concat(ops, p), true), ApplyAll(Concat(ops, p), doc))
    ensures AllFit(ListRewritten(Concat(ops, p), Concat(ops, q), false), ApplyAll(Concat(ops, q), doc))
    ensures DocThrough(g, ops, f, doc, p + q) == Some(ApplyAll(ListRewritten(Concat(ops, q), Concat(ops, p), true), ApplyAll(Concat(ops, p), doc)))
    ensures DocThrough(g, ops, f, doc, p + q) == Some(ApplyAll(ListRewritten(Concat(ops, p), Concat(ops, q), false), ApplyAll(Concat(ops, q), doc)))
  {
    hide Hist, Reaches, IsPath, InTurn, Between, Branches, ListRewritten, AllFit, DocThrough;
    BothPath(g, f, p, q);
    assert p[0..] + q == p + q && p[..0] == [];
    ListsConverge(Concat(ops, q), Concat(ops, p), doc, true);
    FirstBranch(g, ops, f, p, q, 0, f, doc);
  }
}
