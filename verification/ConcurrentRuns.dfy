/** Authors who type concurrently at one place: every order in which their operations can be stored
    replays to the same text, with each author's run unbroken and the runs ordered by ID. */
module ConcurrentRuns {
  import opened Dag
  import opened RleGraph
  import opened ListLog
  import opened Items
  import opened Replay
  import opened Intent
  import opened ReplayRun
  import opened Ordered

  /** One author's run: its ID, what was typed, and the versions that hold it. */
  datatype TypedRun<T> = TypedRun(head: RawVersion, content: seq<T>, lvs: seq<nat>)

  ghost predicate IsRun<T>(log: Log<T>, m: nat, pos: nat, run: TypedRun<T>)
    requires ValidLog(log)
  {
    && |run.lvs| == |run.content| > 0
    && (forall k | 0 <= k < |run.lvs| :: m <= run.lvs[k] < |log.g| && log.ops[run.lvs[k]] == Ins(pos + k, run.content[k]))
    && (forall k, l | 0 <= k < l < |run.lvs| :: run.lvs[k] < run.lvs[l])
    && log.ids[run.lvs[0]] == run.head
    && InGraph(log.g, log.g[run.lvs[0]]) && Hist(log.g, log.g[run.lvs[0]]) == Range(0, m)
    && (forall k | 0 < k < |run.lvs| :: log.g[run.lvs[k]] == [run.lvs[k - 1]])
  }

  ghost predicate InSomeRun<T>(runs: seq<TypedRun<T>>, lv: nat) {
    exists i :: 0 <= i < |runs| && lv in runs[i].lvs
  }

  /** After the common history `[0, m)` the log holds the runs and nothing else, in any interleaving. */
  ghost predicate RunsLog<T>(log: Log<T>, m: nat, pos: nat, runs: seq<TypedRun<T>>) {
    && ValidLog(log) && m <= |log.g|
    && (forall i | 0 <= i < |runs| :: IsRun(log, m, pos, runs[i]))
    && (forall i, j | 0 <= i < j < |runs| :: RawLess(runs[i].head, runs[j].head))
    && (forall lv | m <= lv < |log.g| :: InSomeRun(runs, lv))
    && (forall i, j, lv | 0 <= i < |runs| && 0 <= j < |runs| && lv in runs[i].lvs && lv in runs[j].lvs :: i == j)
  }

  function JoinRuns<T>(runs: seq<TypedRun<T>>): seq<T> {
    if runs == [] then [] else JoinRuns(runs[..|runs| - 1]) + runs[|runs| - 1].content
  }

  // ---- The item order while the runs are being replayed ----

  /** How many operations of a run come before version `n`. */
  function Taken(lvs: seq<nat>, n: nat): (c: nat)
    ensures c <= |lvs|
  {
    if lvs == [] then 0
    else if lvs[|lvs| - 1] < n then |lvs|
    else Taken(lvs[..|lvs| - 1], n)
  }

  lemma {:induction false} TakenPrefix(lvs: seq<nat>, n: nat)
    requires forall k, l | 0 <= k < l < |lvs| :: lvs[k] < lvs[l]
    ensures forall k | 0 <= k < |lvs| :: k < Taken(lvs, n) <==> lvs[k] < n
  {
    if lvs != [] && lvs[|lvs| - 1] >= n {
      TakenPrefix(lvs[..|lvs| - 1], n);
      forall k | 0 <= k < |lvs|
        ensures k < Taken(lvs, n) <==> lvs[k] < n
      {
        if k < |lvs| - 1 { assert lvs[..|lvs| - 1][k] == lvs[k]; }
      }
    }
  }

  function Counts<T>(runs: seq<TypedRun<T>>, n: nat): (cs: seq<nat>)
    ensures |cs| == |runs|
  {
    seq(|runs|, i requires 0 <= i < |runs| => Taken(runs[i].lvs, n))
  }

  function Offset(cs: seq<nat>, i: nat): nat
    requires i <= |cs|
  {
    if i == 0 then 0 else Offset(cs, i - 1) + cs[i - 1]
  }

  ghost predicate CountsFit<T>(runs: seq<TypedRun<T>>, cs: seq<nat>) {
    |cs| == |runs| && forall i | 0 <= i < |runs| :: cs[i] <= |runs[i].lvs|
  }

  /** Every item of a run but the first hangs off its predecessor. */
  function RunPlaced<T>(run: TypedRun<T>, k: nat, left: int, right: int): Placed
    requires k < |run.lvs|
  {
    if k == 0 then Placed(run.lvs[0], left, right) else Placed(run.lvs[k], run.lvs[k - 1], -1)
  }

  function RunOrder<T>(run: TypedRun<T>, c: nat, left: int, right: int): (r: seq<Placed>)
    requires c <= |run.lvs|
    ensures |r| == c
  {
    seq(c, k requires 0 <= k < c => RunPlaced(run, k, left, right))
  }

  function AllRuns<T>(runs: seq<TypedRun<T>>, cs: seq<nat>, left: int, right: int): (r: seq<Placed>)
    requires CountsFit(runs, cs)
    ensures |r| == Offset(cs, |cs|)
  {
    if runs == [] then []
    else
      var k := |runs| - 1;
      OffsetPrefix(cs, k, k);
      AllRuns(runs[..k], cs[..k], left, right) + RunOrder(runs[k], cs[k], left, right)
  }

  lemma {:induction false} OffsetPrefix(cs: seq<nat>, k: nat, i: nat)
    requires i <= k <= |cs|
    ensures Offset(cs[..k], i) == Offset(cs, i)
  {
    if i > 0 {
      OffsetPrefix(cs, k, i - 1);
    }
  }

  lemma {:induction false} OffsetNext(cs: seq<nat>, i: nat)
    requires i < |cs|
    ensures Offset(cs, i + 1) == Offset(cs, i) + cs[i]
  {
  }

  lemma {:induction false} OffsetMonotone(cs: seq<nat>, i: nat, j: nat)
    requires i <= j <= |cs|
    ensures Offset(cs, i) <= Offset(cs, j)
    decreases j
  {
    if i < j {
      OffsetMonotone(cs, i, j - 1);
    }
  }

  lemma {:induction false} AllRunsAt<T>(runs: seq<TypedRun<T>>, cs: seq<nat>, left: int, right: int, i: nat, k: nat)
    requires CountsFit(runs, cs) && i < |runs| && k < cs[i]
    ensures Offset(cs, i) + k < Offset(cs, i + 1) <= |AllRuns(runs, cs, left, right)|
    ensures AllRuns(runs, cs, left, right)[Offset(cs, i) + k] == RunPlaced(runs[i], k, left, right)
  {
    OffsetMonotone(cs, i + 1, |cs|);
    var n := |runs| - 1;
    OffsetPrefix(cs, n, n);
    if i < n {
      OffsetPrefix(cs, n, i);
      OffsetPrefix(cs, n, i + 1);
      AllRunsAt(runs[..n], cs[..n], left, right, i, k);
    }
  }

  /** Every position among the runs belongs to one run. */
  lemma {:induction false} Locate(cs: seq<nat>, x: nat, n: nat) returns (i: nat, k: nat)
    requires n <= |cs| && x < Offset(cs, n)
    ensures i < n && k < cs[i] && x == Offset(cs, i) + k
    decreases n
  {
    if x >= Offset(cs, n - 1) {
      i, k := n - 1, x - Offset(cs, n - 1);
    } else {
      i, k := Locate(cs, x, n - 1);
    }
  }

  /** Taking one more operation of run `i` puts one more item right after those it already has. */
  lemma {:induction false} AllRunsGrow<T>(runs: seq<TypedRun<T>>, cs: seq<nat>, left: int, right: int, i: nat)
    requires CountsFit(runs, cs) && i < |runs| && cs[i] < |runs[i].lvs|
    ensures CountsFit(runs, cs[i := cs[i] + 1])
    ensures Offset(cs, i) + cs[i] <= |AllRuns(runs, cs, left, right)|
    ensures AllRuns(runs, cs[i := cs[i] + 1], left, right) ==
            OrderWith(AllRuns(runs, cs, left, right), Offset(cs, i) + cs[i], RunPlaced(runs[i], cs[i], left, right))
  {
    hide OrderWith, RunPlaced, RunOrder, Offset, AllRuns;
    var n := |runs| - 1;
    AllRunsLast(runs, cs, left, right);
    OffsetMonotone(cs, i + 1, |cs|);
    OffsetPrefix(cs, n, n);
    if i == n {
      AllRunsGrowLast(runs, cs, left, right);
    } else {
      var cs' := cs[i := cs[i] + 1];
      assert cs'[..n] == cs[..n][i := cs[i] + 1];
      AllRunsLast(runs, cs', left, right);
      AllRunsGrow(runs[..n], cs[..n], left, right, i);
      OffsetPrefix(cs, n, i);
      OrderWithConcat(AllRuns(runs[..n], cs[..n], left, right), RunOrder(runs[n], cs[n], left, right), Offset(cs, i) + cs[i],
                      RunPlaced(runs[i], cs[i], left, right));
    }
  }

  lemma {:induction false} AllRunsLast<T>(runs: seq<TypedRun<T>>, cs: seq<nat>, left: int, right: int)
    requires CountsFit(runs, cs) && |runs| > 0
    ensures var n := |runs| - 1;
            CountsFit(runs[..n], cs[..n]) && AllRuns(runs, cs, left, right) == AllRuns(runs[..n], cs[..n], left, right) + RunOrder(runs[n], cs[n], left, right)
  {
  }

  lemma {:induction false} AllRunsGrowLast<T>(runs: seq<TypedRun<T>>, cs: seq<nat>, left: int, right: int)
    requires CountsFit(runs, cs) && |runs| > 0 && cs[|runs| - 1] < |runs[|runs| - 1].lvs|
    ensures var n := |runs| - 1;
            && CountsFit(runs, cs[n := cs[n] + 1])
            && AllRuns(runs, cs[n := cs[n] + 1], left, right) == AllRuns(runs, cs, left, right) + [RunPlaced(runs[n], cs[n], left, right)]
            && OrderWith(AllRuns(runs, cs, left, right), |AllRuns(runs, cs, left, right)|, RunPlaced(runs[n], cs[n], left, right))
               == AllRuns(runs, cs, left, right) + [RunPlaced(runs[n], cs[n], left, right)]
  {
    var n := |runs| - 1;
    var init, last := AllRuns(runs[..n], cs[..n], left, right), RunOrder(runs[n], cs[n], left, right);
    var p := RunPlaced(runs[n], cs[n], left, right);
    assert cs[n := cs[n] + 1][..n] == cs[..n];
    assert RunOrder(runs[n], cs[n] + 1, left, right) == last + [p];
    assert init + (last + [p]) == init + last + [p];
    OrderWithEnd(init + last, p);
  }

  lemma {:induction false} OrderWithEnd(order: seq<Placed>, p: Placed)
    ensures OrderWith(order, |order|, p) == order + [p]
  {
  }

  lemma {:induction false} OrderWithConcat(a: seq<Placed>, b: seq<Placed>, k: nat, p: Placed)
    requires k <= |a|
    ensures OrderWith(a + b, k, p) == OrderWith(a, k, p) + b
    ensures OrderWith(b + a, |b| + k, p) == b + OrderWith(a, k, p)
  {
  }

  // ---- One step ----

  /** The document of the common history, seen at its latest version. */
  ghost function BaseView(b: Doc, m: nat): (r: seq<Item>)
    ensures |r| == |b.order|
  {
    ViewAt(b, Range(0, m))
  }

  /** `b` is the common document and `j` the place in it where everybody types. */
  ghost predicate Setting<T>(log: Log<T>, m: nat, pos: nat, runs: seq<TypedRun<T>>, b: Doc, j: nat) {
    && RunsLog(log, m, pos, runs)
    && Replayed(log, {}, Range(0, m), b)
    && (forall x | 0 <= x < |b.order| :: b.order[x].opId < m)
    && j <= |b.order|
    && |Visible(BaseView(b, m)[..j])| == pos
    && (j > 0 ==> BaseView(b, m)[j - 1].curState == INSERTED)
  }

  ghost function LeftId(b: Doc, j: nat): int
    requires j <= |b.order|
  {
    if j == 0 then -1 else b.order[j - 1].opId
  }

  ghost function RightId(b: Doc, j: nat): int
    requires j <= |b.order|
  {
    if j < |b.order| && b.order[j].originLeft == LeftId(b, j) then b.order[j].opId else -1
  }

  /** The document once `cs[i]` operations of each run `i` have been replayed. */
  ghost function MidDoc<T>(b: Doc, j: nat, runs: seq<TypedRun<T>>, cs: seq<nat>): Doc
    requires j <= |b.order| && CountsFit(runs, cs)
  {
    Doc(b.order[..j] + AllRuns(runs, cs, LeftId(b, j), RightId(b, j)) + b.order[j..], b.targets)
  }

  /** What the author of the `k`-th operation of a run had seen. */
  ghost function SeenBy<T>(m: nat, run: TypedRun<T>, k: nat): set<nat>
    requires k <= |run.lvs|
  {
    Range(0, m) + set l | 0 <= l < k :: run.lvs[l]
  }

  lemma {:induction false} RunHist<T>(log: Log<T>, m: nat, pos: nat, run: TypedRun<T>, k: nat)
    requires ValidLog(log) && IsRun(log, m, pos, run) && k < |run.lvs|
    ensures InGraph(log.g, log.g[run.lvs[k]]) && Hist(log.g, log.g[run.lvs[k]]) == SeenBy(m, run, k)
    decreases k
  {
    if k > 0 {
      RunHist(log, m, pos, run, k - 1);
      HistOne(log.g, run.lvs[k]);
      HistOne(log.g, run.lvs[k - 1]);
      assert SeenBy(m, run, k) == SeenBy(m, run, k - 1) + {run.lvs[k - 1]};
    }
  }

  /** The state of the runs' items, as the author of operation `k` of run `i` sees them. */
  ghost predicate RunsSeen<T>(q: seq<Item>, runs: seq<TypedRun<T>>, cs: seq<nat>, i: nat, left: int, right: int)
    requires CountsFit(runs, cs) && i < |runs|
  {
    && |q| == Offset(cs, |cs|)
    && forall x | 0 <= x < |q| ::
         && q[x].endState == INSERTED
         && q[x].curState == (if Offset(cs, i) <= x < Offset(cs, i + 1) then INSERTED else NOT_YET_INSERTED)
         && Placed(q[x].opId, q[x].originLeft, q[x].rightParent) == AllRuns(runs, cs, left, right)[x]
  }

  ghost function RunsView<T>(b: Doc, j: nat, runs: seq<TypedRun<T>>, cs: seq<nat>, v: set<nat>): seq<Item>
    requires j <= |b.order| && CountsFit(runs, cs)
  {
    ViewAt(Doc(AllRuns(runs, cs, LeftId(b, j), RightId(b, j)), b.targets), v)
  }

  /** Nothing in the common history targets an item typed later. */
  lemma {:induction false} BaseTargets<T>(log: Log<T>, m: nat, b: Doc, id: nat)
    requires Replayed(log, {}, Range(0, m), b) && (forall x | 0 <= x < |b.order| :: b.order[x].opId < m) && m <= id
    ensures forall d | d in b.targets :: b.targets[d] != id
    ensures EndState(b.targets, id) == INSERTED
  {
    hide OriginsOrdered, Closed, DistinctOrder, Hist;
    forall d | d in b.targets
      ensures b.targets[d] != id
    {
      assert InOrder(b.order, b.targets[d]);
    }
  }

  lemma {:induction false} RunItemSeen<T>(log: Log<T>, m: nat, pos: nat, runs: seq<TypedRun<T>>, b: Doc, cs: seq<nat>, i: nat, i': nat, k': nat)
    requires RunsLog(log, m, pos, runs) && CountsFit(runs, cs) && i < |runs| && i' < |runs| && k' < cs[i']
    requires Replayed(log, {}, Range(0, m), b) && (forall x | 0 <= x < |b.order| :: b.order[x].opId < m)
    ensures EndState(b.targets, runs[i'].lvs[k']) == INSERTED
    ensures StateAt(b.targets, SeenBy(m, runs[i], cs[i]), runs[i'].lvs[k']) == if i' == i then INSERTED else NOT_YET_INSERTED
  {
    hide OriginsOrdered, Closed, DistinctOrder, Hist, OrderMatches, TargetsMatch;
    var id, v := runs[i'].lvs[k'], SeenBy(m, runs[i], cs[i]);
    assert IsRun(log, m, pos, runs[i']) && IsRun(log, m, pos, runs[i]);
    assert id in runs[i'].lvs;
    BaseTargets(log, m, b, id);
    assert DeletesOf(b.targets, v, id) == {};
    if i' == i {
      assert id in v;
    } else {
      forall l | 0 <= l < cs[i]
        ensures runs[i].lvs[l] != id
      {
        assert runs[i].lvs[l] in runs[i].lvs;
      }
    }
  }

  lemma {:induction false} ViewRuns<T>(log: Log<T>, m: nat, pos: nat, runs: seq<TypedRun<T>>, b: Doc, j: nat, cs: seq<nat>, i: nat)
    requires Setting(log, m, pos, runs, b, j) && CountsFit(runs, cs) && i < |runs|
    ensures RunsSeen(RunsView(b, j, runs, cs, SeenBy(m, runs[i], cs[i])), runs, cs, i, LeftId(b, j), RightId(b, j))
  {
    hide Replayed, RunsLog, Visible, SeenBy, AllRuns, StateAt, EndState;
    var left, right, v := LeftId(b, j), RightId(b, j), SeenBy(m, runs[i], cs[i]);
    var all := AllRuns(runs, cs, left, right);
    forall x | 0 <= x < |all|
      ensures EndState(b.targets, all[x].opId) == INSERTED
      ensures StateAt(b.targets, v, all[x].opId) == (if Offset(cs, i) <= x < Offset(cs, i + 1) then INSERTED else NOT_YET_INSERTED)
    {
      var i', k' := Locate(cs, x, |cs|);
      AllRunsAt(runs, cs, left, right, i', k');
      RunItemSeen(log, m, pos, runs, b, cs, i, i', k');
      if i' < i { OffsetMonotone(cs, i' + 1, i); }
      if i < i' { OffsetMonotone(cs, i + 1, i'); }
    }
  }

  lemma {:induction false} ViewConcat(p: seq<Placed>, q: seq<Placed>, r: seq<Placed>, targets: map<nat, nat>, v: set<nat>)
    ensures ViewAt(Doc(p + q + r, targets), v) == ViewAt(Doc(p, targets), v) + ViewAt(Doc(q, targets), v) + ViewAt(Doc(r, targets), v)
  {
  }

  /** An author who has seen more than the common history sees the common items just the same. */
  lemma {:induction false} BaseItemSeen<T>(log: Log<T>, m: nat, b: Doc, v: set<nat>, x: nat)
    requires Replayed(log, {}, Range(0, m), b) && x < |b.order| && b.order[x].opId < m && Range(0, m) <= v
    ensures ViewAt(b, v)[x] == BaseView(b, m)[x] && BaseView(b, m)[x].curState != NOT_YET_INSERTED
  {
    hide OriginsOrdered, Closed, DistinctOrder, Hist;
    assert DeletesOf(b.targets, v, b.order[x].opId) == DeletesOf(b.targets, Range(0, m), b.order[x].opId);
  }

  /** The whole view: the common items, with the runs' items between them. */
  lemma {:induction false} ViewMid<T>(log: Log<T>, m: nat, pos: nat, runs: seq<TypedRun<T>>, b: Doc, j: nat, cs: seq<nat>, i: nat)
    requires Setting(log, m, pos, runs, b, j) && CountsFit(runs, cs) && i < |runs|
    ensures ViewAt(MidDoc(b, j, runs, cs), SeenBy(m, runs[i], cs[i])) ==
            BaseView(b, m)[..j] + RunsView(b, j, runs, cs, SeenBy(m, runs[i], cs[i])) + BaseView(b, m)[j..]
    ensures forall x | 0 <= x < |BaseView(b, m)| :: BaseView(b, m)[x].curState != NOT_YET_INSERTED
  {
    hide Replayed, RunsLog, Visible, AllRuns, StateAt, EndState;
    var v := SeenBy(m, runs[i], cs[i]);
    forall x | 0 <= x < |b.order|
      ensures ViewAt(b, v)[x] == BaseView(b, m)[x] && BaseView(b, m)[x].curState != NOT_YET_INSERTED
    {
      BaseItemSeen(log, m, b, v, x);
    }
    assert ViewAt(b, v) == BaseView(b, m);
    ViewConcat(b.order[..j], AllRuns(runs, cs, LeftId(b, j), RightId(b, j)), b.order[j..], b.targets, v);
    assert ViewAt(Doc(b.order[..j], b.targets), v) == ViewAt(b, v)[..j];
    assert ViewAt(Doc(b.order[j..], b.targets), v) == ViewAt(b, v)[j..];
  }

  // ---- Where the next operation of run `i` goes ----

  /** A list made of settled items with the runs' items between them, as author `i` sees it. */
  ghost predicate MidView<T>(before: seq<Item>, q: seq<Item>, after: seq<Item>, runs: seq<TypedRun<T>>, cs: seq<nat>, i: nat, left: int, right: int)
    requires CountsFit(runs, cs) && i < |runs|
  {
    && (forall x | 0 <= x < |before| :: before[x].curState != NOT_YET_INSERTED)
    && (forall x | 0 <= x < |after| :: after[x].curState != NOT_YET_INSERTED)
    && RunsSeen(q, runs, cs, i, left, right)
    && (|before| > 0 ==> before[|before| - 1].curState == INSERTED)
    && left == (if before == [] then -1 else before[|before| - 1].opId)
    && right == (if after != [] && after[0].originLeft == left then after[0].opId else -1)
  }

  ghost function CursorIdx(before: seq<Item>, cs: seq<nat>, i: nat): nat
    requires i < |cs|
  {
    if cs[i] == 0 then |before| else |before| + Offset(cs, i) + cs[i]
  }

  lemma {:induction false} OwnVisible(q: seq<Item>, lo: nat, hi: nat)
    requires lo <= hi <= |q|
    requires forall x | 0 <= x < lo :: q[x].curState == NOT_YET_INSERTED
    requires forall x | lo <= x < hi :: q[x].curState == INSERTED && q[x].endState == INSERTED
    ensures |Visible(q[..hi])| == hi - lo
  {
    assert q[..hi] == q[..lo] + q[lo..hi];
    VisibleConcat(q[..lo], q[lo..hi]);
    NoneVisible(q, 0, lo);
    assert q[..0] == [];
    AllVisible(q[lo..hi]);
  }

  lemma {:induction false} MidPrefix(before: seq<Item>, q: seq<Item>, after: seq<Item>, n: nat)
    requires n <= |q|
    ensures (before + q + after)[..|before| + n] == before + q[..n]
    ensures n > 0 ==> (before + q + after)[|before| + n - 1] == q[n - 1]
  {
  }

  lemma {:induction false} CursorMid<T>(before: seq<Item>, q: seq<Item>, after: seq<Item>, runs: seq<TypedRun<T>>, cs: seq<nat>, i: nat, left: int, right: int)
    requires CountsFit(runs, cs) && i < |runs| && MidView(before, q, after, runs, cs, i, left, right)
    ensures CursorIdx(before, cs, i) <= |before| + |q|
    ensures CursorAt(before + q + after, |Visible(before)| + cs[i]) == Some(CursorIdx(before, cs, i))
  {
    hide Visible, CursorAt, Offset, MidView, RunsSeen, CountsFit;
    OwnItems(before, q, after, runs, cs, i, left, right);
    if cs[i] == 0 {
      StartsWith(before, q, after);
      CursorIs(before + q + after, |Visible(before)| + cs[i], |before|);
    } else {
      CursorInside(before, q, after, Offset(cs, i), cs[i]);
    }
  }

  /** The cursor after `k` visible items behind `before`. */
  lemma {:induction false} CursorInside(before: seq<Item>, q: seq<Item>, after: seq<Item>, s: nat, k: nat)
    requires 0 < k && s + k <= |q|
    requires (forall x | 0 <= x < s :: q[x].curState == NOT_YET_INSERTED)
    requires forall x | s <= x < s + k :: q[x].curState == INSERTED && q[x].endState == INSERTED
    ensures CursorAt(before + q + after, |Visible(before)| + k) == Some(|before| + s + k)
  {
    hide Visible, CursorAt;
    OwnVisible(q, s, s + k);
    MidPrefix(before, q, after, s + k);
    VisibleConcat(before, q[..s + k]);
    CursorIs(before + q + after, |Visible(before)| + k, |before| + s + k);
  }

  /** What an author sees of the runs: none of the earlier ones, and what there is of the own one. */
  lemma {:induction false} OwnItems<T>(before: seq<Item>, q: seq<Item>, after: seq<Item>, runs: seq<TypedRun<T>>, cs: seq<nat>, i: nat, left: int, right: int)
    requires CountsFit(runs, cs) && i < |runs| && MidView(before, q, after, runs, cs, i, left, right)
    ensures var s := Offset(cs, i);
            && |cs| == |runs| && s + cs[i] <= |q| && (before != [] ==> before[|before| - 1].curState == INSERTED)
            && (forall x | 0 <= x < s :: q[x].curState == NOT_YET_INSERTED)
            && forall x | s <= x < s + cs[i] :: q[x].curState == INSERTED && q[x].endState == INSERTED
  {
    OffsetMonotone(cs, i + 1, |cs|);
    OffsetNext(cs, i);
  }

  lemma {:induction false} StartsWith(before: seq<Item>, q: seq<Item>, after: seq<Item>)
    ensures (before + q + after)[..|before|] == before
    ensures before != [] ==> (before + q + after)[|before| - 1] == before[|before| - 1]
  {
  }

  /** The new item is placed like every other item of its run. */
  lemma {:induction false} NewItemMid<T>(before: seq<Item>, q: seq<Item>, after: seq<Item>, runs: seq<TypedRun<T>>, cs: seq<nat>, i: nat, left: int, right: int)
    requires CountsFit(runs, cs) && i < |runs| && MidView(before, q, after, runs, cs, i, left, right)
    requires cs[i] < |runs[i].lvs|
    requires cs[i] > 0 && after != [] ==> after[0].originLeft != runs[i].lvs[cs[i] - 1]
    ensures CursorIdx(before, cs, i) <= |before + q + after|
    ensures var item := NewItem(before + q + after, CursorIdx(before, cs, i), runs[i].lvs[cs[i]]);
            Placed(item.opId, item.originLeft, item.rightParent) == RunPlaced(runs[i], cs[i], left, right)
  {
    hide AllRuns, Visible;
    var items, c := before + q + after, CursorIdx(before, cs, i);
    var s, k := Offset(cs, i), cs[i];
    OffsetMonotone(cs, i + 1, |cs|);
    forall x | c <= x < |before| + |q|
      ensures items[x].curState == NOT_YET_INSERTED
    {
      assert items[x] == q[x - |before|];
    }
    if after != [] {
      assert items[|before| + |q|] == after[0];
    }
    NextSettledIs(items, c, |before| + |q|);
    if k == 0 {
      if before != [] { assert items[c - 1] == before[c - 1]; }
    } else {
      assert items[c - 1] == q[s + k - 1];
      AllRunsAt(runs, cs, left, right, i, k - 1);
    }
  }

  /** An item of a smaller run: its head has the origins of the new item, the others hang off the run. */
  ghost predicate Passed(items: seq<Item>, ids: seq<RawVersion>, newId: nat, left: int, right: int, start: nat, x: nat)
    requires x < |items| && newId < |ids|
  {
    && items[x].curState == NOT_YET_INSERTED && items[x].opId != right && items[x].opId < |ids|
    && ((items[x].originLeft == left && items[x].rightParent == right && !RawLess(ids[newId], ids[items[x].opId]))
        || (exists y :: start <= y < x && items[y].opId == items[x].originLeft))
  }

  /** The head of a larger run. */
  ghost predicate Blocks(items: seq<Item>, ids: seq<RawVersion>, newId: nat, left: int, right: int, x: nat)
    requires x < |items| && newId < |ids|
  {
    && items[x].opId != right && items[x].opId < |ids|
    && items[x].originLeft == left && items[x].rightParent == right && RawLess(ids[newId], ids[items[x].opId])
  }

  /** The place between `before` and `right` where an insert is integrated. */
  ghost predicate Gap(items: seq<Item>, left: int, right: int, start: nat, rightIdx: nat) {
    && start <= |items| && DistinctIds(items)
    && left == (if start == 0 then -1 else items[start - 1].opId)
    && (right == -1 || HasId(items, right))
    && rightIdx == (if right == -1 then |items| else FindIdx(items, right))
  }

  lemma {:induction false} DecidePasses(items: seq<Item>, ids: seq<RawVersion>, newId: nat, left: int, right: int, start: nat, rightIdx: nat, x: nat)
    requires Gap(items, left, right, start, rightIdx) && start <= x < |items| && newId < |ids|
    requires Passed(items, ids, newId, left, right, start, x)
    ensures Decide(items, ids, newId, right, start - 1, rightIdx, x, false) == Go(false)
  {
    hide RawLess;
    FindIdxPresent(items, right);
    if start > 0 { FoundAt(items, items[start - 1].opId, start - 1); }
    var other := items[x];
    if !(other.originLeft == left && other.rightParent == right && !RawLess(ids[newId], ids[other.opId])) {
      var y :| start <= y < x && items[y].opId == other.originLeft;
      FoundAt(items, items[y].opId, y);
    }
  }

  lemma {:induction false} ScanPasses(items: seq<Item>, ids: seq<RawVersion>, newId: nat, left: int, right: int, start: nat, rightIdx: nat, x: nat)
    requires Gap(items, left, right, start, rightIdx) && start <= x < |items| && newId < |ids|
    requires Passed(items, ids, newId, left, right, start, x)
    ensures Scan(items, ids, newId, right, start - 1, rightIdx, x, x, false) == Scan(items, ids, newId, right, start - 1, rightIdx, x + 1, x + 1, false)
  {
    hide Decide, Gap, Passed;
    DecidePasses(items, ids, newId, left, right, start, rightIdx, x);
  }

  lemma {:induction false} ScanBlocked(items: seq<Item>, ids: seq<RawVersion>, newId: nat, left: int, right: int, start: nat, rightIdx: nat, x: nat)
    requires Gap(items, left, right, start, rightIdx) && start <= x <= |items| && newId < |ids|
    requires x == |items| || items[x].curState != NOT_YET_INSERTED || Blocks(items, ids, newId, left, right, x)
    ensures Scan(items, ids, newId, right, start - 1, rightIdx, x, x, false) == Some(x)
  {
    FindIdxPresent(items, right);
    if start > 0 { FoundAt(items, items[start - 1].opId, start - 1); }
  }

  /** With every head sharing its origins, the scan passes smaller runs whole and stops at the first larger one. */
  lemma {:induction false} ScanStops(items: seq<Item>, ids: seq<RawVersion>, newId: nat, left: int, right: int, start: nat, rightIdx: nat, x: nat, stop: nat)
    requires Gap(items, left, right, start, rightIdx) && start <= x <= stop <= |items| && newId < |ids|
    requires forall z | x <= z < stop :: Passed(items, ids, newId, left, right, start, z)
    requires stop == |items| || items[stop].curState != NOT_YET_INSERTED || Blocks(items, ids, newId, left, right, stop)
    ensures Scan(items, ids, newId, right, start - 1, rightIdx, x, x, false) == Some(stop)
    decreases stop - x
  {
    hide Scan, Passed, Blocks;
    if x == stop {
      ScanBlocked(items, ids, newId, left, right, start, rightIdx, x);
    } else {
      ScanPasses(items, ids, newId, left, right, start, rightIdx, x);
      ScanStops(items, ids, newId, left, right, start, rightIdx, x + 1, stop);
    }
  }

  /** The first run item after those of runs `0..n-1` is the head of a later run. */
  lemma {:induction false} HeadAfter(cs: seq<nat>, n: nat) returns (i': nat)
    requires n <= |cs| && Offset(cs, n) < Offset(cs, |cs|)
    ensures n <= i' < |cs| && cs[i'] > 0 && Offset(cs, i') == Offset(cs, n)
  {
    var k';
    i', k' := Locate(cs, Offset(cs, n), |cs|);
    if i' < n {
      OffsetMonotone(cs, i' + 1, n);
    } else {
      OffsetMonotone(cs, n, i');
    }
  }

  /** What author `i` sees at the `k'`-th operation of run `i'`. */
  lemma {:induction false} RunItemAt<T>(q: seq<Item>, runs: seq<TypedRun<T>>, cs: seq<nat>, i: nat, left: int, right: int, i': nat, k': nat)
    requires CountsFit(runs, cs) && i < |runs| && RunsSeen(q, runs, cs, i, left, right) && i' < |runs| && k' < cs[i']
    ensures var x := Offset(cs, i') + k';
            && x < |q|
            && Placed(q[x].opId, q[x].originLeft, q[x].rightParent) == RunPlaced(runs[i'], k', left, right)
            && (i' != i ==> q[x].curState == NOT_YET_INSERTED)
  {
    AllRunsAt(runs, cs, left, right, i', k');
    if i' < i { OffsetMonotone(cs, i' + 1, i); }
    if i < i' { OffsetMonotone(cs, i + 1, i'); }
  }

  ghost predicate IntegrateSetting<T>(log: Log<T>, m: nat, pos: nat, before: seq<Item>, q: seq<Item>, after: seq<Item>,
                                      runs: seq<TypedRun<T>>, cs: seq<nat>, i: nat, left: int, right: int)
    requires CountsFit(runs, cs) && i < |runs|
  {
    && RunsLog(log, m, pos, runs) && MidView(before, q, after, runs, cs, i, left, right)
    && DistinctIds(before + q + after) && cs[i] < |runs[i].lvs|
  }

  lemma {:induction false} RunIds<T>(log: Log<T>, m: nat, pos: nat, runs: seq<TypedRun<T>>, i: nat, k: nat)
    requires RunsLog(log, m, pos, runs) && i < |runs| && k < |runs[i].lvs|
    ensures m <= runs[i].lvs[k] < |log.ids| && log.ids[runs[i].lvs[0]] == runs[i].head
    ensures forall j | 0 <= j < i :: RawLess(runs[j].head, runs[i].head) && !RawLess(runs[i].head, runs[j].head)
  {
    hide Hist;
    assert IsRun(log, m, pos, runs[i]);
    forall j | 0 <= j < i
      ensures RawLess(runs[j].head, runs[i].head) && !RawLess(runs[i].head, runs[j].head)
    {
      RawLessTotal(runs[j].head, runs[i].head);
    }
  }

  lemma {:induction false} GapMid<T>(log: Log<T>, m: nat, pos: nat, before: seq<Item>, q: seq<Item>, after: seq<Item>,
                                     runs: seq<TypedRun<T>>, cs: seq<nat>, i: nat, left: int, right: int)
    requires CountsFit(runs, cs) && i < |runs| && IntegrateSetting(log, m, pos, before, q, after, runs, cs, i, left, right)
    ensures var items := before + q + after;
            Gap(items, left, right, |before|, if right == -1 then |items| else FindIdx(items, right))
    ensures forall x | 0 <= x < |q| :: (before + q + after)[|before| + x] == q[x] && q[x].opId != right
  {
    hide AllRuns, RunsLog;
    var items := before + q + after;
    if right != -1 {
      assert items[|before| + |q|] == after[0];
      assert HasId(items, right);
    }
    forall x | 0 <= x < |q|
      ensures items[|before| + x] == q[x] && q[x].opId != right
    {
      if right != -1 { assert items[|before| + x].opId != items[|before| + |q|].opId; }
    }
  }

  /** The first operation of a run is integrated after all smaller runs and before all larger ones. */
  lemma {:induction false} IntegrateHead<T>(log: Log<T>, m: nat, pos: nat, before: seq<Item>, q: seq<Item>, after: seq<Item>,
                                            runs: seq<TypedRun<T>>, cs: seq<nat>, i: nat, left: int, right: int)
    requires CountsFit(runs, cs) && i < |runs| && IntegrateSetting(log, m, pos, before, q, after, runs, cs, i, left, right) && cs[i] == 0
    ensures runs[i].lvs[0] < |log.ids|
    ensures Integrate(before + q + after, log.ids, runs[i].lvs[0], right, |before|) == Some(|before| + Offset(cs, i))
  {
    hide AllRuns, RunsLog, Scan, Visible, Gap, Passed, Blocks, RunsSeen, DistinctIds;
    var items, start, stop := before + q + after, |before|, |before| + Offset(cs, i);
    var newId, rightIdx := runs[i].lvs[0], if right == -1 then |items| else FindIdx(items, right);
    RunIds(log, m, pos, runs, i, 0);
    GapMid(log, m, pos, before, q, after, runs, cs, i, left, right);
    GapFinds(items, left, right, start, rightIdx);
    OffsetMonotone(cs, i, |cs|);
    SeenLength(q, runs, cs, i, left, right);
    forall z | start <= z < stop
      ensures Passed(items, log.ids, newId, left, right, start, z)
    {
      PassedMid(log, m, pos, before, q, after, runs, cs, i, left, right, z - start);
    }
    if stop < |items| && items[stop].curState == NOT_YET_INSERTED {
      BlocksMid(log, m, pos, before, q, after, runs, cs, i, left, right);
    }
    ScanStops(items, log.ids, newId, left, right, start, rightIdx, start, stop);
    if start < |items| && items[start].curState != NOT_YET_INSERTED {
      FirstSettled(log, m, pos, before, q, after, runs, cs, i, left, right);
    }
  }

  lemma {:induction false} SeenLength<T>(q: seq<Item>, runs: seq<TypedRun<T>>, cs: seq<nat>, i: nat, left: int, right: int)
    requires CountsFit(runs, cs) && i < |runs| && RunsSeen(q, runs, cs, i, left, right)
    ensures |q| == Offset(cs, |cs|)
  {
  }

  lemma {:induction false} GapFinds(items: seq<Item>, left: int, right: int, start: nat, rightIdx: nat)
    requires Gap(items, left, right, start, rightIdx)
    ensures right != -1 ==> rightIdx < |items|
  {
    FindIdxPresent(items, right);
  }

  lemma {:induction false} PassedMid<T>(log: Log<T>, m: nat, pos: nat, before: seq<Item>, q: seq<Item>, after: seq<Item>,
                                        runs: seq<TypedRun<T>>, cs: seq<nat>, i: nat, left: int, right: int, x: nat)
    requires CountsFit(runs, cs) && i < |runs| && IntegrateSetting(log, m, pos, before, q, after, runs, cs, i, left, right)
    requires x < Offset(cs, i) <= |q| && runs[i].lvs[0] < |log.ids|
    ensures Passed(before + q + after, log.ids, runs[i].lvs[0], left, right, |before|, |before| + x)
  {
    hide AllRuns, RunsLog, DistinctIds, RunsSeen, Offset, Gap, FindIdx;
    var items := before + q + after;
    var i', k' := Locate(cs, x, i);
    RunItemAt(q, runs, cs, i, left, right, i', k');
    GapMid(log, m, pos, before, q, after, runs, cs, i, left, right);
    RunIds(log, m, pos, runs, i', k');
    RunIds(log, m, pos, runs, i, 0);
    if k' > 0 {
      RunItemAt(q, runs, cs, i, left, right, i', k' - 1);
      assert items[|before| + x - 1].opId == items[|before| + x].originLeft;
    }
  }

  lemma {:induction false} MiddleItem(before: seq<Item>, q: seq<Item>, after: seq<Item>)
    ensures q != [] ==> (before + q + after)[|before|] == q[0]
  {
  }

  lemma {:induction false} AfterItem(before: seq<Item>, q: seq<Item>, after: seq<Item>)
    ensures after != [] ==> (before + q + after)[|before| + |q|] == after[0]
  {
  }

  lemma {:induction false} BlocksMid<T>(log: Log<T>, m: nat, pos: nat, before: seq<Item>, q: seq<Item>, after: seq<Item>,
                                        runs: seq<TypedRun<T>>, cs: seq<nat>, i: nat, left: int, right: int)
    requires CountsFit(runs, cs) && i < |runs| && IntegrateSetting(log, m, pos, before, q, after, runs, cs, i, left, right) && cs[i] == 0
    requires Offset(cs, i) <= |q| == Offset(cs, |cs|) && runs[i].lvs[0] < |log.ids|
    requires |before| + Offset(cs, i) < |before + q + after| && (before + q + after)[|before| + Offset(cs, i)].curState == NOT_YET_INSERTED
    ensures Blocks(before + q + after, log.ids, runs[i].lvs[0], left, right, |before| + Offset(cs, i))
  {
    hide AllRuns, RunsLog, DistinctIds, RunsSeen;
    if Offset(cs, i) < |q| {
      var i' := HeadAfter(cs, i);
      RunItemAt(q, runs, cs, i, left, right, i', 0);
      GapMid(log, m, pos, before, q, after, runs, cs, i, left, right);
      RunIds(log, m, pos, runs, i', 0);
      RunIds(log, m, pos, runs, i, 0);
    } else {
      AfterItem(before, q, after);
      assert false;
    }
  }

  lemma {:induction false} FirstSettled<T>(log: Log<T>, m: nat, pos: nat, before: seq<Item>, q: seq<Item>, after: seq<Item>,
                                           runs: seq<TypedRun<T>>, cs: seq<nat>, i: nat, left: int, right: int)
    requires CountsFit(runs, cs) && i < |runs| && IntegrateSetting(log, m, pos, before, q, after, runs, cs, i, left, right) && cs[i] == 0
    requires |before| < |before + q + after| && (before + q + after)[|before|].curState != NOT_YET_INSERTED
    ensures Offset(cs, i) == 0
  {
    hide AllRuns, RunsLog, DistinctIds;
    if Offset(cs, i) > 0 {
      OffsetMonotone(cs, i, |cs|);
      MiddleItem(before, q, after);
    }
  }

  /** A later operation of a run is integrated right after its predecessor, whatever has been replayed of the others. */
  lemma {:induction false} IntegrateFollower<T>(log: Log<T>, m: nat, pos: nat, before: seq<Item>, q: seq<Item>, after: seq<Item>,
                                                runs: seq<TypedRun<T>>, cs: seq<nat>, i: nat, left: int, right: int)
    requires CountsFit(runs, cs) && i < |runs| && IntegrateSetting(log, m, pos, before, q, after, runs, cs, i, left, right) && cs[i] > 0
    ensures runs[i].lvs[cs[i]] < |log.ids| && CursorIdx(before, cs, i) <= |before + q + after|
    ensures Integrate(before + q + after, log.ids, runs[i].lvs[cs[i]], -1, CursorIdx(before, cs, i)) == Some(CursorIdx(before, cs, i))
  {
    hide AllRuns, RunsLog, Visible, RunsSeen, DistinctIds;
    var items, c := before + q + after, CursorIdx(before, cs, i);
    RunIds(log, m, pos, runs, i, cs[i]);
    SeenLength(q, runs, cs, i, left, right);
    OffsetMonotone(cs, i + 1, |cs|);
    if c < |items| && items[c].curState == NOT_YET_INSERTED {
      if c < |before| + |q| {
        var i' := HeadAfter(cs, i + 1);
        RunItemAt(q, runs, cs, i, left, right, i', 0);
        assert items[c] == q[c - |before|];
        if before != [] {
          assert items[|before| - 1].opId == left;
          FoundAt(items, before[|before| - 1].opId, |before| - 1);
        }
      } else {
        AfterItem(before, q, after);
        assert false;
      }
    }
  }

  // ---- The whole replay ----

  lemma {:induction false} MidDistinct<T>(log: Log<T>, base: set<nat>, done: set<nat>, doc: Doc, v: set<nat>)
    requires Replayed(log, base, done, doc)
    ensures DistinctIds(ViewAt(doc, v))
  {
    ViewDistinct(doc, v);
  }

  /** The view of author `i` has the shape the placement lemmas ask for. */
  lemma {:induction false} MidSetting<T>(log: Log<T>, m: nat, pos: nat, runs: seq<TypedRun<T>>, b: Doc, j: nat, cs: seq<nat>, i: nat, done: set<nat>)
    requires Setting(log, m, pos, runs, b, j) && CountsFit(runs, cs) && i < |runs| && cs[i] < |runs[i].lvs|
    requires Replayed(log, {}, done, MidDoc(b, j, runs, cs))
    ensures var q := RunsView(b, j, runs, cs, SeenBy(m, runs[i], cs[i]));
            var before, after := BaseView(b, m)[..j], BaseView(b, m)[j..];
            && ViewAt(MidDoc(b, j, runs, cs), SeenBy(m, runs[i], cs[i])) == before + q + after
            && IntegrateSetting(log, m, pos, before, q, after, runs, cs, i, LeftId(b, j), RightId(b, j))
            && |Visible(before)| == pos
            && (after != [] ==> after[0].originLeft < m)
  {
    hide AllRuns, RunsLog, Visible, RunsSeen, DistinctIds, StateAt, EndState, MidDoc, OrderMatches, TargetsMatch, DistinctOrder, Closed, Hist;
    ViewMid(log, m, pos, runs, b, j, cs, i);
    ViewRuns(log, m, pos, runs, b, j, cs, i);
    MidDistinct(log, {}, done, MidDoc(b, j, runs, cs), SeenBy(m, runs[i], cs[i]));
    if j < |b.order| && b.order[j].originLeft != -1 {
      var x :| 0 <= x < |b.order| && x < j && b.order[x].opId == b.order[j].originLeft;
    }
  }

  /** Replaying the next operation of run `i` appends it to that run and touches nothing else. */
  lemma {:induction false} StepMid<T>(log: Log<T>, m: nat, pos: nat, runs: seq<TypedRun<T>>, b: Doc, j: nat, cs: seq<nat>, i: nat, done: set<nat>)
    requires Setting(log, m, pos, runs, b, j) && CountsFit(runs, cs) && i < |runs| && cs[i] < |runs[i].lvs|
    requires Replayed(log, {}, done, MidDoc(b, j, runs, cs))
    ensures var lv := runs[i].lvs[cs[i]];
            && lv < |log.ops| && InGraph(log.g, log.g[lv]) && CountsFit(runs, cs[i := cs[i] + 1])
            && DocApply(log, MidDoc(b, j, runs, cs), lv).Some?
            && DocApply(log, MidDoc(b, j, runs, cs), lv).value.0 == MidDoc(b, j, runs, cs[i := cs[i] + 1])
            && InRealRange(log, MidDoc(b, j, runs, cs), 0, lv)
  {
    hide AllRuns, Visible, RunsSeen, DistinctIds, StateAt, EndState, Hist, Replayed, SeenBy, Offset, Scan, Integrate, ViewAt, Strip, WithItem, OrderWith, MidView, RunPlaced, NewItem, IntegrateSetting, CursorAt, BaseView, RunsView, IsRun, RunsLog;
    var lv, k, v := runs[i].lvs[cs[i]], cs[i], SeenBy(m, runs[i], cs[i]);
    var left, right := LeftId(b, j), RightId(b, j);
    var q := RunsView(b, j, runs, cs, v);
    var before, after := BaseView(b, m)[..j], BaseView(b, m)[j..];
    var doc, items := MidDoc(b, j, runs, cs), before + q + after;
    StepOp(log, m, pos, runs, i, k);
    MidSetting(log, m, pos, runs, b, j, cs, i, done);
    AllRunsGrow(runs, cs, left, right, i);
    StepPlace(log, m, pos, before, q, after, runs, cs, i, left, right);
    var item := NewItem(items, CursorIdx(before, cs, i), lv);
    var at := |before| + Offset(cs, i) + k;
    assert Apply1(log, Ctx(items, doc.targets), lv) == Some(Applied(Ctx(WithItem(items, at, item), doc.targets), Put(|EndVisible(items[..at])|, runs[i].content[k])));
    StripView(doc, v);
    StripWithItem(items, at, item);
    MidGrows(b, j, runs, cs, i);
  }

  lemma {:induction false} StepOp<T>(log: Log<T>, m: nat, pos: nat, runs: seq<TypedRun<T>>, i: nat, k: nat)
    requires RunsLog(log, m, pos, runs) && i < |runs| && k < |runs[i].lvs|
    ensures var lv := runs[i].lvs[k];
            && |runs[i].content| == |runs[i].lvs| && m <= lv < |log.g| == |log.ops| == |log.ids|
            && log.ops[lv] == Ins(pos + k, runs[i].content[k])
            && InGraph(log.g, log.g[lv]) && Hist(log.g, log.g[lv]) == SeenBy(m, runs[i], k)
  {
    assert IsRun(log, m, pos, runs[i]);
    RunHist(log, m, pos, runs[i], k);
  }

  /** Cursor, origins and place of the next operation of run `i`. */
  lemma {:induction false} StepPlace<T>(log: Log<T>, m: nat, pos: nat, before: seq<Item>, q: seq<Item>, after: seq<Item>,
                                        runs: seq<TypedRun<T>>, cs: seq<nat>, i: nat, left: int, right: int)
    requires CountsFit(runs, cs) && i < |runs| && IntegrateSetting(log, m, pos, before, q, after, runs, cs, i, left, right)
    requires |Visible(before)| == pos && (after != [] ==> after[0].originLeft < m)
    ensures var lv, k := runs[i].lvs[cs[i]], cs[i];
            var items, c := before + q + after, CursorIdx(before, cs, i);
            && lv < |log.ids| && c <= |items| && CursorAt(items, pos + k) == Some(c)
            && var item := NewItem(items, c, lv);
               && Placed(item.opId, item.originLeft, item.rightParent) == RunPlaced(runs[i], k, left, right)
               && Integrate(items, log.ids, lv, item.rightParent, c) == Some(|before| + Offset(cs, i) + k)
               && |before| + Offset(cs, i) + k <= |items|
  {
    hide AllRuns, Visible, RunsSeen, DistinctIds, Scan, Integrate, CursorAt, RunsLog;
    var items, c := before + q + after, CursorIdx(before, cs, i);
    RunIds(log, m, pos, runs, i, cs[i]);
    CursorMid(before, q, after, runs, cs, i, left, right);
    if cs[i] > 0 {
      RunIds(log, m, pos, runs, i, cs[i] - 1);
    }
    NewItemMid(before, q, after, runs, cs, i, left, right);
    if cs[i] == 0 {
      IntegrateHead(log, m, pos, before, q, after, runs, cs, i, left, right);
    } else {
      IntegrateFollower(log, m, pos, before, q, after, runs, cs, i, left, right);
    }
    SeenLength(q, runs, cs, i, left, right);
    OffsetMonotone(cs, i + 1, |cs|);
  }

  lemma {:induction false} MidGrows<T>(b: Doc, j: nat, runs: seq<TypedRun<T>>, cs: seq<nat>, i: nat)
    requires j <= |b.order| && CountsFit(runs, cs) && i < |runs| && cs[i] < |runs[i].lvs|
    ensures CountsFit(runs, cs[i := cs[i] + 1]) && j + Offset(cs, i) + cs[i] <= |MidDoc(b, j, runs, cs).order|
    ensures MidDoc(b, j, runs, cs[i := cs[i] + 1]) ==
            Doc(OrderWith(MidDoc(b, j, runs, cs).order, j + Offset(cs, i) + cs[i], RunPlaced(runs[i], cs[i], LeftId(b, j), RightId(b, j))), b.targets)
  {
    hide AllRuns, OrderWith, RunPlaced;
    var left, right := LeftId(b, j), RightId(b, j);
    var all, p := AllRuns(runs, cs, left, right), RunPlaced(runs[i], cs[i], left, right);
    AllRunsGrow(runs, cs, left, right, i);
    OrderWithConcat(all, b.order[j..], Offset(cs, i) + cs[i], p);
    OrderWithConcat(all + b.order[j..], b.order[..j], Offset(cs, i) + cs[i], p);
    assert b.order[..j] + all + b.order[j..] == b.order[..j] + (all + b.order[j..]);
    assert b.order[..j] + (OrderWith(all, Offset(cs, i) + cs[i], p) + b.order[j..]) == b.order[..j] + OrderWith(all, Offset(cs, i) + cs[i], p) + b.order[j..];
  }

  lemma {:induction false} CountsStart<T>(log: Log<T>, m: nat, pos: nat, runs: seq<TypedRun<T>>, n: nat)
    requires RunsLog(log, m, pos, runs)
    ensures CountsFit(runs, Counts(runs, n))
    ensures forall i | 0 <= i < |runs| :: Counts(runs, m)[i] == 0
    ensures forall i | 0 <= i < |runs| :: Counts(runs, |log.g|)[i] == |runs[i].lvs|
  {
    hide Hist;
    forall i | 0 <= i < |runs|
      ensures Counts(runs, m)[i] == 0 && Counts(runs, |log.g|)[i] == |runs[i].lvs|
    {
      assert IsRun(log, m, pos, runs[i]);
      TakenPrefix(runs[i].lvs, m);
      TakenPrefix(runs[i].lvs, |log.g|);
    }
  }

  /** Version `n` is the next operation of exactly one run. */
  lemma {:induction false} CountsNext<T>(log: Log<T>, m: nat, pos: nat, runs: seq<TypedRun<T>>, n: nat) returns (i: nat)
    requires RunsLog(log, m, pos, runs) && m <= n < |log.g|
    ensures i < |runs| && CountsFit(runs, Counts(runs, n))
    ensures var cs := Counts(runs, n);
            cs[i] < |runs[i].lvs| && runs[i].lvs[cs[i]] == n && Counts(runs, n + 1) == cs[i := cs[i] + 1]
  {
    hide Hist, Taken, IsRun, RunsLog, RawLess;
    i := RunOf(log, m, pos, runs, n);
    RunAscends(log, m, pos, runs, i);
    var k :| 0 <= k < |runs[i].lvs| && runs[i].lvs[k] == n;
    TakenOwn(runs[i].lvs, n, k);
    forall i' | 0 <= i' < |runs| && i' != i
      ensures Taken(runs[i'].lvs, n + 1) == Taken(runs[i'].lvs, n)
    {
      RunAscends(log, m, pos, runs, i');
      RunsDisjoint(log, m, pos, runs, i, i', n);
      TakenOther(runs[i'].lvs, n);
    }
    assert Counts(runs, n + 1) == Counts(runs, n)[i := k + 1];
  }

  lemma {:induction false} RunOf<T>(log: Log<T>, m: nat, pos: nat, runs: seq<TypedRun<T>>, n: nat) returns (i: nat)
    requires RunsLog(log, m, pos, runs) && m <= n < |log.g|
    ensures i < |runs| && n in runs[i].lvs
  {
    assert InSomeRun(runs, n);
    i :| 0 <= i < |runs| && n in runs[i].lvs;
  }

  lemma {:induction false} RunAscends<T>(log: Log<T>, m: nat, pos: nat, runs: seq<TypedRun<T>>, i: nat)
    requires RunsLog(log, m, pos, runs) && i < |runs|
    ensures forall k, l | 0 <= k < l < |runs[i].lvs| :: runs[i].lvs[k] < runs[i].lvs[l]
  {
    assert IsRun(log, m, pos, runs[i]);
  }

  lemma {:induction false} RunsDisjoint<T>(log: Log<T>, m: nat, pos: nat, runs: seq<TypedRun<T>>, i: nat, i': nat, lv: nat)
    requires RunsLog(log, m, pos, runs) && i < |runs| && i' < |runs| && i != i' && lv in runs[i].lvs
    ensures lv !in runs[i'].lvs
  {
  }

  lemma {:induction false} TakenOwn(lvs: seq<nat>, n: nat, k: nat)
    requires forall k, l | 0 <= k < l < |lvs| :: lvs[k] < lvs[l]
    requires k < |lvs| && lvs[k] == n
    ensures Taken(lvs, n) == k && Taken(lvs, n + 1) == k + 1
  {
    TakenIs(lvs, n, k);
    TakenIs(lvs, n + 1, k + 1);
  }

  lemma {:induction false} TakenOther(lvs: seq<nat>, n: nat)
    requires forall k, l | 0 <= k < l < |lvs| :: lvs[k] < lvs[l]
    requires n !in lvs
    ensures Taken(lvs, n + 1) == Taken(lvs, n)
  {
    TakenPrefix(lvs, n);
    forall l | 0 <= l < |lvs| ensures lvs[l] != n {
      assert lvs[l] in lvs;
    }
    TakenIs(lvs, n + 1, Taken(lvs, n));
  }

  lemma {:induction false} TakenIs(lvs: seq<nat>, n: nat, c: nat)
    requires forall k, l | 0 <= k < l < |lvs| :: lvs[k] < lvs[l]
    requires c <= |lvs| && forall k | 0 <= k < |lvs| :: k < c <==> lvs[k] < n
    ensures Taken(lvs, n) == c
  {
    TakenPrefix(lvs, n);
    var t := Taken(lvs, n);
    assert t < |lvs| ==> (lvs[t] < n <==> t < c);
    assert c < |lvs| ==> (lvs[c] < n <==> c < t);
  }

  lemma {:induction false} AllRunsEmpty<T>(runs: seq<TypedRun<T>>, cs: seq<nat>, left: int, right: int)
    requires CountsFit(runs, cs) && forall i | 0 <= i < |runs| :: cs[i] == 0
    ensures AllRuns(runs, cs, left, right) == []
  {
    if runs != [] {
      AllRunsEmpty(runs[..|runs| - 1], cs[..|runs| - 1], left, right);
    }
  }

  /** However the runs are interleaved, the replay has each run's items together, run after run. */
  lemma {:induction false} ReplayRuns<T>(log: Log<T>, m: nat, pos: nat, runs: seq<TypedRun<T>>, b: Outcome<T>, j: nat, n: nat)
    requires Setting(log, m, pos, runs, b.doc, j) && ValidLog(log) && m <= n <= |log.g|
    requires ReplayRange(log, EMPTY_DOC, [], 0, m) == Some(b)
    ensures CountsFit(runs, Counts(runs, n))
    ensures ReplayRange(log, EMPTY_DOC, [], 0, n).Some?
    ensures ReplayRange(log, EMPTY_DOC, [], 0, n).value.doc == MidDoc(b.doc, j, runs, Counts(runs, n))
    decreases n
  {
    hide AllRuns, Visible, Hist, Replayed, DocApply, InRealRange, RunsLog, IsRun, Counts, WellFormed, Ready, Setting, ValidLog;
    SettingValid(log, m, pos, runs, b.doc, j);
    CountsStart(log, m, pos, runs, n);
    if n == m {
      AllRunsEmpty(runs, Counts(runs, m), LeftId(b.doc, j), RightId(b.doc, j));
      assert b.doc.order[..j] + [] + b.doc.order[j..] == b.doc.order;
    } else {
      ReplayRuns(log, m, pos, runs, b, j, n - 1);
      var i := CountsNext(log, m, pos, runs, n - 1);
      EmptyReplayed(log);
      ReadyPart(log, n - 1);
      RangeKeeps(log, {}, {}, EMPTY_DOC, [], 0, n - 1);
      StepMid(log, m, pos, runs, b.doc, j, Counts(runs, n - 1), i, {} + Range(0, n - 1));
    }
  }

  lemma {:induction false} SettingValid<T>(log: Log<T>, m: nat, pos: nat, runs: seq<TypedRun<T>>, b: Doc, j: nat)
    requires Setting(log, m, pos, runs, b, j)
    ensures RunsLog(log, m, pos, runs) && j <= |b.order| && Replayed(log, {}, Range(0, m), b)
  {
  }

  lemma {:induction false} ReadyPart<T>(log: Log<T>, n: nat)
    requires ValidLog(log) && n <= |log.g|
    ensures Ready(log, {}, {}, 0, n)
  {
  }

  // ---- The text ----

  function JoinLvs<T>(runs: seq<TypedRun<T>>): seq<nat> {
    if runs == [] then [] else JoinLvs(runs[..|runs| - 1]) + runs[|runs| - 1].lvs
  }

  lemma {:induction false} AllSurvive(items: seq<Item>)
    requires forall x | 0 <= x < |items| :: items[x].endState == INSERTED
    ensures |EndVisible(items)| == |items| && forall x | 0 <= x < |items| :: EndVisible(items)[x] == items[x].opId
  {
    if items != [] {
      AllSurvive(items[..|items| - 1]);
    }
  }

  lemma {:induction false} RunsSurvive<T>(runs: seq<TypedRun<T>>, cs: seq<nat>, left: int, right: int, targets: map<nat, nat>)
    requires CountsFit(runs, cs) && forall i | 0 <= i < |runs| :: cs[i] == |runs[i].lvs|
    requires forall i, k | 0 <= i < |runs| && 0 <= k < |runs[i].lvs| :: EndState(targets, runs[i].lvs[k]) == INSERTED
    ensures EndVisible(ViewAt(Doc(AllRuns(runs, cs, left, right), targets), {})) == JoinLvs(runs)
  {
    hide EndState, StateAt, RunPlaced;
    if runs != [] {
      var n := |runs| - 1;
      RunsSurvive(runs[..n], cs[..n], left, right, targets);
      var init, last := AllRuns(runs[..n], cs[..n], left, right), RunOrder(runs[n], cs[n], left, right);
      LastSurvives(runs[n], left, right, targets);
      assert init + last + [] == init + last;
      ViewConcat(init, last, [], targets, {});
      VisibleConcat(ViewAt(Doc(init, targets), {}), ViewAt(Doc(last, targets), {}));
      assert ViewAt(Doc(init + last, targets), {}) == ViewAt(Doc(init, targets), {}) + ViewAt(Doc(last, targets), {});
    }
  }

  lemma {:induction false} LastSurvives<T>(run: TypedRun<T>, left: int, right: int, targets: map<nat, nat>)
    requires forall k | 0 <= k < |run.lvs| :: EndState(targets, run.lvs[k]) == INSERTED
    ensures EndVisible(ViewAt(Doc(RunOrder(run, |run.lvs|, left, right), targets), {})) == run.lvs
  {
    AllSurvive(ViewAt(Doc(RunOrder(run, |run.lvs|, left, right), targets), {}));
  }

  lemma {:induction false} JoinKnown<T>(log: Log<T>, runs: seq<TypedRun<T>>)
    requires forall i | 0 <= i < |runs| :: |runs[i].content| == |runs[i].lvs|
    requires forall i, k | 0 <= i < |runs| && 0 <= k < |runs[i].lvs| ::
               runs[i].lvs[k] < |log.ops| && log.ops[runs[i].lvs[k]].Ins? && log.ops[runs[i].lvs[k]].content == runs[i].content[k]
    ensures KnownIds(log, [], JoinLvs(runs)) && Render(log, [], JoinLvs(runs)) == JoinRuns(runs)
  {
    if runs != [] {
      var n := |runs| - 1;
      JoinKnown(log, runs[..n]);
      var init, last := JoinLvs(runs[..n]), runs[n].lvs;
      assert Render(log, [], last) == runs[n].content;
      RenderConcat(log, init, last);
    }
  }

  lemma {:induction false} RenderConcat<T>(log: Log<T>, a: seq<nat>, b: seq<nat>)
    requires KnownIds(log, [], a) && KnownIds(log, [], b)
    ensures KnownIds(log, [], a + b) && Render(log, [], a + b) == Render(log, [], a) + Render(log, [], b)
  {
  }

  /** The common text splits at the place where everybody types. */
  lemma {:induction false} BaseSplits<T>(log: Log<T>, m: nat, pos: nat, runs: seq<TypedRun<T>>, b: Doc, j: nat)
    requires Setting(log, m, pos, runs, b, j)
    ensures var ids := EndIds(b);
            && pos <= |ids|
            && EndVisible(ViewAt(Doc(b.order[..j], b.targets), {})) == ids[..pos]
            && EndVisible(ViewAt(Doc(b.order[j..], b.targets), {})) == ids[pos..]
  {
    hide RunsLog, Replayed, Hist, AllRuns, Visible, EndVisible, StateAt;
    var items := BaseView(b, m);
    LatestVisible(log, {}, Range(0, m), b, Range(0, m));
    EndIdsAt(b, Range(0, m));
    forall x | 0 <= x < |items|
      ensures items[x].curState == INSERTED <==> items[x].endState == INSERTED
    {
      LatestState(log, m, b, x);
    }
    SameVisible(items[..j]);
    SameVisible(items[j..]);
    assert items == items[..j] + items[j..];
    VisibleConcat(items[..j], items[j..]);
    EndVisibleSame(items[..j], ViewAt(Doc(b.order[..j], b.targets), {}));
    EndVisibleSame(items[j..], ViewAt(Doc(b.order[j..], b.targets), {}));
  }

  lemma {:induction false} LatestState<T>(log: Log<T>, m: nat, b: Doc, x: nat)
    requires Replayed(log, {}, Range(0, m), b) && x < |b.order| && b.order[x].opId < m
    ensures BaseView(b, m)[x].curState == INSERTED <==> BaseView(b, m)[x].endState == INSERTED
  {
    hide OriginsOrdered, DistinctOrder, OrderMatches, Closed, Hist;
    var id := b.order[x].opId;
    var deletes := DeletesOf(b.targets, Range(0, m), id);
    if exists d :: d in b.targets && b.targets[d] == id {
      var d :| d in b.targets && b.targets[d] == id;
      assert d in deletes;
    } else {
      assert deletes == {};
    }
  }

  lemma {:induction false} MidEndIds<T>(log: Log<T>, m: nat, pos: nat, runs: seq<TypedRun<T>>, b: Doc, j: nat, cs: seq<nat>)
    requires Setting(log, m, pos, runs, b, j) && CountsFit(runs, cs)
    requires forall i | 0 <= i < |runs| :: cs[i] == |runs[i].lvs|
    ensures pos <= |EndIds(b)|
    ensures EndIds(MidDoc(b, j, runs, cs)) == EndIds(b)[..pos] + JoinLvs(runs) + EndIds(b)[pos..]
  {
    hide Replayed, AllRuns, Visible, EndVisible, StateAt, EndState, Hist;
    var left, right := LeftId(b, j), RightId(b, j);
    var all := AllRuns(runs, cs, left, right);
    BaseSplits(log, m, pos, runs, b, j);
    forall i, k | 0 <= i < |runs| && 0 <= k < |runs[i].lvs|
      ensures EndState(b.targets, runs[i].lvs[k]) == INSERTED
    {
      assert IsRun(log, m, pos, runs[i]);
      BaseTargets(log, m, b, runs[i].lvs[k]);
    }
    RunsSurvive(runs, cs, left, right, b.targets);
    ViewConcat(b.order[..j], all, b.order[j..], b.targets, {});
    var p, q, r := ViewAt(Doc(b.order[..j], b.targets), {}), ViewAt(Doc(all, b.targets), {}), ViewAt(Doc(b.order[j..], b.targets), {});
    VisibleConcat(p, q);
    VisibleConcat(p + q, r);
  }

  /** Everything the common history needs: it replays, and `pos` lies inside its text. */
  lemma {:induction false} CommonSetting<T>(log: Log<T>, m: nat, pos: nat, runs: seq<TypedRun<T>>, b: Outcome<T>) returns (j: nat)
    requires ValidLog(log) && m <= |log.g|
    requires RunsLog(log, m, pos, runs) && ReplayRange(log, EMPTY_DOC, [], 0, m) == Some(b) && pos <= |b.text|
    ensures Setting(log, m, pos, runs, b.doc, j)
    ensures KnownIds(log, [], EndIds(b.doc)) && Render(log, [], EndIds(b.doc)) == b.text
  {
    hide Hist, Visible, EndVisible, IsRun, ReplayRange, AllInRange, RunsLog, Replayed, InSync, HasFiller, ValidLog, CursorAt, Ready;
    EmptyReplayed(log);
    ReadyPart(log, m);
    assert {} + Range(0, m) == Range(0, m);
    SucceedsInRange(log, {}, {}, EMPTY_DOC, [], 0, m);
    RangeKeeps(log, {}, {}, EMPTY_DOC, [], 0, m);
    RangeKeepsSync(log, {}, {}, EMPTY_DOC, [], [], 0, 0, m);
    LatestVisible(log, {}, Range(0, m), b.doc, Range(0, m));
    CommonText(log, m, b);
    j := CursorAt(BaseView(b.doc, m), pos).value;
  }

  /** With no placeholders the snapshot is the text of the surviving items, all of them from the common history. */
  lemma {:induction false} CommonText<T>(log: Log<T>, m: nat, b: Outcome<T>)
    requires Replayed(log, {}, Range(0, m), b.doc) && HasFiller<T>([], 0, b.doc) && InSync(log, [], 0, b.doc, b.text)
    ensures forall x | 0 <= x < |b.doc.order| :: b.doc.order[x].opId < m
    ensures KnownIds(log, [], EndIds(b.doc)) && Render(log, [], EndIds(b.doc)) == b.text
  {
  }

  /** Convergence and non-interleaving: however the runs are interleaved in the log, the checkout is the
      common text with every run unbroken at `pos`, one after the other in the order of their IDs. */
  lemma {:induction false} ConcurrentTyping<T>(log: Log<T>, m: nat, pos: nat, runs: seq<TypedRun<T>>, b: Outcome<T>)
    requires RunsLog(log, m, pos, runs) && ReplayRange(log, EMPTY_DOC, [], 0, m) == Some(b) && pos <= |b.text|
    ensures CheckoutOf(log).Some?
    ensures CheckoutOf(log).value.text == b.text[..pos] + JoinRuns(runs) + b.text[pos..]
  {
    hide Hist, Visible, EndVisible, ReplayRange, AllInRange, AllRuns, Replayed, Setting, MidDoc, Counts, EndIds, RunsLog, JoinRuns, JoinLvs, Render, WellFormed;
    RunsValid(log, m, pos, runs);
    var j := CommonSetting(log, m, pos, runs, b);
    ReplayRuns(log, m, pos, runs, b, j, |log.g|);
    CountsStart(log, m, pos, runs, |log.g|);
    MidEndIds(log, m, pos, runs, b.doc, j, Counts(runs, |log.g|));
    CheckoutInSync(log);
    var ids := EndIds(b.doc);
    forall i, k | 0 <= i < |runs| && 0 <= k < |runs[i].lvs|
      ensures |runs[i].content| == |runs[i].lvs| && runs[i].lvs[k] < |log.ops| && log.ops[runs[i].lvs[k]].Ins? && log.ops[runs[i].lvs[k]].content == runs[i].content[k]
    {
      StepOp(log, m, pos, runs, i, k);
    }
    forall i | 0 <= i < |runs| ensures |runs[i].content| == |runs[i].lvs| {
      assert IsRun(log, m, pos, runs[i]);
    }
    JoinKnown(log, runs);
    RenderConcat(log, ids[..pos], JoinLvs(runs));
    RenderConcat(log, ids[..pos] + JoinLvs(runs), ids[pos..]);
    RenderSplit(log, ids, pos);
  }

  lemma {:induction false} RunsValid<T>(log: Log<T>, m: nat, pos: nat, runs: seq<TypedRun<T>>)
    requires RunsLog(log, m, pos, runs)
    ensures ValidLog(log) && m <= |log.g| && forall i | 0 <= i < |runs| :: IsRun(log, m, pos, runs[i])
  {
  }

  lemma {:induction false} RenderSplit<T>(log: Log<T>, ids: seq<nat>, pos: nat)
    requires KnownIds(log, [], ids) && pos <= |ids|
    ensures KnownIds(log, [], ids[..pos]) && Render(log, [], ids[..pos]) == Render(log, [], ids)[..pos]
    ensures KnownIds(log, [], ids[pos..]) && Render(log, [], ids[pos..]) == Render(log, [], ids)[pos..]
  {
  }

  // ---- Two replicas ----

  /** Two logs that agree on their first `m` versions. */
  ghost predicate SamePrefix<T>(log: Log<T>, log': Log<T>, m: nat) {
    && ValidLog(log) && ValidLog(log') && m <= |log.g| && m <= |log'.g|
    && log.ops[..m] == log'.ops[..m] && log.g[..m] == log'.g[..m] && log.ids[..m] == log'.ids[..m]
  }

  lemma {:induction false} PrefixAt<T>(log: Log<T>, log': Log<T>, m: nat, v: nat)
    requires SamePrefix(log, log', m) && v < m
    ensures log.ops[v] == log'.ops[v] && log.g[v] == log'.g[v] && log.ids[v] == log'.ids[v]
  {
    assert log.ops[..m][v] == log'.ops[..m][v] && log.g[..m][v] == log'.g[..m][v] && log.ids[..m][v] == log'.ids[..m][v];
  }

  lemma {:induction false} PrefixReaches<T>(log: Log<T>, log': Log<T>, m: nat, v: nat, x: nat)
    requires SamePrefix(log, log', m) && v < m
    ensures Reaches(log.g, v, x) <==> Reaches(log'.g, v, x)
    decreases v
  {
    PrefixAt(log, log', m, v);
    forall p | p in log.g[v]
      ensures Reaches(log.g, p, x) <==> Reaches(log'.g, p, x)
    {
      PrefixReaches(log, log', m, p, x);
    }
  }

  lemma {:induction false} PrefixHist<T>(log: Log<T>, log': Log<T>, m: nat, v: nat)
    requires SamePrefix(log, log', m) && v < m
    ensures log.g[v] == log'.g[v] && InGraph(log.g, log.g[v]) && InGraph(log'.g, log.g[v])
    ensures Hist(log.g, log.g[v]) == Hist(log'.g, log.g[v])
  {
    PrefixAt(log, log', m, v);
    HistOne(log.g, v);
    HistOne(log'.g, v);
    forall x: nat
      ensures InHist(log.g, log.g[v], x) <==> InHist(log'.g, log.g[v], x)
    {
      forall p | p in log.g[v]
        ensures Reaches(log.g, p, x) <==> Reaches(log'.g, p, x)
      {
        PrefixReaches(log, log', m, p, x);
      }
    }
    forall x | x in Hist(log.g, log.g[v]) ensures x in Hist(log'.g, log.g[v]) {
      InHistBound(log'.g, log.g[v], x);
    }
    forall x | x in Hist(log'.g, log.g[v]) ensures x in Hist(log.g, log.g[v]) {
      InHistBound(log.g, log.g[v], x);
    }
  }

  lemma {:induction false} ScanAgrees(items: seq<Item>, ids: seq<RawVersion>, ids': seq<RawVersion>, m: nat, newId: nat, rightParent: int, leftIdx: int, rightIdx: nat,
                                      scanIdx: nat, cursor: nat, scanning: bool)
    requires cursor <= scanIdx <= |items| && newId < m <= |ids| && m <= |ids'|
    requires forall v | 0 <= v < m :: ids[v] == ids'[v]
    requires forall i | 0 <= i < |items| && items[i].curState == NOT_YET_INSERTED :: items[i].opId < m
    ensures Scan(items, ids, newId, rightParent, leftIdx, rightIdx, scanIdx, cursor, scanning)
         == Scan(items, ids', newId, rightParent, leftIdx, rightIdx, scanIdx, cursor, scanning)
    decreases |items| - scanIdx
  {
    hide RawLess;
    if scanIdx < |items| {
      DecideAgrees(items, ids, ids', m, newId, rightParent, leftIdx, rightIdx, scanIdx, scanning);
      var d := Decide(items, ids, newId, rightParent, leftIdx, rightIdx, scanIdx, scanning);
      if d.Go? {
        ScanAgrees(items, ids, ids', m, newId, rightParent, leftIdx, rightIdx, scanIdx + 1, if d.scanning then cursor else scanIdx + 1, d.scanning);
      }
    }
  }

  lemma {:induction false} DecideAgrees(items: seq<Item>, ids: seq<RawVersion>, ids': seq<RawVersion>, m: nat, newId: nat, rightParent: int, leftIdx: int, rightIdx: nat,
                                        scanIdx: nat, scanning: bool)
    requires scanIdx < |items| && newId < m <= |ids| && m <= |ids'|
    requires forall v | 0 <= v < m :: ids[v] == ids'[v]
    requires forall i | 0 <= i < |items| && items[i].curState == NOT_YET_INSERTED :: items[i].opId < m
    ensures Decide(items, ids, newId, rightParent, leftIdx, rightIdx, scanIdx, scanning)
         == Decide(items, ids', newId, rightParent, leftIdx, rightIdx, scanIdx, scanning)
  {
    hide RawLess;
  }

  /** A replay of the first `n` versions depends on nothing after them. */
  lemma {:induction false} PrefixReplay<T>(log: Log<T>, log': Log<T>, m: nat, n: nat)
    requires SamePrefix(log, log', m) && n <= m
    ensures ReplayRange(log, EMPTY_DOC, [], 0, n) == ReplayRange(log', EMPTY_DOC, [], 0, n)
    decreases n
  {
    hide Hist, Replayed, DocApply, SamePrefix;
    assert ValidLog(log) && ValidLog(log') && m <= |log.g| && m <= |log'.g| by { PrefixValid(log, log', m); }
    if n > 0 {
      PrefixReplay(log, log', m, n - 1);
      if ReplayRange(log, EMPTY_DOC, [], 0, n - 1).Some? {
        var b := ReplayRange(log, EMPTY_DOC, [], 0, n - 1).value;
        EmptyReplayed(log);
        ReadyPart(log, n - 1);
        RangeKeeps(log, {}, {}, EMPTY_DOC, [], 0, n - 1);
        RangeFiller(log, n - 1);
        PrefixApply(log, log', m, b.doc, n - 1);
      }
    }
  }

  lemma {:induction false} PrefixValid<T>(log: Log<T>, log': Log<T>, m: nat)
    requires SamePrefix(log, log', m)
    ensures ValidLog(log) && ValidLog(log') && m <= |log.g| && m <= |log'.g|
  {
  }

  lemma {:induction false} RangeFiller<T>(log: Log<T>, n: nat)
    requires ValidLog(log) && n <= |log.g| && ReplayRange(log, EMPTY_DOC, [], 0, n).Some?
    ensures HasFiller<T>([], 0, ReplayRange(log, EMPTY_DOC, [], 0, n).value.doc)
  {
    hide ReplayRange, AllInRange;
    EmptyReplayed(log);
    ReadyPart(log, n);
    SucceedsInRange(log, {}, {}, EMPTY_DOC, [], 0, n);
    RangeKeepsSync(log, {}, {}, EMPTY_DOC, [], [], 0, 0, n);
  }

  lemma {:induction false} PrefixApply<T>(log: Log<T>, log': Log<T>, m: nat, doc: Doc, lv: nat)
    requires SamePrefix(log, log', m) && lv < m && Replayed(log, {}, {} + Range(0, lv), doc) && HasFiller<T>([], 0, doc)
    ensures InGraph(log.g, log.g[lv]) && InGraph(log'.g, log'.g[lv]) && DocApply(log, doc, lv) == DocApply(log', doc, lv)
  {
    hide Hist, Visible, OriginsOrdered, DistinctOrder, Closed, TargetsMatch, Integrate;
    PrefixAt(log, log', m, lv);
    PrefixHist(log, log', m, lv);
    var items := ViewAt(doc, Hist(log.g, log.g[lv]));
    forall i | 0 <= i < |items| ensures items[i].opId < m {
      assert doc.order[i].opId < PLACEHOLDER_BASE;
    }
    forall v | 0 <= v < m ensures log.ids[v] == log'.ids[v] {
      PrefixAt(log, log', m, v);
    }
    if log.ops[lv].Ins? && CursorAt(items, log.ops[lv].pos).Some? {
      var cursor := CursorAt(items, log.ops[lv].pos).value;
      IntegrateAgrees(items, log.ids, log'.ids, m, lv, NewItem(items, cursor, lv).rightParent, cursor);
    }
  }

  lemma {:induction false} IntegrateAgrees(items: seq<Item>, ids: seq<RawVersion>, ids': seq<RawVersion>, m: nat, newId: nat, rightParent: int, cursor: nat)
    requires cursor <= |items| && newId < m <= |ids| && m <= |ids'|
    requires forall v | 0 <= v < m :: ids[v] == ids'[v]
    requires forall i | 0 <= i < |items| && items[i].curState == NOT_YET_INSERTED :: items[i].opId < m
    ensures Integrate(items, ids, newId, rightParent, cursor) == Integrate(items, ids', newId, rightParent, cursor)
  {
    var rightIdx := if rightParent == -1 then |items| else FindIdx(items, rightParent);
    ScanAgrees(items, ids, ids', m, newId, rightParent, cursor - 1, rightIdx, cursor, cursor, false);
  }

  /** Two replicas that hold the same common history and the same runs, received in any two orders, check out the same text. */
  lemma {:induction false} ReplicasConverge<T>(log: Log<T>, log': Log<T>, m: nat, pos: nat, runs: seq<TypedRun<T>>, runs': seq<TypedRun<T>>, b: Outcome<T>)
    requires SamePrefix(log, log', m)
    requires RunsLog(log, m, pos, runs) && RunsLog(log', m, pos, runs')
    requires |runs| == |runs'| && forall i | 0 <= i < |runs| :: runs[i].head == runs'[i].head && runs[i].content == runs'[i].content
    requires ReplayRange(log, EMPTY_DOC, [], 0, m) == Some(b) && pos <= |b.text|
    ensures CheckoutOf(log).Some? && CheckoutOf(log').Some?
    ensures CheckoutOf(log).value.text == CheckoutOf(log').value.text
  {
    hide RunsLog, ReplayRange;
    PrefixReplay(log, log', m, m);
    ConcurrentTyping(log, m, pos, runs, b);
    ConcurrentTyping(log', m, pos, runs', b);
    SameJoin(runs, runs');
  }

  lemma {:induction false} SameJoin<T>(runs: seq<TypedRun<T>>, runs': seq<TypedRun<T>>)
    requires |runs| == |runs'| && forall i | 0 <= i < |runs| :: runs[i].content == runs'[i].content
    ensures JoinRuns(runs) == JoinRuns(runs')
  {
    if runs != [] {
      SameJoin(runs[..|runs| - 1], runs'[..|runs| - 1]);
    }
  }
}
