/** Two logs that agree on the operations they share, stored in different orders: which versions stand
    for the same operation, and which items and lists of items then correspond. */
module Twins {
  import opened Dag
  import opened RleGraph
  import opened ListLog
  import opened Replay
  import opened TreeOrder
  import opened TreeInsert

  /** Version `x` of one log and version `y` of the other have the same ID. */
  ghost predicate Twin<T>(log: Log<T>, log': Log<T>, x: nat, y: nat) {
    x < |log.ids| && y < |log'.ids| && log.ids[x] == log'.ids[y]
  }

  ghost predicate HasTwin<T>(log: Log<T>, log': Log<T>, x: nat) {
    exists y: nat :: Twin(log, log', x, y)
  }

  /** Every parent of `x` has its twin among the parents of `y`. */
  ghost predicate ParentsThere<T>(log: Log<T>, log': Log<T>, x: nat, y: nat)
    requires x < |log.g| && y < |log'.g|
  {
    forall p | p in log.g[x] :: exists q :: q in log'.g[y] && Twin(log, log', p, q)
  }

  ghost predicate SameOp<T>(log: Log<T>, log': Log<T>, x: nat, y: nat)
    requires x < |log.g| == |log.ops| && y < |log'.g| == |log'.ops|
  {
    log.ops[x] == log'.ops[y] && ParentsThere(log, log', x, y) && ParentsThere(log', log, y, x)
  }

  /** An operation that both logs hold is the same in both, and with it they hold what it builds on. */
  ghost predicate LogsAgree<T>(log: Log<T>, log': Log<T>) {
    && ValidLog(log) && ValidLog(log') && UniqueIds(log) && UniqueIds(log')
    && (forall x: nat, y: nat | Twin(log, log', x, y) :: SameOp(log, log', x, y))
  }

  lemma {:induction false} TwinsOnce<T>(log: Log<T>, log': Log<T>, x: nat, y: nat, x': nat, y': nat)
    requires UniqueIds(log) && UniqueIds(log') && Twin(log, log', x, y) && Twin(log, log', x', y')
    ensures x == x' <==> y == y'
  {
  }

  lemma {:induction false} OtherWay<T>(log: Log<T>, log': Log<T>)
    requires LogsAgree(log, log')
    ensures LogsAgree(log', log)
  {
    hide ParentsThere, UniqueIds, HasTwin;
    forall x: nat, y: nat | Twin(log', log, x, y)
      ensures SameOp(log', log, x, y)
    {
      assert Twin(log, log', y, x);
    }
  }

  lemma {:induction false} TwinOps<T>(log: Log<T>, log': Log<T>, x: nat, y: nat)
    requires LogsAgree(log, log') && Twin(log, log', x, y)
    ensures ValidLog(log) && ValidLog(log') && x < |log.g| && y < |log'.g| && SameOp(log, log', x, y)
  {
  }

  lemma {:induction false} TwinReaches<T>(log: Log<T>, log': Log<T>, x: nat, y: nat, a: nat, b: nat)
    requires LogsAgree(log, log') && Twin(log, log', x, y) && Twin(log, log', a, b) && x < |log.g| && y < |log'.g| && Reaches(log.g, x, a)
    ensures Reaches(log'.g, y, b)
    decreases x
  {
    hide HasTwin;
    if x == a {
      TwinsOnce(log, log', x, y, a, b);
    } else {
      var p :| p in log.g[x] && Reaches(log.g, p, a);
      var q := TwinParent(log, log', x, y, p);
      TwinReaches(log, log', p, q, a, b);
    }
  }

  /** Two sets of versions stand for the same operations. */
  ghost predicate SameSet<T>(log: Log<T>, log': Log<T>, s: set<nat>, s': set<nat>) {
    && (forall x: nat, y: nat | Twin(log, log', x, y) :: x in s <==> y in s')
    && AllTwinned(log, log', s) && AllTwinned(log', log, s')
  }

  ghost predicate AllTwinned<T>(log: Log<T>, log': Log<T>, s: set<nat>) {
    forall x | x in s :: HasTwin(log, log', x)
  }

  /** The twin of a parent. */
  lemma {:induction false} TwinParent<T>(log: Log<T>, log': Log<T>, x: nat, y: nat, p: nat) returns (q: nat)
    requires LogsAgree(log, log') && Twin(log, log', x, y) && x < |log.g| && y < |log'.g| && p in log.g[x]
    ensures q in log'.g[y] && Twin(log, log', p, q) && p < x && q < y
  {
    hide HasTwin, UniqueIds;
    TwinOps(log, log', x, y);
    q :| q in log'.g[y] && Twin(log, log', p, q);
  }

  /** What a shared operation builds on is shared. */
  lemma {:induction false} ReachedTwin<T>(log: Log<T>, log': Log<T>, x: nat, y: nat, a: nat)
    requires LogsAgree(log, log') && Twin(log, log', x, y) && x < |log.g| && y < |log'.g| && Reaches(log.g, x, a)
    ensures HasTwin(log, log', a)
    decreases x
  {
    hide LogsAgree, SameOp;
    TwinOps(log, log', x, y);
    if x != a {
      var p :| p in log.g[x] && Reaches(log.g, p, a);
      var q := TwinParent(log, log', x, y, p);
      ReachedTwin(log, log', p, q, a);
    }
  }

  lemma {:induction false} HistTwinned<T>(log: Log<T>, log': Log<T>, x: nat, y: nat)
    requires LogsAgree(log, log') && Twin(log, log', x, y) && x < |log.g| && y < |log'.g| && InGraph(log.g, log.g[x])
    ensures AllTwinned(log, log', Hist(log.g, log.g[x]))
  {
    hide LogsAgree, SameOp, Twin, HasTwin, Reaches;
    TwinOps(log, log', x, y);
    forall a | a in Hist(log.g, log.g[x])
      ensures HasTwin(log, log', a)
    {
      var p :| p in log.g[x] && Reaches(log.g, p, a);
      var q := TwinParent(log, log', x, y, p);
      ReachedTwin(log, log', p, q, a);
    }
  }

  lemma {:induction false} InHistThere<T>(log: Log<T>, log': Log<T>, x: nat, y: nat, a: nat, b: nat)
    requires LogsAgree(log, log') && Twin(log, log', x, y) && Twin(log, log', a, b) && x < |log.g| && y < |log'.g|
    requires InGraph(log.g, log.g[x]) && InGraph(log'.g, log'.g[y]) && a in Hist(log.g, log.g[x])
    ensures b in Hist(log'.g, log'.g[y])
  {
    hide LogsAgree, SameOp, Reaches, Twin;
    TwinOps(log, log', x, y);
    TwinOps(log, log', a, b);
    var p :| p in log.g[x] && Reaches(log.g, p, a);
    var q := TwinParent(log, log', x, y, p);
    TwinReaches(log, log', p, q, a, b);
  }

  /** The author of an operation has seen the same on both sides. */
  lemma {:induction false} SameHist<T>(log: Log<T>, log': Log<T>, x: nat, y: nat)
    requires LogsAgree(log, log') && Twin(log, log', x, y)
    ensures x < |log.g| && y < |log'.g| && InGraph(log.g, log.g[x]) && InGraph(log'.g, log'.g[y])
    ensures SameSet(log, log', Hist(log.g, log.g[x]), Hist(log'.g, log'.g[y]))
  {
    hide LogsAgree, Hist, SameOp;
    TwinOps(log, log', x, y);
    HistOne(log.g, x);
    HistOne(log'.g, y);
    OtherWay(log, log');
    HistTwinned(log, log', x, y);
    HistTwinned(log', log, y, x);
    forall a: nat, b: nat | Twin(log, log', a, b)
      ensures a in Hist(log.g, log.g[x]) <==> b in Hist(log'.g, log'.g[y])
    {
      if a in Hist(log.g, log.g[x]) { InHistThere(log, log', x, y, a, b); }
      if b in Hist(log'.g, log'.g[y]) {
        assert Twin(log', log, y, x) && Twin(log', log, b, a);
        InHistThere(log', log, y, x, b, a);
      }
    }
  }

  // ---- Trees side by side ----

  /** Two item IDs stand for the same item, or for none. */
  ghost predicate SameRef<T>(log: Log<T>, log': Log<T>, x: int, y: int) {
    (x == -1 && y == -1) || (x >= 0 && y >= 0 && Twin(log, log', x, y))
  }

  ghost predicate SameOrigin<T>(log: Log<T>, log': Log<T>, o: Origins, o': Origins) {
    SameRef(log, log', o.left, o'.left) && SameRef(log, log', o.right, o'.right)
  }

  /** Over the operations `h` the trees say the same. */
  ghost predicate TreesAgree<T>(log: Log<T>, log': Log<T>, t: Tree, t': Tree, h: set<nat>) {
    && (forall x: nat, y: nat | Twin(log, log', x, y) && x in h && x in t :: y in t' && SameOrigin(log, log', t[x], t'[y]))
    && (forall x | x in h && x in t :: (t[x].left == -1 || (t[x].left >= 0 && t[x].left in h)) && (t[x].right == -1 || (t[x].right >= 0 && t[x].right in h)))
  }

  lemma {:induction false} SameRefs<T>(log: Log<T>, log': Log<T>, x: int, y: int, x': int, y': int)
    requires UniqueIds(log) && UniqueIds(log') && SameRef(log, log', x, y) && SameRef(log, log', x', y')
    ensures (x == x' <==> y == y') && (x == -1 <==> y == -1)
  {
    if x >= 0 && x' >= 0 { TwinsOnce(log, log', x, y, x', y'); }
  }

  /** The setting of a comparison: `x1` and `x2` on one side, `y1` and `y2` on the other. */
  ghost predicate Pairs<T>(log: Log<T>, log': Log<T>, t: Tree, t': Tree, h: set<nat>, x1: nat, x2: nat, y1: nat, y2: nat) {
    && UniqueIds(log) && UniqueIds(log') && ValidTree(log.ids, t) && ValidTree(log'.ids, t') && TreesAgree(log, log', t, t', h)
    && Twin(log, log', x1, y1) && Twin(log, log', x2, y2) && x1 in h && x2 in h && x1 in t && x2 in t
  }

  /** The origins of two compared items correspond. */
  lemma {:induction false} PairOrigins<T>(log: Log<T>, log': Log<T>, t: Tree, t': Tree, h: set<nat>, x1: nat, x2: nat, y1: nat, y2: nat)
    requires Pairs(log, log', t, t', h, x1, x2, y1, y2)
    ensures y1 in t' && y2 in t' && (x1 == x2 <==> y1 == y2)
    ensures SameRef(log, log', t[x1].left, t'[y1].left) && SameRef(log, log', t[x2].left, t'[y2].left)
    ensures SameRef(log, log', t[x1].right, t'[y1].right) && SameRef(log, log', t[x2].right, t'[y2].right)
    ensures (t[x1].left == t[x2].left <==> t'[y1].left == t'[y2].left) && (t[x1].right == t[x2].right <==> t'[y1].right == t'[y2].right)
    ensures t[x1].left != -1 ==> t[x1].left in h && 0 <= t[x1].left < x1 && t[x1].left in t && t'[y1].left in t'
    ensures t[x1].right != -1 ==> t[x1].right in h && 0 <= t[x1].right < x1 && t[x1].right in t && t'[y1].right in t'
  {
    hide UniqueIds, Twin;
    TwinsOnce(log, log', x1, y1, x2, y2);
    SameRefs(log, log', t[x1].left, t'[y1].left, t[x2].left, t'[y2].left);
    SameRefs(log, log', t[x1].right, t'[y1].right, t[x2].right, t'[y2].right);
  }

  lemma {:induction false} SwappedPairs<T>(log: Log<T>, log': Log<T>, t: Tree, t': Tree, h: set<nat>, x1: nat, x2: nat, y1: nat, y2: nat)
    requires Pairs(log, log', t, t', h, x1, x2, y1, y2)
    ensures Pairs(log, log', t, t', h, x2, x1, y2, y1)
  {
    hide UniqueIds, Twin, ValidTree, TreesAgree;
  }

  /** A pair with one of the items replaced. */
  lemma {:induction false} OtherPair<T>(log: Log<T>, log': Log<T>, t: Tree, t': Tree, h: set<nat>, x1: nat, x2: nat, y1: nat, y2: nat, x: int, y: int)
    requires Pairs(log, log', t, t', h, x1, x2, y1, y2) && SameRef(log, log', x, y) && x != -1 && x >= 0 && x in h && x in t
    ensures y >= 0 && Pairs(log, log', t, t', h, x1, x, y1, y)
  {
    hide UniqueIds, Twin, ValidTree, TreesAgree;
  }

  lemma {:induction false} TwinLess<T>(log: Log<T>, log': Log<T>, t: Tree, t': Tree, h: set<nat>, x1: nat, x2: nat, y1: nat, y2: nat)
    requires Pairs(log, log', t, t', h, x1, x2, y1, y2)
    ensures y1 in t' && y2 in t' && (TreeLess(log.ids, t, x1, x2) <==> TreeLess(log'.ids, t', y1, y2))
    decreases x1 + x2, 1
  {
    hide UniqueIds, Twin, ValidTree, TreesAgree, RawLess, Pairs, SameRef;
    PairsValid(log, log', t, t', h, x1, x2, y1, y2);
    PairOrigins(log, log', t, t', h, x1, x2, y1, y2);
    SwappedPairs(log, log', t, t', h, x1, x2, y1, y2);
    PairOrigins(log, log', t, t', h, x2, x1, y2, y1);
    if x1 == x2 {
    } else if t[x1].left != t[x2].left {
      TwinLefts(log, log', t, t', h, x1, x2, y1, y2);
    } else if t[x1].right != t[x2].right {
      TwinRights(log, log', t, t', h, x1, x2, y1, y2);
    }
  }

  lemma {:induction false} PairsValid<T>(log: Log<T>, log': Log<T>, t: Tree, t': Tree, h: set<nat>, x1: nat, x2: nat, y1: nat, y2: nat)
    requires Pairs(log, log', t, t', h, x1, x2, y1, y2)
    ensures ValidTree(log.ids, t) && ValidTree(log'.ids, t') && x1 in t && x2 in t && x1 in h && x2 in h
    ensures x1 < |log.ids| && x2 < |log.ids| && y1 < |log'.ids| && y2 < |log'.ids| && log.ids[x1] == log'.ids[y1] && log.ids[x2] == log'.ids[y2]
  {
  }

  lemma {:induction false} TwinLefts<T>(log: Log<T>, log': Log<T>, t: Tree, t': Tree, h: set<nat>, x1: nat, x2: nat, y1: nat, y2: nat)
    requires Pairs(log, log', t, t', h, x1, x2, y1, y2) && x1 != x2 && x1 in t && x2 in t && t[x1].left != t[x2].left
    ensures y1 in t' && y2 in t' && (TreeLess(log.ids, t, x1, x2) <==> TreeLess(log'.ids, t', y1, y2))
    decreases x1 + x2, 0
  {
    hide UniqueIds, Twin, ValidTree, TreesAgree, RawLess, Pairs, SameRef;
    PairsValid(log, log', t, t', h, x1, x2, y1, y2);
    PairOrigins(log, log', t, t', h, x1, x2, y1, y2);
    SwappedPairs(log, log', t, t', h, x1, x2, y1, y2);
    PairOrigins(log, log', t, t', h, x2, x1, y2, y1);
    var a, b, a', b' := t[x1].left, t[x2].left, t'[y1].left, t'[y2].left;
    MinusOnes(log, log', a, a');
    MinusOnes(log, log', b, b');
    if b != -1 {
      OtherPair(log, log', t, t', h, x1, x2, y1, y2, b, b');
      PairOrigins(log, log', t, t', h, x1, b, y1, b');
      TwinLess(log, log', t, t', h, x1, b, y1, b');
    }
    if a != -1 {
      OtherPair(log, log', t, t', h, x2, x1, y2, y1, a, a');
      PairOrigins(log, log', t, t', h, x2, a, y2, a');
      TwinLess(log, log', t, t', h, x2, a, y2, a');
      if b != -1 {
        SwappedPairs(log, log', t, t', h, x2, a, y2, a');
        OtherPair(log, log', t, t', h, a, x2, a', y2, b, b');
        TwinLess(log, log', t, t', h, a, b, a', b');
      }
    }
  }

  lemma {:induction false} MinusOnes<T>(log: Log<T>, log': Log<T>, x: int, y: int)
    requires SameRef(log, log', x, y)
    ensures (x == -1 <==> y == -1) && (x != -1 ==> x >= 0 && y >= 0)
  {
  }

  lemma {:induction false} TwinRights<T>(log: Log<T>, log': Log<T>, t: Tree, t': Tree, h: set<nat>, x1: nat, x2: nat, y1: nat, y2: nat)
    requires Pairs(log, log', t, t', h, x1, x2, y1, y2) && x1 != x2 && x1 in t && x2 in t && t[x1].left == t[x2].left && t[x1].right != t[x2].right
    ensures y1 in t' && y2 in t' && (TreeLess(log.ids, t, x1, x2) <==> TreeLess(log'.ids, t', y1, y2))
    decreases x1 + x2, 0
  {
    hide UniqueIds, Twin, ValidTree, TreesAgree, RawLess, Pairs, SameRef;
    PairsValid(log, log', t, t', h, x1, x2, y1, y2);
    PairOrigins(log, log', t, t', h, x1, x2, y1, y2);
    SwappedPairs(log, log', t, t', h, x1, x2, y1, y2);
    PairOrigins(log, log', t, t', h, x2, x1, y2, y1);
    var a, b, a', b' := t[x1].right, t[x2].right, t'[y1].right, t'[y2].right;
    MinusOnes(log, log', a, a');
    MinusOnes(log, log', b, b');
    if a != -1 {
      OtherPair(log, log', t, t', h, x2, x1, y2, y1, a, a');
      SwappedPairs(log, log', t, t', h, x2, a, y2, a');
      PairOrigins(log, log', t, t', h, a, x2, a', y2);
      TwinLess(log, log', t, t', h, a, x2, a', y2);
      if b != -1 {
        OtherPair(log, log', t, t', h, a, x2, a', y2, b, b');
        TwinLess(log, log', t, t', h, a, b, a', b');
      }
    }
    if b != -1 {
      OtherPair(log, log', t, t', h, x1, x2, y1, y2, b, b');
      SwappedPairs(log, log', t, t', h, x1, b, y1, b');
      PairOrigins(log, log', t, t', h, b, x1, b', y1);
      TwinLess(log, log', t, t', h, b, x1, b', y1);
    }
  }

  // ---- Lists side by side ----

  /** The items of `s`, in order. */
  ghost function Chosen(order: seq<Placed>, s: set<nat>): seq<nat> {
    if order == [] then []
    else
      var k := |order| - 1;
      Chosen(order[..k], s) + (if order[k].opId in s then [order[k].opId] else [])
  }

  lemma {:induction false} LastInOrder(order: seq<Placed>, id: int)
    requires order != []
    ensures InOrder(order, id) <==> InOrder(order[..|order| - 1], id) || order[|order| - 1].opId == id
  {
    var k := |order| - 1;
    if InOrder(order[..k], id) {
      var i :| 0 <= i < k && order[..k][i].opId == id;
      assert order[i].opId == id;
    }
    if InOrder(order, id) {
      var i :| 0 <= i < |order| && order[i].opId == id;
      if i < k { assert order[..k][i].opId == id; }
    }
  }

  lemma {:induction false} ChosenIn(order: seq<Placed>, s: set<nat>, id: nat)
    ensures id in Chosen(order, s) <==> InOrder(order, id) && id in s
  {
    hide InOrder;
    if order == [] {
      NothingIn(id);
    } else {
      ChosenIn(order[..|order| - 1], s, id);
      LastInOrder(order, id);
    }
  }

  lemma {:induction false} NothingIn(id: int)
    ensures !InOrder([], id)
  {
  }

  lemma {:induction false} AtPrefix(order: seq<Placed>, k: nat, id: int)
    requires k <= |order| && InOrder(order[..k], id)
    ensures At(order, id) == At(order[..k], id) < k
  {
    var i, j := At(order, id), At(order[..k], id);
    var m :| 0 <= m < k && order[..k][m].opId == id;
    assert order[m].opId == id;
    assert forall n | 0 <= n < k :: order[..k][n] == order[n];
  }

  /** The list goes by the order of the items. */
  lemma {:induction false} ChosenSorted(order: seq<Placed>, s: set<nat>, i: nat, j: nat)
    requires DistinctOrder(order) && i < j < |Chosen(order, s)|
    ensures At(order, Chosen(order, s)[i]) < At(order, Chosen(order, s)[j]) < |order|
  {
    var k := |order| - 1;
    var before, c := Chosen(order[..k], s), Chosen(order, s);
    assert DistinctOrder(order[..k]);
    ChosenIn(order[..k], s, c[i]);
    AtPrefix(order, k, c[i]);
    if j < |before| {
      ChosenIn(order[..k], s, c[j]);
      AtPrefix(order, k, c[j]);
      ChosenSorted(order[..k], s, i, j);
    } else {
      AtIs(order, k);
    }
  }

  ghost function Names(ids: seq<RawVersion>, lvs: seq<nat>): (r: seq<RawVersion>)
    requires forall i | 0 <= i < |lvs| :: lvs[i] < |ids|
    ensures |r| == |lvs| && forall i | 0 <= i < |lvs| :: r[i] == ids[lvs[i]]
  {
    seq(|lvs|, i requires 0 <= i < |lvs| => ids[lvs[i]])
  }

  ghost predicate NoRepeats(u: seq<RawVersion>) {
    forall i, j | 0 <= i < j < |u| :: u[i] != u[j]
  }

  /** Members of both lists come in the same order. */
  ghost predicate InStep(u: seq<RawVersion>, v: seq<RawVersion>) {
    forall i, j, i', j' | 0 <= i < j < |u| && 0 <= i' < |v| && 0 <= j' < |v| && u[i] == v[i'] && u[j] == v[j'] :: i' < j'
  }

  lemma {:induction false} SameFirst(u: seq<RawVersion>, v: seq<RawVersion>)
    requires u != [] && (forall n :: n in u <==> n in v) && InStep(u, v)
    ensures v != [] && u[0] == v[0]
  {
    assert u[0] in v;
    var k :| 0 <= k < |v| && v[k] == u[0];
    assert v[0] in u;
    var m :| 0 <= m < |u| && u[m] == v[0];
  }

  lemma {:induction false} InStepTail(u: seq<RawVersion>, v: seq<RawVersion>)
    requires u != [] && v != [] && InStep(u, v) && NoRepeats(u) && NoRepeats(v)
    ensures InStep(u[1..], v[1..]) && NoRepeats(u[1..]) && NoRepeats(v[1..])
  {
    forall i, j, i', j' | 0 <= i < j < |u[1..]| && 0 <= i' < |v[1..]| && 0 <= j' < |v[1..]| && u[1..][i] == v[1..][i'] && u[1..][j] == v[1..][j']
      ensures i' < j'
    {
      assert u[i + 1] == v[i' + 1] && u[j + 1] == v[j' + 1];
    }
  }

  lemma {:induction false} Rest(u: seq<RawVersion>, n: RawVersion)
    requires u != [] && NoRepeats(u)
    ensures n in u[1..] <==> n in u && n != u[0]
  {
    if n in u {
      var i :| 0 <= i < |u| && u[i] == n;
      assert i > 0 ==> u[1..][i - 1] == n;
    }
    if n in u[1..] {
      var i :| 0 <= i < |u[1..]| && u[1..][i] == n;
      assert u[i + 1] == n;
    }
  }

  lemma {:induction false} NoMembers(v: seq<RawVersion>)
    requires forall n :: n !in v
    ensures v == []
  {
    FirstIn(v);
  }

  lemma {:induction false} FirstIn(v: seq<RawVersion>)
    ensures v != [] ==> v[0] in v
  {
  }

  /** Two lists without repetition that have the same members in the same order are the same. */
  lemma {:induction false} SameOrderSame(u: seq<RawVersion>, v: seq<RawVersion>)
    requires (forall n :: n in u <==> n in v) && NoRepeats(u) && NoRepeats(v) && InStep(u, v)
    ensures u == v
    decreases |u|
  {
    hide NoRepeats, InStep;
    if u == [] {
      NoMembers(v);
    } else {
      SameFirst(u, v);
      forall n
        ensures n in u[1..] <==> n in v[1..]
      {
        Rest(u, n);
        Rest(v, n);
      }
      InStepTail(u, v);
      SameOrderSame(u[1..], v[1..]);
      assert u == [u[0]] + u[1..] && v == [v[0]] + v[1..];
    }
  }

  /** Two documents whose items made by the operations `h` have the same origins. */
  ghost predicate SideBySide<T>(log: Log<T>, log': Log<T>, doc: Doc, doc': Doc, h: set<nat>) {
    && LogsAgree(log, log') && TreeKept(log, doc) && TreeKept(log', doc')
    && TreesAgree(log, log', TreeOf(doc.order), TreeOf(doc'.order), h)
  }

  /** The sets pick the same items on both sides. */
  ghost predicate SameItems<T>(log: Log<T>, log': Log<T>, doc: Doc, doc': Doc, s: set<nat>, s': set<nat>) {
    && (forall x: nat, y: nat | Twin(log, log', x, y) :: x in s && InOrder(doc.order, x) <==> y in s' && InOrder(doc'.order, y))
    && AllTwinned(log, log', s) && AllTwinned(log', log, s')
  }

  lemma {:induction false} InLog<T>(log: Log<T>, doc: Doc, x: nat)
    requires TreeKept(log, doc) && InOrder(doc.order, x)
    ensures x < |log.g| && x < |log.ids|
  {
  }

  lemma {:induction false} ChosenInLog<T>(log: Log<T>, doc: Doc, s: set<nat>)
    requires TreeKept(log, doc)
    ensures forall i | 0 <= i < |Chosen(doc.order, s)| :: Chosen(doc.order, s)[i] < |log.ids|
    ensures forall i | 0 <= i < |Chosen(doc.order, s)| :: Chosen(doc.order, s)[i] in s && InOrder(doc.order, Chosen(doc.order, s)[i])
  {
    hide TreeKept, Chosen, InOrder;
    forall i | 0 <= i < |Chosen(doc.order, s)|
      ensures Chosen(doc.order, s)[i] < |log.ids| && Chosen(doc.order, s)[i] in s && InOrder(doc.order, Chosen(doc.order, s)[i])
    {
      ChosenIn(doc.order, s, Chosen(doc.order, s)[i]);
      InLog(log, doc, Chosen(doc.order, s)[i]);
    }
  }

  lemma {:induction false} NamesThere<T>(log: Log<T>, log': Log<T>, doc: Doc, doc': Doc, s: set<nat>, s': set<nat>, i: nat) returns (j: nat)
    requires LogsAgree(log, log') && TreeKept(log, doc) && TreeKept(log', doc') && SameItems(log, log', doc, doc', s, s') && i < |Chosen(doc.order, s)|
    ensures j < |Chosen(doc'.order, s')| && Twin(log, log', Chosen(doc.order, s)[i], Chosen(doc'.order, s')[j])
  {
    hide Chosen, InOrder, UniqueIds, SameOp, OriginsSeen, Nested;
    var x := Chosen(doc.order, s)[i];
    ChosenInLog(log, doc, s);
    InLog(log, doc, x);
    assert HasTwin(log, log', x);
    var y: nat :| Twin(log, log', x, y);
    ChosenIn(doc'.order, s', y);
    j :| 0 <= j < |Chosen(doc'.order, s')| && Chosen(doc'.order, s')[j] == y;
  }

  /** Two items are in the same order on both sides. */
  lemma {:induction false} SameOrder<T>(log: Log<T>, log': Log<T>, doc: Doc, doc': Doc, h: set<nat>, x1: nat, x2: nat, y1: nat, y2: nat)
    requires SideBySide(log, log', doc, doc', h) && Twin(log, log', x1, y1) && Twin(log, log', x2, y2) && x1 in h && x2 in h
    requires InOrder(doc.order, x1) && InOrder(doc.order, x2) && InOrder(doc'.order, y1) && InOrder(doc'.order, y2)
    ensures At(doc.order, x1) < At(doc.order, x2) <==> At(doc'.order, y1) < At(doc'.order, y2)
  {
    hide InOrder, LogsAgree, TreesAgree, ValidTree, TreeKept, At, TreeLess, Twin, UniqueIds;
    TreeIsValid(log, doc);
    TreeIsValid(log', doc');
    UniqueBoth(log, log');
    OrderIsTree(log, doc, x1, x2);
    OrderIsTree(log', doc', y1, y2);
    TwinLess(log, log', TreeOf(doc.order), TreeOf(doc'.order), h, x1, x2, y1, y2);
  }

  lemma {:induction false} SideFacts<T>(log: Log<T>, log': Log<T>, doc: Doc, doc': Doc, h: set<nat>)
    requires SideBySide(log, log', doc, doc', h)
    ensures LogsAgree(log, log') && TreeKept(log, doc) && TreeKept(log', doc') && DistinctOrder(doc.order) && DistinctOrder(doc'.order)
  {
  }

  lemma {:induction false} ChosenMember(order: seq<Placed>, s: set<nat>, i: nat)
    requires i < |Chosen(order, s)|
    ensures Chosen(order, s)[i] in s && InOrder(order, Chosen(order, s)[i])
  {
    hide Chosen, InOrder;
    ChosenIn(order, s, Chosen(order, s)[i]);
  }

  /** The order of two chosen items is the same on both sides. */
  lemma {:induction false} ChosenPair<T>(log: Log<T>, log': Log<T>, doc: Doc, doc': Doc, h: set<nat>, s: set<nat>, s': set<nat>, i: nat, j: nat, i': nat, j': nat)
    requires SideBySide(log, log', doc, doc', h) && s <= h
    requires i < j < |Chosen(doc.order, s)| && i' < |Chosen(doc'.order, s')| && j' < |Chosen(doc'.order, s')|
    requires Twin(log, log', Chosen(doc.order, s)[i], Chosen(doc'.order, s')[i']) && Twin(log, log', Chosen(doc.order, s)[j], Chosen(doc'.order, s')[j'])
    ensures i' < j'
  {
    hide Chosen, InOrder, SideBySide, TreeKept, DistinctOrder, At, Twin;
    var c, c' := Chosen(doc.order, s), Chosen(doc'.order, s');
    SideFacts(log, log', doc, doc', h);
    ChosenMember(doc.order, s, i);
    ChosenMember(doc.order, s, j);
    ChosenMember(doc'.order, s', i');
    ChosenMember(doc'.order, s', j');
    ChosenSorted(doc.order, s, i, j);
    SameOrder(log, log', doc, doc', h, c[i], c[j], c'[i'], c'[j']);
    if j' < i' { ChosenSorted(doc'.order, s', j', i'); }
  }

  lemma {:induction false} UniqueBoth<T>(log: Log<T>, log': Log<T>)
    requires LogsAgree(log, log')
    ensures UniqueIds(log) && UniqueIds(log') && ValidLog(log) && ValidLog(log')
  {
  }

  /** Items are in the order of the tree. */
  lemma {:induction false} OrderIsTree<T>(log: Log<T>, doc: Doc, x: nat, y: nat)
    requires TreeKept(log, doc) && ValidTree(log.ids, TreeOf(doc.order)) && InOrder(doc.order, x) && InOrder(doc.order, y)
    ensures x in TreeOf(doc.order) && y in TreeOf(doc.order)
    ensures TreeLess(log.ids, TreeOf(doc.order), x, y) <==> At(doc.order, x) < At(doc.order, y)
  {
    hide TreeLess, ValidTree, TreeOf, OriginsSeen, LeftNested, RightNested, TiesById, LeftAt, RightAt;
    var i :| 0 <= i < |doc.order| && doc.order[i].opId == x;
    var j :| 0 <= j < |doc.order| && doc.order[j].opId == y;
    AtIs(doc.order, i);
    AtIs(doc.order, j);
    NestedCompares(log.ids, doc.order, i, j);
  }

  lemma {:induction false} ChosenApart<T>(log: Log<T>, doc: Doc, s: set<nat>)
    requires TreeKept(log, doc) && UniqueIds(log) && forall i | 0 <= i < |Chosen(doc.order, s)| :: Chosen(doc.order, s)[i] < |log.ids|
    ensures NoRepeats(Names(log.ids, Chosen(doc.order, s)))
  {
    hide Chosen, OriginsSeen, LeftNested, RightNested, TiesById, At;
    var c := Chosen(doc.order, s);
    forall i, j | 0 <= i < j < |c|
      ensures log.ids[c[i]] != log.ids[c[j]]
    {
      ChosenSorted(doc.order, s, i, j);
      assert c[i] != c[j];
    }
  }

  /** The same items picked on both sides come in the same order. */
  lemma {:induction false} ChosenTwins<T>(log: Log<T>, log': Log<T>, doc: Doc, doc': Doc, h: set<nat>, s: set<nat>, s': set<nat>)
    requires SideBySide(log, log', doc, doc', h) && s <= h && SameItems(log, log', doc, doc', s, s')
    ensures |Chosen(doc.order, s)| == |Chosen(doc'.order, s')|
    ensures forall i | 0 <= i < |Chosen(doc.order, s)| :: Twin(log, log', Chosen(doc.order, s)[i], Chosen(doc'.order, s')[i])
  {
    hide Chosen, InOrder, LogsAgree, TreeKept, SideBySide, SameItems, NoRepeats, UniqueIds;
    SideFacts(log, log', doc, doc', h);
    UniqueBoth(log, log');
    var c, c' := Chosen(doc.order, s), Chosen(doc'.order, s');
    ChosenInLog(log, doc, s);
    ChosenInLog(log', doc', s');
    ChosenApart(log, doc, s);
    ChosenApart(log', doc', s');
    var u, v := Names(log.ids, c), Names(log'.ids, c');
    SameNames(log, log', doc, doc', s, s');
    forall i, j, i', j' | 0 <= i < j < |u| && 0 <= i' < |v| && 0 <= j' < |v| && u[i] == v[i'] && u[j] == v[j']
      ensures i' < j'
    {
      ChosenPair(log, log', doc, doc', h, s, s', i, j, i', j');
    }
    SameOrderSame(u, v);
    forall i | 0 <= i < |c|
      ensures Twin(log, log', c[i], c'[i])
    {
      assert u[i] == v[i];
    }
  }

  lemma {:induction false} SameNames<T>(log: Log<T>, log': Log<T>, doc: Doc, doc': Doc, s: set<nat>, s': set<nat>)
    requires LogsAgree(log, log') && TreeKept(log, doc) && TreeKept(log', doc') && SameItems(log, log', doc, doc', s, s')
    requires forall i | 0 <= i < |Chosen(doc.order, s)| :: Chosen(doc.order, s)[i] < |log.ids|
    requires forall i | 0 <= i < |Chosen(doc'.order, s')| :: Chosen(doc'.order, s')[i] < |log'.ids|
    ensures forall n :: n in Names(log.ids, Chosen(doc.order, s)) <==> n in Names(log'.ids, Chosen(doc'.order, s'))
  {
    hide Chosen, InOrder, LogsAgree, TreeKept;
    var c, c' := Chosen(doc.order, s), Chosen(doc'.order, s');
    OtherWay(log, log');
    OtherItems(log, log', doc, doc', s, s');
    forall n
      ensures n in Names(log.ids, c) <==> n in Names(log'.ids, c')
    {
      if n in Names(log.ids, c) {
        var i :| 0 <= i < |c| && log.ids[c[i]] == n;
        var j := NamesThere(log, log', doc, doc', s, s', i);
        assert Names(log'.ids, c')[j] == n;
      }
      if n in Names(log'.ids, c') {
        var i :| 0 <= i < |c'| && log'.ids[c'[i]] == n;
        var j := NamesThere(log', log, doc', doc, s', s, i);
        assert Names(log.ids, c)[j] == n;
      }
    }
  }

  lemma {:induction false} OtherItems<T>(log: Log<T>, log': Log<T>, doc: Doc, doc': Doc, s: set<nat>, s': set<nat>)
    requires SameItems(log, log', doc, doc', s, s')
    ensures SameItems(log', log, doc', doc, s', s)
  {
    hide InOrder;
    forall x: nat, y: nat | Twin(log', log, x, y)
      ensures x in s' && InOrder(doc'.order, x) <==> y in s && InOrder(doc.order, y)
    {
      assert Twin(log, log', y, x);
    }
  }
}
