/** Operational transformation over a whole graph: which operations separate two versions, and
    operations rewritten, recursively and with a memo, to apply at a later version. */
module OtGraph {
  import opened Dag
  import opened Dominators
  import opened Frontiers
  import opened OtLists
  import opened ListLog

  // ---- The versions that separate two frontiers ----

  datatype DiffFlag = OnlyA | OnlyB | Shared

  datatype Pending = Pending(idx: nat, flag: DiffFlag)

  ghost predicate Covers(flag: DiffFlag, side: DiffFlag) {
    flag == side || flag == Shared
  }

  /** A queued version of the given side has `x` in its history. */
  ghost predicate Queued(g: Graph, queue: seq<Pending>, side: DiffFlag, x: nat)
    requires WellFormed(g) && InRange(g, queue)
  {
    exists k :: 0 <= k < |queue| && Covers(queue[k].flag, side) && Reaches(g, queue[k].idx, x)
  }

  ghost predicate InRange(g: Graph, queue: seq<Pending>) {
    forall k | 0 <= k < |queue| :: queue[k].idx < |g|
  }

  function CountShared(queue: seq<Pending>): nat {
    if queue == [] then 0 else CountShared(queue[..|queue| - 1]) + (if queue[|queue| - 1].flag == Shared then 1 else 0)
  }

  lemma {:induction false} CountConcat(a: seq<Pending>, b: seq<Pending>)
    ensures CountShared(a + b) == CountShared(a) + CountShared(b)
  {
    if b == [] {
      assert a + b == a;
    } else {
      assert (a + b)[..|a + b| - 1] == a + b[..|b| - 1];
      CountConcat(a, b[..|b| - 1]);
    }
  }

  lemma {:induction false} CountRemoved(queue: seq<Pending>, k: nat)
    requires k < |queue|
    ensures CountShared(queue) == CountShared(queue[..k] + queue[k + 1..]) + (if queue[k].flag == Shared then 1 else 0)
  {
    assert queue == queue[..k] + ([queue[k]] + queue[k + 1..]);
    CountConcat(queue[..k], [queue[k]] + queue[k + 1..]);
    CountConcat([queue[k]], queue[k + 1..]);
    CountConcat(queue[..k], queue[k + 1..]);
    assert [queue[k]][..0] == [];
  }

  lemma {:induction false} CountAll(queue: seq<Pending>)
    ensures CountShared(queue) <= |queue|
    ensures CountShared(queue) == |queue| ==> forall k | 0 <= k < |queue| :: queue[k].flag == Shared
  {
    if queue != [] { CountAll(queue[..|queue| - 1]); }
  }

  /** The top of the heap: the highest version. */
  function Top(queue: seq<Pending>): (k: nat)
    requires queue != []
    ensures k < |queue| && forall j | 0 <= j < |queue| :: queue[j].idx <= queue[k].idx
  {
    if |queue| == 1 then 0
    else
      var k := Top(queue[..|queue| - 1]);
      if queue[|queue| - 1].idx > queue[k].idx then |queue| - 1 else k
  }

  /** Below `lim` the queue accounts for both histories. */
  ghost predicate Accounts(g: Graph, a: seq<nat>, b: seq<nat>, queue: seq<Pending>, lim: nat)
    requires WellFormed(g) && InGraph(g, a) && InGraph(g, b)
  {
    && InRange(g, queue) && (forall k | 0 <= k < |queue| :: queue[k].idx < lim)
    && (forall x: nat | x < lim :: InHist(g, a, x) <==> Queued(g, queue, OnlyA, x))
    && (forall x: nat | x < lim :: InHist(g, b, x) <==> Queued(g, queue, OnlyB, x))
  }

  ghost predicate Descending(vs: seq<nat>) {
    forall i, j | 0 <= i < j < |vs| :: vs[i] > vs[j]
  }

  /** From `lim` up, exactly what is in one history and not in the other has been listed. */
  ghost predicate ListedFrom(g: Graph, a: seq<nat>, b: seq<nat>, only: seq<nat>, lim: nat)
    requires WellFormed(g) && InGraph(g, a) && InGraph(g, b)
  {
    Descending(only) && forall x: nat :: x in only <==> lim <= x && InHist(g, a, x) && !InHist(g, b, x)
  }

  lemma {:induction false} StartAccounts(g: Graph, a: seq<nat>, b: seq<nat>, queue: seq<Pending>)
    requires WellFormed(g) && InGraph(g, a) && InGraph(g, b)
    requires queue == Pend(a, OnlyA) + Pend(b, OnlyB)
    ensures Accounts(g, a, b, queue, |g|) && ListedFrom(g, a, b, [], |g|) && ListedFrom(g, b, a, [], |g|)
    ensures CountShared(queue) == 0
  {
    NoneShared(queue);
    forall k | 0 <= k < |queue|
      ensures queue[k].idx < |g|
    {
      if k < |a| { assert a[k] in a; } else { assert b[k - |a|] in b; }
    }
    forall x: nat
      ensures InHist(g, a, x) <==> Queued(g, queue, OnlyA, x)
      ensures InHist(g, b, x) <==> Queued(g, queue, OnlyB, x)
      ensures InHist(g, a, x) || InHist(g, b, x) ==> x < |g|
    {
      if InHist(g, a, x) {
        InHistBound(g, a, x);
        var v :| v in a && Reaches(g, v, x);
        var k :| 0 <= k < |a| && a[k] == v;
        assert queue[k] == Pending(v, OnlyA);
      }
      if InHist(g, b, x) {
        InHistBound(g, b, x);
        var v :| v in b && Reaches(g, v, x);
        var k :| 0 <= k < |b| && b[k] == v;
        assert queue[|a| + k] == Pending(v, OnlyB);
      }
    }
  }

  function Pend(vs: seq<nat>, flag: DiffFlag): (r: seq<Pending>)
    ensures |r| == |vs| && forall i | 0 <= i < |vs| :: r[i] == Pending(vs[i], flag)
  {
    if vs == [] then [] else Pend(vs[..|vs| - 1], flag) + [Pending(vs[|vs| - 1], flag)]
  }

  lemma {:induction false} NoneShared(queue: seq<Pending>)
    requires forall k | 0 <= k < |queue| :: queue[k].flag != Shared
    ensures CountShared(queue) == 0
  {
    if queue != [] { NoneShared(queue[..|queue| - 1]); }
  }

  function Join(f: DiffFlag, f': DiffFlag): DiffFlag {
    if f == f' then f else Shared
  }

  /** Takes every entry for the highest version off the heap, joining their flags. */
  method PopTop(queue0: seq<Pending>, numShared0: int, ghost g: Graph) returns (idx: nat, flag: DiffFlag, queue: seq<Pending>, numShared: int)
    requires queue0 != [] && numShared0 == CountShared(queue0) && WellFormed(g) && InRange(g, queue0)
    ensures numShared == CountShared(queue) && idx < |g| && InRange(g, queue)
    ensures forall k | 0 <= k < |queue| :: queue[k].idx < idx
    ensures (forall k | 0 <= k < |queue0| :: queue0[k].idx <= idx) && exists k :: 0 <= k < |queue0| && queue0[k].idx == idx
    ensures forall side, x: nat | side != Shared :: Queued(g, queue0, side, x) <==> Queued(g, queue, side, x) || (Covers(flag, side) && Reaches(g, idx, x))
  {
    hide Reaches;
    var top := Top(queue0);
    idx, flag := queue0[top].idx, queue0[top].flag;
    CountRemoved(queue0, top);
    RemovedQueued(g, queue0, top);
    queue := queue0[..top] + queue0[top + 1..];
    numShared := numShared0 - (if flag == Shared then 1 else 0);
    while queue != [] && queue[Top(queue)].idx == idx
      invariant numShared == CountShared(queue) && InRange(g, queue)
      invariant forall p | p in queue :: p.idx <= idx
      invariant forall side, x: nat | side != Shared :: Queued(g, queue0, side, x) <==> Queued(g, queue, side, x) || (Covers(flag, side) && Reaches(g, idx, x))
      decreases |queue|
    {
      var peek := Top(queue);
      var peekFlag := queue[peek].flag;
      CountRemoved(queue, peek);
      RemovedQueued(g, queue, peek);
      flag := Join(flag, peekFlag);
      numShared := numShared - (if peekFlag == Shared then 1 else 0);
      queue := queue[..peek] + queue[peek + 1..];
    }
  }

  lemma {:induction false} RemovedQueued(g: Graph, queue: seq<Pending>, k: nat)
    requires WellFormed(g) && InRange(g, queue) && k < |queue|
    ensures var rest := queue[..k] + queue[k + 1..];
            && InRange(g, rest) && (forall j | 0 <= j < |rest| :: rest[j] in queue)
            && forall side, x: nat | side != Shared ::
                 Queued(g, queue, side, x) <==> Queued(g, rest, side, x) || (Covers(queue[k].flag, side) && Reaches(g, queue[k].idx, x))
  {
    hide Reaches;
    var rest := queue[..k] + queue[k + 1..];
    forall j | 0 <= j < |rest|
      ensures rest[j] in queue
      ensures rest[j].idx < |g|
    {
      assert rest[j] == queue[if j < k then j else j + 1];
    }
    forall side, x: nat | side != Shared
      ensures Queued(g, queue, side, x) <==> Queued(g, rest, side, x) || (Covers(queue[k].flag, side) && Reaches(g, queue[k].idx, x))
    {
      if Covers(queue[k].flag, side) && Reaches(g, queue[k].idx, x) { assert Queued(g, queue, side, x); }
      if Queued(g, queue, side, x) {
        var i :| 0 <= i < |queue| && Covers(queue[i].flag, side) && Reaches(g, queue[i].idx, x);
        if i < k { assert rest[i] == queue[i]; }
        if i > k { assert rest[i - 1] == queue[i]; }
      }
      if Queued(g, rest, side, x) {
        var j :| 0 <= j < |rest| && Covers(rest[j].flag, side) && Reaches(g, rest[j].idx, x);
        assert queue[if j < k then j else j + 1] == rest[j];
      }
    }
  }

  lemma {:induction false} QueuedBelow(g: Graph, queue: seq<Pending>, side: DiffFlag, x: nat, lim: nat)
    requires WellFormed(g) && InRange(g, queue) && Queued(g, queue, side, x) && forall k | 0 <= k < |queue| :: queue[k].idx < lim
    ensures x < lim
  {
    var k :| 0 <= k < |queue| && Covers(queue[k].flag, side) && Reaches(g, queue[k].idx, x);
    ReachesLower(g, queue[k].idx, x);
  }

  lemma {:induction false} PendQueued(g: Graph, queue: seq<Pending>, parents: seq<nat>, flag: DiffFlag, side: DiffFlag, x: nat)
    requires WellFormed(g) && InRange(g, queue) && InGraph(g, parents)
    ensures InRange(g, queue + Pend(parents, flag))
    ensures Queued(g, queue + Pend(parents, flag), side, x) <==> Queued(g, queue, side, x) || (Covers(flag, side) && InHist(g, parents, x))
  {
    hide Reaches, Covers;
    var all := queue + Pend(parents, flag);
    forall k | 0 <= k < |all|
      ensures all[k].idx < |g|
    {
      if k >= |queue| { assert parents[k - |queue|] in parents; }
    }
    if Queued(g, queue, side, x) {
      var k :| 0 <= k < |queue| && Covers(queue[k].flag, side) && Reaches(g, queue[k].idx, x);
      assert all[k] == queue[k];
    }
    if Covers(flag, side) && InHist(g, parents, x) {
      var v :| v in parents && Reaches(g, v, x);
      var k :| 0 <= k < |parents| && parents[k] == v;
      assert all[|queue| + k] == Pending(v, flag);
    }
    if Queued(g, all, side, x) {
      var k :| 0 <= k < |all| && Covers(all[k].flag, side) && Reaches(g, all[k].idx, x);
      if k < |queue| { assert queue[k] == all[k]; } else { assert parents[k - |queue|] in parents; }
    }
  }

  /** After the highest version has been taken off and its parents put in, the queue accounts for what is below it. */
  lemma {:induction false} NextAccounts(g: Graph, a: seq<nat>, b: seq<nat>, queue0: seq<Pending>, lim: nat, idx: nat, flag: DiffFlag, queue: seq<Pending>)
    requires WellFormed(g) && InGraph(g, a) && InGraph(g, b) && Accounts(g, a, b, queue0, lim) && idx < |g| && InRange(g, queue) && idx < lim
    requires (forall k | 0 <= k < |queue| :: queue[k].idx < idx) && forall k | 0 <= k < |queue0| :: queue0[k].idx <= idx
    requires forall side, x: nat | side != Shared :: Queued(g, queue0, side, x) <==> Queued(g, queue, side, x) || (Covers(flag, side) && Reaches(g, idx, x))
    ensures InGraph(g, g[idx]) && Accounts(g, a, b, queue + Pend(g[idx], flag), idx)
    ensures forall x: nat | idx <= x < lim :: InHist(g, a, x) <==> x == idx && Covers(flag, OnlyA)
    ensures forall x: nat | idx <= x < lim :: InHist(g, b, x) <==> x == idx && Covers(flag, OnlyB)
  {
    hide InHist, Queued;
    PendQueued(g, queue, g[idx], flag, OnlyA, 0);
    forall side, x: nat | side != Shared
      ensures x < idx ==> (Queued(g, queue0, side, x) <==> Queued(g, queue + Pend(g[idx], flag), side, x))
      ensures x >= idx ==> (Queued(g, queue0, side, x) <==> x == idx && Covers(flag, side))
    {
      OneBelow(g, idx, x);
      PendQueued(g, queue, g[idx], flag, side, x);
      if Queued(g, queue, side, x) { QueuedBelow(g, queue, side, x, idx); }
    }
    forall k | 0 <= k < |queue + Pend(g[idx], flag)|
      ensures (queue + Pend(g[idx], flag))[k].idx < idx
    {
      if k >= |queue| { assert g[idx][k - |queue|] in g[idx]; }
    }
  }

  lemma {:induction false} OneBelow(g: Graph, idx: nat, x: nat)
    requires WellFormed(g) && idx < |g|
    ensures InGraph(g, g[idx])
    ensures x < idx ==> (Reaches(g, idx, x) <==> InHist(g, g[idx], x))
    ensures x >= idx ==> (Reaches(g, idx, x) <==> x == idx)
  {
    if Reaches(g, idx, x) { ReachesLower(g, idx, x); }
  }

  lemma {:induction false} ListedNext(g: Graph, a: seq<nat>, b: seq<nat>, only: seq<nat>, lim: nat, idx: nat, take: bool)
    requires WellFormed(g) && InGraph(g, a) && InGraph(g, b) && ListedFrom(g, a, b, only, lim) && idx < lim
    requires forall x: nat | idx <= x < lim :: InHist(g, a, x) && !InHist(g, b, x) <==> x == idx && take
    ensures ListedFrom(g, a, b, if take then only + [idx] else only, idx)
  {
    hide InHist;
    forall i | 0 <= i < |only|
      ensures only[i] > idx
    {
      assert only[i] in only;
    }
  }

  /** Nothing is left to list once only shared versions are queued. */
  lemma {:induction false} AllListed(g: Graph, a: seq<nat>, b: seq<nat>, queue: seq<Pending>, lim: nat, onlyA: seq<nat>, onlyB: seq<nat>)
    requires WellFormed(g) && InGraph(g, a) && InGraph(g, b) && Accounts(g, a, b, queue, lim)
    requires ListedFrom(g, a, b, onlyA, lim) && ListedFrom(g, b, a, onlyB, lim)
    requires forall k | 0 <= k < |queue| :: queue[k].flag == Shared
    ensures Reversed(onlyA) == Members(Hist(g, a) - Hist(g, b), |g|)
    ensures Reversed(onlyB) == Members(Hist(g, b) - Hist(g, a), |g|)
  {
    hide Reaches, Members;
    forall x: nat | x < lim
      ensures InHist(g, a, x) <==> InHist(g, b, x)
    {
    }
    forall x: nat
      ensures InHist(g, a, x) ==> x < |g|
      ensures InHist(g, b, x) ==> x < |g|
    {
      if InHist(g, a, x) { InHistBound(g, a, x); }
      if InHist(g, b, x) { InHistBound(g, b, x); }
    }
    ReversedAscends(onlyA);
    ReversedAscends(onlyB);
    SameMembers(Reversed(onlyA), Members(Hist(g, a) - Hist(g, b), |g|));
    SameMembers(Reversed(onlyB), Members(Hist(g, b) - Hist(g, a), |g|));
  }

  function Reversed(vs: seq<nat>): (r: seq<nat>)
    ensures |r| == |vs| && forall i | 0 <= i < |vs| :: r[i] == vs[|vs| - 1 - i]
  {
    if vs == [] then [] else [vs[|vs| - 1]] + Reversed(vs[..|vs| - 1])
  }

  lemma {:induction false} ReversedAscends(vs: seq<nat>)
    requires Descending(vs)
    ensures StrictlyAscending(Reversed(vs)) && forall v :: v in Reversed(vs) <==> v in vs
  {
    forall v
      ensures v in Reversed(vs) <==> v in vs
    {
      if v in vs {
        var i :| 0 <= i < |vs| && vs[i] == v;
        assert Reversed(vs)[|vs| - 1 - i] == v;
      }
    }
  }

  /** `diff`: what is in one history only, each in ascending order. */
  method Diff(g: Graph, a: seq<nat>, b: seq<nat>) returns (aOnly: seq<nat>, bOnly: seq<nat>)
    requires WellFormed(g) && InGraph(g, a) && InGraph(g, b)
    ensures aOnly == Members(Hist(g, a) - Hist(g, b), |g|)
    ensures bOnly == Members(Hist(g, b) - Hist(g, a), |g|)
  {
    hide Accounts, ListedFrom, Queued, Reaches, InHist, Hist, Members, CountShared, InRange;
    var queue := Pend(a, OnlyA) + Pend(b, OnlyB);
    var numShared := 0;
    var onlyA: seq<nat>, onlyB: seq<nat> := [], [];
    ghost var lim: nat := |g|;
    StartAccounts(g, a, b, queue);
    while queue != []
      invariant numShared == CountShared(queue)
      invariant Accounts(g, a, b, queue, lim) && ListedFrom(g, a, b, onlyA, lim) && ListedFrom(g, b, a, onlyB, lim)
      decreases lim
    {
      AccountsBelow(g, a, b, queue, lim);
      var idx, flag, rest, n := PopTop(queue, numShared, g);
      NextAccounts(g, a, b, queue, lim, idx, flag, rest);
      ListedNext(g, a, b, onlyA, lim, idx, flag == OnlyA);
      ListedNext(g, b, a, onlyB, lim, idx, flag == OnlyB);
      match flag {
        case OnlyA => onlyA := onlyA + [idx];
        case OnlyB => onlyB := onlyB + [idx];
        case Shared =>
      }
      CountConcat(rest, Pend(g[idx], flag));
      CountPend(g[idx], flag);
      queue := rest + Pend(g[idx], flag);
      numShared := n + (if flag == Shared then |g[idx]| else 0);
      lim := idx;
      if |queue| == numShared { break; }
    }
    CountAll(queue);
    AllListed(g, a, b, queue, lim, onlyA, onlyB);
    aOnly, bOnly := Reversed(onlyA), Reversed(onlyB);
  }

  lemma {:induction false} CountPend(vs: seq<nat>, flag: DiffFlag)
    ensures CountShared(Pend(vs, flag)) == if flag == Shared then |vs| else 0
  {
    if vs != [] {
      assert Pend(vs, flag)[..|vs| - 1] == Pend(vs[..|vs| - 1], flag);
      CountPend(vs[..|vs| - 1], flag);
    }
  }

  lemma {:induction false} AccountsBelow(g: Graph, a: seq<nat>, b: seq<nat>, queue: seq<Pending>, lim: nat)
    requires WellFormed(g) && InGraph(g, a) && InGraph(g, b) && Accounts(g, a, b, queue, lim)
    ensures InRange(g, queue) && forall k | 0 <= k < |queue| :: queue[k].idx < lim
  {
  }

  // ---- Versions on the way ----

  ghost predicate AllFrontiers(g: Graph) {
    WellFormed(g) && forall i | 0 <= i < |g| :: IsFrontier(g, g[i])
  }

  /** `advance_by_known_run` for one version. */
  function AdvanceBy(f: seq<nat>, idx: nat, parents: seq<nat>): seq<nat>
    requires StrictlyAscending(f) && idx !in f
  {
    if |parents| == 1 && |f| == 1 && parents[0] == f[0] then f[0 := idx]
    else if f == parents then [idx]
    else
      var kept := Retain(f, parents);
      var newIdx := Position(kept, idx, 0, |kept|);
      kept[..newIdx] + [idx] + kept[newIdx..]
  }

  /** Version `o` is new to the frontier and everything it builds on is there. */
  ghost predicate Next(g: Graph, f: seq<nat>, o: nat) {
    AllFrontiers(g) && IsFrontier(g, f) && o < |g| && Hist(g, g[o]) <= Hist(g, f) && o !in Hist(g, f)
  }

  lemma {:induction false} AdvanceByMeans(g: Graph, f: seq<nat>, o: nat)
    requires Next(g, f, o)
    ensures StrictlyAscending(f) && o !in f
    ensures IsFrontier(g, AdvanceBy(f, o, g[o])) && Hist(g, AdvanceBy(f, o, g[o])) == Hist(g, f) + {o}
  {
    hide Reaches, Hist;
    HistClosed(g, f);
    HistClosed(g, g[o]);
    HistOne(g, o);
    var parents := g[o];
    if |parents| == 1 && |f| == 1 && parents[0] == f[0] {
      assert f[0 := o] == [o];
      Replaced(f, parents, o);
    } else if f == parents {
      Replaced(f, parents, o);
    } else {
      var kept := Retain(f, parents);
      InsertedMembers(kept, Position(kept, o, 0, |kept|), o);
    }
    AdvancedFrontier(g, f, parents, o, {o}, AdvanceBy(f, o, parents));
  }

  ghost function SetOf(path: seq<nat>): set<nat> {
    set x | x in path
  }

  /** The versions of `path`, in order, lead upwards from `f`. */
  ghost predicate IsPath(g: Graph, f: seq<nat>, path: seq<nat>) {
    && AllFrontiers(g) && IsFrontier(g, f) && StrictlyAscending(path)
    && (forall x | x in path :: x < |g| && x !in Hist(g, f))
    && Closed(g, Hist(g, f) + SetOf(path))
  }

  lemma {:induction false} PathNext(g: Graph, f: seq<nat>, path: seq<nat>)
    requires IsPath(g, f, path) && path != []
    ensures Next(g, f, path[0]) && StrictlyAscending(f) && path[0] !in f
    ensures IsPath(g, AdvanceBy(f, path[0], g[path[0]]), path[1..])
    ensures Hist(g, AdvanceBy(f, path[0], g[path[0]])) + SetOf(path[1..]) == Hist(g, f) + SetOf(path)
    ensures Hist(g, f) < Hist(g, f) + SetOf(path)
  {
    hide Hist, Reaches, IsFrontier;
    var o := path[0];
    assert o in path;
    OriginsFirst(g, f, path);
    AdvanceByMeans(g, f, o);
    var f' := AdvanceBy(f, o, g[o]);
    FrontierInGraph(g, f);
    FrontierInGraph(g, f');
    assert path == [o] + path[1..];
    assert SetOf(path) == {o} + SetOf(path[1..]);
    assert Hist(g, f') + SetOf(path[1..]) == Hist(g, f) + SetOf(path);
    forall x | x in path[1..]
      ensures x < |g| && x !in Hist(g, f')
    {
      assert x in path;
      var k :| 0 <= k < |path[1..]| && path[1..][k] == x;
      assert path[k + 1] == x;
    }
  }

  /** What the first version of a path builds on is in the history already. */
  lemma {:induction false} OriginsFirst(g: Graph, f: seq<nat>, path: seq<nat>)
    requires IsPath(g, f, path) && path != [] && path[0] in path
    ensures path[0] < |g| && InGraph(g, g[path[0]]) && Hist(g, g[path[0]]) <= Hist(g, f)
  {
    hide Hist, Reaches;
    var o := path[0];
    HistClosed(g, f);
    forall p | p in g[o]
      ensures p in Hist(g, f)
    {
      assert p in Hist(g, f) + SetOf(path);
      forall k | 0 <= k < |path|
        ensures path[k] != p
      {
        assert path[0] <= path[k];
      }
    }
    HistMonotone(g, g[o], f);
  }

  /** The versions that separate an operation's parents from a later version form a path. */
  lemma {:induction false} PathBetween(g: Graph, i: nat, v: seq<nat>)
    requires Next(g, v, i)
    ensures IsPath(g, g[i], Members(Hist(g, v) - Hist(g, g[i]), |g|))
    ensures Hist(g, g[i]) + SetOf(Members(Hist(g, v) - Hist(g, g[i]), |g|)) == Hist(g, v)
    ensures |Members(Hist(g, v) - Hist(g, g[i]), |g|)| <= |g|
  {
    hide Reaches, IsFrontier, Members;
    NextFacts(g, v, i);
    var d := Hist(g, v) - Hist(g, g[i]);
    HistClosed(g, v);
    MembersSize(d, |g|);
    assert Hist(g, g[i]) + SetOf(Members(d, |g|)) == Hist(g, v);
  }

  lemma {:induction false} MembersSize(d: set<nat>, t: nat)
    ensures |Members(d, t)| <= t
  {
    if t > 0 { MembersSize(d, t - 1); }
  }

  // ---- Operations rewritten ----

  /** The operations of version `i` as they apply at `v`: rewritten past everything in between. */
  ghost function RewriteAt(g: Graph, ops: seq<seq<Op>>, i: nat, v: seq<nat>): seq<Op>
    requires |ops| == |g| && Next(g, v, i)
    decreases Hist(g, v), |g| + 1
  {
    if v == g[i] then ops[i]
    else
      PathBetween(g, i, v);
      RewriteThrough(g, ops, i, g[i], ops[i], Members(Hist(g, v) - Hist(g, g[i]), |g|))
  }

  ghost function RewriteThrough(g: Graph, ops: seq<seq<Op>>, i: nat, f: seq<nat>, cur: seq<Op>, path: seq<nat>): seq<Op>
    requires |ops| == |g| && IsPath(g, f, path)
    decreases Hist(g, f) + SetOf(path), |path|
  {
    if path == [] then cur
    else
      PathNext(g, f, path);
      RewriteThrough(g, ops, i, AdvanceBy(f, path[0], g[path[0]]),
                     ListRewritten(cur, RewriteAt(g, ops, path[0], f), path[0] < i), path[1..])
  }

  datatype OpKey = OpKey(idx: nat, v: seq<nat>)

  type MemoDict = map<OpKey, seq<Op>>

  /** Every entry of the memo is the rewrite it stands for. */
  ghost predicate MemoTrue(g: Graph, ops: seq<seq<Op>>, memo: MemoDict)
    requires |ops| == |g|
  {
    forall key | key in memo :: Next(g, key.v, key.idx) && memo[key] == RewriteAt(g, ops, key.idx, key.v)
  }

  /** `borrow_ops_at_version`: the memoised recursion gives what the plain one does. */
  method BorrowOpsAtVersion(g: Graph, allOps: seq<seq<Op>>, i: nat, v: seq<nat>, memo0: MemoDict) returns (r: seq<Op>, memo: MemoDict)
    requires |allOps| == |g| && Next(g, v, i) && MemoTrue(g, allOps, memo0)
    ensures r == RewriteAt(g, allOps, i, v)
    ensures MemoTrue(g, allOps, memo)
    decreases Hist(g, v)
  {
    hide Hist, Reaches, IsFrontier, Members, ListRewritten, AdvanceBy, Next, IsPath, MemoTrue, RewriteThrough;
    NextFacts(g, v, i);
    if v == g[i] {
      return allOps[i], memo0;
    }
    var key := OpKey(i, v);
    if key in memo0 {
      MemoSays(g, allOps, memo0, key);
      return memo0[key], memo0;
    }
    var aOnly, added := Diff(g, g[i], v);
    NothingOnlyBelow(g, i, v);
    assert aOnly == [];
    PathBetween(g, i, v);
    memo := memo0;
    var parentVersion, ops := g[i], allOps[i];
    assert added[0..] == added;
    for k := 0 to |added|
      invariant MemoTrue(g, allOps, memo) && IsPath(g, parentVersion, added[k..]) && InGraph(g, parentVersion)
      invariant Hist(g, parentVersion) + SetOf(added[k..]) == Hist(g, v)
      invariant RewriteThrough(g, allOps, i, parentVersion, ops, added[k..]) == RewriteAt(g, allOps, i, v)
    {
      var otherIdx := added[k];
      PathStep(g, allOps, i, parentVersion, ops, added, k);
      var other;
      other, memo := BorrowOpsAtVersion(g, allOps, otherIdx, parentVersion, memo);
      ops := ListRewritten(ops, other, otherIdx < i);
      parentVersion := AdvanceBy(parentVersion, otherIdx, g[otherIdx]);
    }
    PathDone(g, allOps, i, parentVersion, ops, v, added);
    assert parentVersion == v;
    MemoWith(g, allOps, memo, key, ops);
    memo := memo[key := ops];
    r := ops;
  }

  lemma {:induction false} NextFacts(g: Graph, v: seq<nat>, i: nat)
    requires Next(g, v, i)
    ensures AllFrontiers(g) && i < |g| && InGraph(g, g[i]) && InGraph(g, v) && IsFrontier(g, v) && IsFrontier(g, g[i])
  {
  }

  lemma {:induction false} NothingOnlyBelow(g: Graph, i: nat, v: seq<nat>)
    requires Next(g, v, i)
    ensures Members(Hist(g, g[i]) - Hist(g, v), |g|) == []
  {
    assert Hist(g, g[i]) - Hist(g, v) == {};
    NoMembers(|g|);
  }

  lemma {:induction false} NoMembers(t: nat)
    ensures Members({}, t) == []
  {
    if t > 0 { NoMembers(t - 1); }
  }

  lemma {:induction false} MemoSays(g: Graph, ops: seq<seq<Op>>, memo: MemoDict, key: OpKey)
    requires |ops| == |g| && MemoTrue(g, ops, memo) && key in memo
    ensures Next(g, key.v, key.idx) && memo[key] == RewriteAt(g, ops, key.idx, key.v)
  {
  }

  lemma {:induction false} MemoWith(g: Graph, ops: seq<seq<Op>>, memo: MemoDict, key: OpKey, r: seq<Op>)
    requires |ops| == |g| && MemoTrue(g, ops, memo) && Next(g, key.v, key.idx) && r == RewriteAt(g, ops, key.idx, key.v)
    ensures MemoTrue(g, ops, memo[key := r])
  {
    hide RewriteAt, Next;
  }

  lemma {:induction false} PathStep(g: Graph, allOps: seq<seq<Op>>, i: nat, f: seq<nat>, ops: seq<Op>, added: seq<nat>, k: nat)
    requires |allOps| == |g| && k < |added| && IsPath(g, f, added[k..])
    ensures var o := added[k];
            && Next(g, f, o) && StrictlyAscending(f) && o !in f
            && IsPath(g, AdvanceBy(f, o, g[o]), added[k + 1..]) && InGraph(g, AdvanceBy(f, o, g[o]))
            && Hist(g, AdvanceBy(f, o, g[o])) + SetOf(added[k + 1..]) == Hist(g, f) + SetOf(added[k..])
            && Hist(g, f) < Hist(g, f) + SetOf(added[k..])
            && RewriteThrough(g, allOps, i, f, ops, added[k..]) ==
               RewriteThrough(g, allOps, i, AdvanceBy(f, o, g[o]), ListRewritten(ops, RewriteAt(g, allOps, o, f), o < i), added[k + 1..])
  {
    hide Hist, Reaches, AdvanceBy, ListRewritten, RewriteAt;
    PathNext(g, f, added[k..]);
    assert added[k..][1..] == added[k + 1..];
  }

  lemma {:induction false} PathDone(g: Graph, allOps: seq<seq<Op>>, i: nat, f: seq<nat>, ops: seq<Op>, v: seq<nat>, added: seq<nat>)
    requires |allOps| == |g| && Next(g, v, i) && IsPath(g, f, added[|added|..]) && Hist(g, f) + SetOf(added[|added|..]) == Hist(g, v)
    ensures f == v && RewriteThrough(g, allOps, i, f, ops, added[|added|..]) == ops
  {
    hide Hist, Reaches, RewriteAt;
    assert SetOf(added[|added|..]) == {};
    FrontierUnique(g, f, v);
  }

  // ---- Documents ----

  /** The document after the operations of `path`, each rewritten to the version reached; None where one does not fit. */
  ghost function DocThrough(g: Graph, ops: seq<seq<Op>>, f: seq<nat>, doc: string, path: seq<nat>): Option<string>
    requires |ops| == |g| && IsPath(g, f, path)
    decreases |path|
  {
    if path == [] then Some(doc)
    else
      PathNext(g, f, path);
      var here := RewriteAt(g, ops, path[0], f);
      if !AllFit(here, doc) then None
      else DocThrough(g, ops, AdvanceBy(f, path[0], g[path[0]]), ApplyAll(here, doc), path[1..])
  }

  lemma {:induction false} FromRoot(g: Graph, v: seq<nat>)
    requires AllFrontiers(g) && IsFrontier(g, v)
    ensures InGraph(g, []) && Hist(g, []) == {} && IsPath(g, [], Members(Hist(g, v) - Hist(g, []), |g|))
  {
    hide Reaches, Members;
    assert IsFrontier(g, []);
    HistClosed(g, v);
    assert Hist(g, []) == {};
    assert {} + SetOf(Members(Hist(g, v) - {}, |g|)) == Hist(g, v);
  }

  /** `doc_at_version`: replays everything below a version, in order. */
  method DocAtVersion(g: Graph, allOps: seq<seq<Op>>, v: seq<nat>) returns (ok: bool, doc: string)
    requires |allOps| == |g| && AllFrontiers(g) && IsFrontier(g, v) && InGraph(g, v)
    ensures IsPath(g, [], Members(Hist(g, v), |g|))
    ensures ok == DocThrough(g, allOps, [], "", Members(Hist(g, v), |g|)).Some?
    ensures ok ==> doc == DocThrough(g, allOps, [], "", Members(Hist(g, v), |g|)).value
  {
    hide Hist, Reaches, IsFrontier, Members, AdvanceBy, Next, IsPath, MemoTrue, DocThrough, RewriteAt, AllFit, ApplyAll;
    FromRoot(g, v);
    var _, idxs := Diff(g, [], v);
    assert Hist(g, v) - {} == Hist(g, v);
    ok, doc := true, "";
    var docVersion: seq<nat> := [];
    var memo: MemoDict := map[];
    EmptyMemo(g, allOps);
    assert idxs[0..] == idxs;
    for k := 0 to |idxs|
      invariant MemoTrue(g, allOps, memo) && IsPath(g, docVersion, idxs[k..])
      invariant DocThrough(g, allOps, docVersion, doc, idxs[k..]) == DocThrough(g, allOps, [], "", idxs)
    {
      var i := idxs[k];
      DocStep(g, allOps, docVersion, doc, idxs, k);
      var ops;
      ops, memo := BorrowOpsAtVersion(g, allOps, i, docVersion, memo);
      if !AllFit(ops, doc) { return false, ""; }
      doc := ApplyAll(ops, doc);
      docVersion := AdvanceBy(docVersion, i, g[i]);
    }
    DocDone(g, allOps, docVersion, doc, idxs);
  }

  lemma {:induction false} EmptyMemo(g: Graph, ops: seq<seq<Op>>)
    requires |ops| == |g|
    ensures MemoTrue(g, ops, map[])
  {
  }

  lemma {:induction false} DocStep(g: Graph, allOps: seq<seq<Op>>, f: seq<nat>, doc: string, idxs: seq<nat>, k: nat)
    requires |allOps| == |g| && k < |idxs| && IsPath(g, f, idxs[k..])
    ensures var o := idxs[k];
            && Next(g, f, o) && StrictlyAscending(f) && o !in f && IsPath(g, AdvanceBy(f, o, g[o]), idxs[k + 1..])
            && var here := RewriteAt(g, allOps, o, f);
               DocThrough(g, allOps, f, doc, idxs[k..]) ==
               if !AllFit(here, doc) then None else DocThrough(g, allOps, AdvanceBy(f, o, g[o]), ApplyAll(here, doc), idxs[k + 1..])
  {
    hide Hist, Reaches, AdvanceBy, RewriteAt, AllFit, ApplyAll;
    PathNext(g, f, idxs[k..]);
    assert idxs[k..][1..] == idxs[k + 1..];
  }

  lemma {:induction false} DocDone(g: Graph, allOps: seq<seq<Op>>, f: seq<nat>, doc: string, idxs: seq<nat>)
    requires |allOps| == |g| && IsPath(g, f, idxs[|idxs|..])
    ensures DocThrough(g, allOps, f, doc, idxs[|idxs|..]) == Some(doc)
  {
  }

  /** Every operation of the path was made at the version reached just before it. */
  ghost predicate InTurn(g: Graph, f: seq<nat>, path: seq<nat>)
    decreases |path|
  {
    path != [] ==> path[0] < |g| && g[path[0]] == f && InTurn(g, [path[0]], path[1..])
  }

  /** The plain reading: everything applied as it was written. */
  ghost function ApplyInTurn(ops: seq<seq<Op>>, doc: string, path: seq<nat>): Option<string>
    requires forall k | 0 <= k < |path| :: path[k] < |ops|
    decreases |path|
  {
    if path == [] then Some(doc)
    else if !AllFit(ops[path[0]], doc) then None
    else ApplyInTurn(ops, ApplyAll(ops[path[0]], doc), path[1..])
  }

  lemma {:induction false} AdvanceFromParents(f: seq<nat>, o: nat)
    requires StrictlyAscending(f) && o !in f
    ensures AdvanceBy(f, o, f) == [o]
  {
  }

  /** Without concurrency nothing is rewritten: the document is the operations applied in turn. */
  lemma {:induction false} SequentialDoc(g: Graph, ops: seq<seq<Op>>, f: seq<nat>, doc: string, path: seq<nat>)
    requires |ops| == |g| && IsPath(g, f, path) && InTurn(g, f, path)
    ensures forall k | 0 <= k < |path| :: path[k] < |ops|
    ensures DocThrough(g, ops, f, doc, path) == ApplyInTurn(ops, doc, path)
    decreases |path|
  {
    hide Hist, Reaches, AllFit, ApplyAll, AdvanceBy, IsPath, RewriteThrough;
    PathInside(g, f, path);
    if path != [] {
      DocFirst(g, ops, f, doc, path);
      AdvanceFromParents(f, path[0]);
      if AllFit(ops[path[0]], doc) {
        SequentialDoc(g, ops, [path[0]], ApplyAll(ops[path[0]], doc), path[1..]);
      }
    }
  }

  lemma {:induction false} PathInside(g: Graph, f: seq<nat>, path: seq<nat>)
    requires IsPath(g, f, path)
    ensures forall k | 0 <= k < |path| :: path[k] < |g|
  {
    forall k | 0 <= k < |path|
      ensures path[k] < |g|
    {
      assert path[k] in path;
    }
  }

  lemma {:induction false} DocFirst(g: Graph, ops: seq<seq<Op>>, f: seq<nat>, doc: string, path: seq<nat>)
    requires |ops| == |g| && IsPath(g, f, path) && path != []
    ensures var o := path[0];
            && Next(g, f, o) && StrictlyAscending(f) && o !in f && IsPath(g, AdvanceBy(f, o, g[o]), path[1..])
            && var here := RewriteAt(g, ops, o, f);
               DocThrough(g, ops, f, doc, path) ==
               if !AllFit(here, doc) then None else DocThrough(g, ops, AdvanceBy(f, o, g[o]), ApplyAll(here, doc), path[1..])
  {
    DocStep(g, ops, f, doc, path, 0);
    assert path[0..] == path;
  }

  /** Past one concurrent operation, the other one is rewritten against it once. */
  lemma {:induction false} RewrittenOnce(g: Graph, ops: seq<seq<Op>>, f: seq<nat>, o: nat, i: nat)
    requires |ops| == |g| && Next(g, f, o) && Next(g, f, i) && o != i && g[o] == f && g[i] == f
    ensures Next(g, [o], i) && RewriteAt(g, ops, i, [o]) == ListRewritten(ops[i], ops[o], o < i)
  {
    hide ListRewritten, Reaches, Members;
    AdvanceByMeans(g, f, o);
    AdvanceFromParents(f, o);
    HistClosed(g, f);
    assert Hist(g, [o]) == Hist(g, f) + {o};
    assert Hist(g, [o]) - Hist(g, f) == {o};
    OneMember(o, |g|);
    assert o in [o] && o !in f;
    PathBetween(g, i, [o]);
    AtParents(g, ops, o);
    assert [o][0..] == [o];
    PathStep(g, ops, i, f, ops[i], [o], 0);
    PathDone(g, ops, i, [o], ListRewritten(ops[i], ops[o], o < i), [o], [o]);
  }

  lemma {:induction false} OneMember(o: nat, t: nat)
    requires o < t
    ensures Members({o}, t) == [o]
  {
    SameMembers(Members({o}, t), [o]);
  }

  /** Two concurrent operations that fit the document they were written for always merge, and the
      document is the same whichever of them is taken first. */
  lemma {:induction false} ConcurrentPairConverges(g: Graph, ops: seq<seq<Op>>, f: seq<nat>, doc: string, o: nat, i: nat)
    requires |ops| == |g| && Next(g, f, o) && Next(g, f, i) && o < i && g[o] == f && g[i] == f
    requires AllFit(ops[o], doc) && AllFit(ops[i], doc)
    ensures IsPath(g, f, [o, i])
    ensures AllFit(ListRewritten(ops[o], ops[i], false), ApplyAll(ops[i], doc))
    ensures DocThrough(g, ops, f, doc, [o, i]) == Some(ApplyAll(ListRewritten(ops[o], ops[i], false), ApplyAll(ops[i], doc)))
  {
    hide ListRewritten, Reaches, Members, AllFit, ApplyAll, RewriteAt, Hist;
    PairPath(g, f, o, i);
    DocFirst(g, ops, f, doc, [o, i]);
    AdvanceFromParents(f, o);
    assert RewriteAt(g, ops, o, f) == ops[o] by { AtParents(g, ops, o); }
    assert [o, i][1..] == [i];
    DocFirst(g, ops, [o], ApplyAll(ops[o], doc), [i]);
    RewrittenOnce(g, ops, f, o, i);
    ListsConverge(ops[i], ops[o], doc, true);
    assert [i][1..] == [];
  }

  lemma {:induction false} AtParents(g: Graph, ops: seq<seq<Op>>, o: nat)
    requires |ops| == |g| && o < |g| && Next(g, g[o], o)
    ensures RewriteAt(g, ops, o, g[o]) == ops[o]
  {
  }

  lemma {:induction false} PairPath(g: Graph, f: seq<nat>, o: nat, i: nat)
    requires Next(g, f, o) && Next(g, f, i) && o < i && g[o] == f && g[i] == f
    ensures IsPath(g, f, [o, i])
  {
    hide Reaches;
    HistClosed(g, f);
    assert SetOf([o, i]) == {o, i};
  }
}
