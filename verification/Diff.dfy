/** `diff` of causal-graph.ts: a max-first traversal of two histories at once that stops as soon
    as everything still queued is known to be shared. */
module Diff {
  import opened Dag
  import opened RleGraph
  import opened Ranges
  import opened PriorityQueue

  ghost predicate Covers(flag: DiffFlag, side: DiffFlag) {
    flag == side || flag == Shared
  }

  /** `x` is in the history of a queued version that is flagged as part of `side`. */
  ghost predicate FromQueue(g: Graph, queue: multiset<nat>, flags: map<nat, DiffFlag>, side: DiffFlag, x: nat)
    requires WellFormed(g)
  {
    exists q :: q in queue && q in flags && q < |g| && Covers(flags[q], side) && Reaches(g, q, x)
  }

  ghost function Queued(queue: multiset<nat>, flags: map<nat, DiffFlag>): set<nat> {
    set q | q in flags && q in queue
  }

  ghost function QueuedShared(queue: multiset<nat>, flags: map<nat, DiffFlag>): set<nat> {
    set q | q in flags && q in queue && flags[q] == Shared
  }

  /** Every version is queued at most once, has a flag, and `numShared` counts the shared ones. */
  ghost predicate QueueInv(queue: multiset<nat>, flags: map<nat, DiffFlag>, numShared: int) {
    && (forall q | q in queue :: q in flags && queue[q] == 1)
    && numShared == |QueuedShared(queue, flags)|
  }

  lemma {:induction false} QueueSize(queue: multiset<nat>, flags: map<nat, DiffFlag>, numShared: int)
    requires QueueInv(queue, flags, numShared)
    ensures |queue| >= numShared >= 0
    ensures |queue| == numShared <==> forall q | q in queue :: flags[q] == Shared
  {
    var qs, ss := Queued(queue, flags), QueuedShared(queue, flags);
    assert multiset(qs) == queue;
    assert ss <= qs;
    assert qs == ss + (qs - ss);
    if |queue| == numShared {
      assert qs - ss == {};
    }
    if forall q | q in queue :: flags[q] == Shared {
      assert qs == ss;
    }
  }

  lemma {:induction false} EnqNew(queue: multiset<nat>, flags: map<nat, DiffFlag>, numShared: int, v: nat, flag: DiffFlag)
    requires QueueInv(queue, flags, numShared)
    requires v !in flags
    ensures QueueInv(queue + multiset{v}, flags[v := flag], if flag == Shared then numShared + 1 else numShared)
  {
    var queue', flags' := queue + multiset{v}, flags[v := flag];
    assert v !in queue;
    assert QueuedShared(queue', flags') == QueuedShared(queue, flags) + (if flag == Shared then {v} else {});
  }

  lemma {:induction false} EnqMixed(queue: multiset<nat>, flags: map<nat, DiffFlag>, numShared: int, v: nat)
    requires QueueInv(queue, flags, numShared)
    requires v in queue && flags[v] != Shared
    ensures QueueInv(queue, flags[v := Shared], numShared + 1)
  {
    assert QueuedShared(queue, flags[v := Shared]) == QueuedShared(queue, flags) + {v};
  }

  method Enq(queue: multiset<nat>, flags: map<nat, DiffFlag>, numShared: int, v: nat, flag: DiffFlag, ghost g: Graph)
    returns (queue': multiset<nat>, flags': map<nat, DiffFlag>, numShared': int)
    requires WellFormed(g) && v < |g|
    requires QueueInv(queue, flags, numShared)
    requires v in flags ==> v in queue
    ensures QueueInv(queue', flags', numShared')
    ensures forall q :: q in queue' <==> q in queue || q == v
    ensures flags'.Keys == flags.Keys + {v}
    ensures forall side, x: nat | side != Shared ::
              FromQueue(g, queue', flags', side, x) <==> FromQueue(g, queue, flags, side, x) || (Covers(flag, side) && Reaches(g, v, x))
  {
    queue', flags', numShared' := queue, flags, numShared;
    if v !in flags {
      EnqNew(queue, flags, numShared, v, flag);
      queue' := queue + multiset{v};
      flags' := flags[v := flag];
      if flag == Shared {
        numShared' := numShared + 1;
      }
    } else if flag != flags[v] && flags[v] != Shared {
      EnqMixed(queue, flags, numShared, v);
      flags' := flags[v := Shared];
      numShared' := numShared + 1;
    }
    EnqFrom(g, queue, flags, queue', flags', v, flag);
  }

  lemma {:induction false} EnqFrom(g: Graph, queue: multiset<nat>, flags: map<nat, DiffFlag>, queue': multiset<nat>, flags': map<nat, DiffFlag>, v: nat, flag: DiffFlag)
    requires WellFormed(g) && v < |g|
    requires v in flags ==> v in queue
    requires forall q | q in queue :: q in flags
    requires forall q :: q in queue' <==> q in queue || q == v
    requires v in flags'
    requires forall q | q != v && q in flags :: q in flags' && flags'[q] == flags[q]
    requires forall side | side != Shared :: Covers(flags'[v], side) <==> (v in flags && Covers(flags[v], side)) || Covers(flag, side)
    ensures forall side, x: nat | side != Shared ::
              FromQueue(g, queue', flags', side, x) <==> FromQueue(g, queue, flags, side, x) || (Covers(flag, side) && Reaches(g, v, x))
  {
    forall side, x: nat | side != Shared
      ensures FromQueue(g, queue', flags', side, x) <==> FromQueue(g, queue, flags, side, x) || (Covers(flag, side) && Reaches(g, v, x))
    {
      if FromQueue(g, queue, flags, side, x) {
        var q :| q in queue && q in flags && q < |g| && Covers(flags[q], side) && Reaches(g, q, x);
        assert q in queue' && q in flags' && Covers(flags'[q], side);
      }
      if Covers(flag, side) && Reaches(g, v, x) {
        assert v in queue' && v in flags' && Covers(flags'[v], side);
      }
    }
  }

  method Deq(queue: multiset<nat>, flags: map<nat, DiffFlag>, numShared: int)
    returns (v: nat, queue': multiset<nat>, numShared': int)
    requires QueueInv(queue, flags, numShared) && queue != multiset{}
    ensures IsMax(queue, v) && queue' == queue - multiset{v}
    ensures forall q :: q in queue <==> q in queue' || q == v
    ensures forall q | q in queue' :: q < v
    ensures QueueInv(queue', flags, numShared')
  {
    v := Peek(queue);
    queue' := queue - multiset{v};
    forall q | q in queue' ensures q < v {
      assert q in queue;
    }
    numShared' := numShared;
    assert QueuedShared(queue', flags) == QueuedShared(queue, flags) - {v};
    if flags[v] == Shared {
      numShared' := numShared - 1;
    }
  }

  /** The part of the answer that is settled: everything at or above `lim`. */
  ghost predicate Settled(g: Graph, a: seq<nat>, b: seq<nat>, out: seq<LVRange>, lim: nat)
    requires WellFormed(g) && InGraph(g, a) && InGraph(g, b)
  {
    && Descending(out)
    && (forall i | 0 <= i < |out| :: lim <= out[i].start)
    && (forall x: nat | lim <= x :: InRanges(out, x) <==> InHist(g, a, x) && !InHist(g, b, x))
  }

  /** What is left below `lim` is exactly what the queue still reaches. */
  ghost predicate Pending(g: Graph, a: seq<nat>, b: seq<nat>, queue: multiset<nat>, flags: map<nat, DiffFlag>, lim: nat)
    requires WellFormed(g) && InGraph(g, a) && InGraph(g, b)
  {
    && lim <= |g|
    && (forall q | q in queue :: q < lim)
    && (forall q | q in flags :: q in queue || lim <= q)
    && (forall x: nat | x < lim :: InHist(g, a, x) <==> FromQueue(g, queue, flags, A, x))
    && (forall x: nat | x < lim :: InHist(g, b, x) <==> FromQueue(g, queue, flags, B, x))
  }

  /** Mid-entry: below `v + 1` the two histories are what `v` (flagged `flag`) and the queue reach. */
  ghost predicate Midway(g: Graph, a: seq<nat>, b: seq<nat>, queue: multiset<nat>, flags: map<nat, DiffFlag>, v: nat, flag: DiffFlag)
    requires WellFormed(g) && InGraph(g, a) && InGraph(g, b) && v < |g|
  {
    && (forall x: nat | x <= v :: InHist(g, a, x) <==> FromQueue(g, queue, flags, A, x) || (Covers(flag, A) && Reaches(g, v, x)))
    && (forall x: nat | x <= v :: InHist(g, b, x) <==> FromQueue(g, queue, flags, B, x) || (Covers(flag, B) && Reaches(g, v, x)))
  }

  /** What a queue reaches once its maximum has been taken out. */
  lemma {:induction false} DeqFrom(g: Graph, queue: multiset<nat>, flags: map<nat, DiffFlag>, v: nat, side: DiffFlag)
    requires WellFormed(g) && v < |g| && v in queue && v in flags && queue[v] == 1
    ensures forall x: nat :: FromQueue(g, queue, flags, side, x) <==>
              FromQueue(g, queue - multiset{v}, flags, side, x) || (Covers(flags[v], side) && Reaches(g, v, x))
  {
    var rest := queue - multiset{v};
    forall x: nat
      ensures FromQueue(g, queue, flags, side, x) <==> FromQueue(g, rest, flags, side, x) || (Covers(flags[v], side) && Reaches(g, v, x))
    {
      if FromQueue(g, queue, flags, side, x) {
        var q :| q in queue && q in flags && q < |g| && Covers(flags[q], side) && Reaches(g, q, x);
        assert q == v || q in rest;
      }
    }
  }

  /** Nothing queued at or below `top` reaches above it. */
  lemma {:induction false} QueueReachesBelow(g: Graph, queue: multiset<nat>, flags: map<nat, DiffFlag>, side: DiffFlag, top: nat)
    requires WellFormed(g) && forall q | q in queue :: q <= top
    ensures forall x: nat | top < x :: !FromQueue(g, queue, flags, side, x)
  {
    forall x: nat | top < x
      ensures !FromQueue(g, queue, flags, side, x)
    {
      if FromQueue(g, queue, flags, side, x) {
        var q :| q in queue && q in flags && q < |g| && Covers(flags[q], side) && Reaches(g, q, x);
        ReachesLower(g, q, x);
      }
    }
  }

  method EnqAll(queue: multiset<nat>, flags: map<nat, DiffFlag>, numShared: int, vs: seq<nat>, flag: DiffFlag, ghost g: Graph)
    returns (queue': multiset<nat>, flags': map<nat, DiffFlag>, numShared': int)
    requires WellFormed(g) && InGraph(g, vs)
    requires QueueInv(queue, flags, numShared)
    requires forall v | v in vs && v in flags :: v in queue
    ensures QueueInv(queue', flags', numShared')
    ensures forall q :: q in queue' <==> q in queue || q in vs
    ensures flags'.Keys == flags.Keys + (set v | v in vs)
    ensures forall side, x: nat | side != Shared ::
              FromQueue(g, queue', flags', side, x) <==> FromQueue(g, queue, flags, side, x) || (Covers(flag, side) && InHist(g, vs, x))
  {
    hide FromQueue, InHist, QueueInv, Reaches;
    queue', flags', numShared' := queue, flags, numShared;
    NoneInHist(g);
    for i := 0 to |vs|
      invariant QueueInv(queue', flags', numShared')
      invariant forall q :: q in queue' <==> q in queue || q in vs[..i]
      invariant flags'.Keys == flags.Keys + (set v | v in vs[..i])
      invariant InGraph(g, vs[..i])
      invariant forall side, x: nat | side != Shared ::
                  FromQueue(g, queue', flags', side, x) <==> FromQueue(g, queue, flags, side, x) || (Covers(flag, side) && InHist(g, vs[..i], x))
    {
      assert vs[i] in vs;
      queue', flags', numShared' := Enq(queue', flags', numShared', vs[i], flag, g);
      InHistAppend(g, vs[..i], vs[i]);
      TakeOneMore(vs, i);
    }
    assert vs[..|vs|] == vs;
  }

  lemma {:induction false} TakeOneMore(vs: seq<nat>, i: nat)
    requires i < |vs|
    ensures vs[..i + 1] == vs[..i] + [vs[i]]
    ensures forall v :: v in vs[..i + 1] <==> v in vs[..i] || v == vs[i]
  {
    assert vs[..i + 1] == vs[..i] + [vs[i]];
  }

  lemma {:induction false} NoneInHist(g: Graph)
    requires WellFormed(g)
    ensures InGraph(g, []) && forall x: nat :: !InHist(g, [], x)
  {
  }

  lemma {:induction false} InHistAppend(g: Graph, f: seq<nat>, v: nat)
    requires WellFormed(g) && InGraph(g, f) && v < |g|
    ensures InGraph(g, f + [v])
    ensures forall x: nat :: InHist(g, f + [v], x) <==> InHist(g, f, x) || Reaches(g, v, x)
  {
    forall x: nat
      ensures InHist(g, f + [v], x) <==> InHist(g, f, x) || Reaches(g, v, x)
    {
      assert v in f + [v];
      if InHist(g, f, x) {
        var w :| w in f && Reaches(g, w, x);
        assert w in f + [v];
      }
    }
  }

  function MarkRun(out: seq<LVRange>, start: nat, end: nat, flag: DiffFlag, side: DiffFlag): seq<LVRange> {
    if flag == side then PushReversed(out, LVRange(start, end)) else out
  }

  lemma {:induction false} MarkRunSettles(g: Graph, a: seq<nat>, b: seq<nat>, out: seq<LVRange>, start: nat, end: nat, flag: DiffFlag, side: DiffFlag)
    requires WellFormed(g) && InGraph(g, a) && InGraph(g, b)
    requires start < end && Settled(g, a, b, out, end)
    requires forall x: nat | start <= x < end :: InHist(g, a, x) && !InHist(g, b, x) <==> flag == side
    ensures Settled(g, a, b, MarkRun(out, start, end, flag, side), start)
  {
    if flag == side {
      PushReversedRanges(out, LVRange(start, end));
    }
    forall x: nat | start <= x && !(end <= x)
      ensures !InRanges(out, x)
    {
    }
  }

  /** Taking the maximum `v` of the queue out leaves `v` and the rest to account for the histories. */
  lemma {:induction false} StartRun(g: Graph, a: seq<nat>, b: seq<nat>, queue: multiset<nat>, flags: map<nat, DiffFlag>, numShared: int, lim: nat, v: nat, out: seq<LVRange>)
    requires WellFormed(g) && InGraph(g, a) && InGraph(g, b)
    requires Pending(g, a, b, queue, flags, lim) && QueueInv(queue, flags, numShared)
    requires IsMax(queue, v)
    ensures v < |g| && Midway(g, a, b, queue - multiset{v}, flags, v, flags[v])
    ensures Settled(g, a, b, out, lim) ==> Settled(g, a, b, out, v + 1)
    ensures Settled(g, b, a, out, lim) ==> Settled(g, b, a, out, v + 1)
  {
    DeqFrom(g, queue, flags, v, A);
    DeqFrom(g, queue, flags, v, B);
    QueueReachesBelow(g, queue, flags, A, v);
    QueueReachesBelow(g, queue, flags, B, v);
    if Settled(g, a, b, out, lim) || Settled(g, b, a, out, lim) {
      forall x: nat | v < x < lim
        ensures !InRanges(out, x) && !InHist(g, a, x) && !InHist(g, b, x)
      {
      }
    }
  }

  /** A queued version of the same entry with the same flag adds nothing. */
  lemma {:induction false} AbsorbSame(es: seq<CGEntry>, i: nat, a: seq<nat>, b: seq<nat>, queue: multiset<nat>, flags: map<nat, DiffFlag>, v: nat, v2: nat, flag: DiffFlag)
    requires ValidEntries(es) && WellFormed(Expand(es)) && InGraph(Expand(es), a) && InGraph(Expand(es), b)
    requires i < |es| && es[i].version <= v2 <= v < es[i].vEnd && v < |Expand(es)|
    requires Midway(Expand(es), a, b, queue, flags, v, flag)
    requires v2 in queue && queue[v2] == 1 && v2 in flags && flags[v2] == flag
    ensures Midway(Expand(es), a, b, queue - multiset{v2}, flags, v, flag)
  {
    var g := Expand(es);
    RunReaches(es, i, v, v2);
    DeqFrom(g, queue, flags, v2, A);
    DeqFrom(g, queue, flags, v2, B);
    forall x: nat | Reaches(g, v2, x)
      ensures Reaches(g, v, x)
    {
      ReachesLower(g, v2, x);
    }
  }

  /** A queued version with another flag closes the run above it; below it everything is shared. */
  lemma {:induction false} SwitchRun(es: seq<CGEntry>, i: nat, a: seq<nat>, b: seq<nat>, queue: multiset<nat>, flags: map<nat, DiffFlag>, v: nat, v2: nat, flag: DiffFlag)
    requires ValidEntries(es) && WellFormed(Expand(es)) && InGraph(Expand(es), a) && InGraph(Expand(es), b)
    requires i < |es| && es[i].version <= v2 < v < es[i].vEnd && v < |Expand(es)|
    requires Midway(Expand(es), a, b, queue, flags, v, flag)
    requires IsMax(queue, v2) && queue[v2] == 1 && v2 in flags && flags[v2] != flag
    ensures Midway(Expand(es), a, b, queue - multiset{v2}, flags, v2, Shared)
    ensures forall x: nat | v2 < x <= v :: InHist(Expand(es), a, x) <==> Covers(flag, A)
    ensures forall x: nat | v2 < x <= v :: InHist(Expand(es), b, x) <==> Covers(flag, B)
  {
    hide Expand, ValidEntries, Reaches, InHist, FromQueue, WellFormed;
    var g := Expand(es);
    RunReaches(es, i, v, v2);
    forall x: nat | v2 < x <= v
      ensures Reaches(g, v, x)
    {
      RunReaches(es, i, v, x);
    }
    DeqFrom(g, queue, flags, v2, A);
    DeqFrom(g, queue, flags, v2, B);
    QueueReachesBelow(g, queue, flags, A, v2);
    QueueReachesBelow(g, queue, flags, B, v2);
  }

  /** The rest of the entry has one flag, and below it the parents take over. */
  lemma {:induction false} FinishRun(es: seq<CGEntry>, i: nat, a: seq<nat>, b: seq<nat>, queue: multiset<nat>, flags: map<nat, DiffFlag>, v: nat, flag: DiffFlag)
    requires ValidEntries(es) && WellFormed(Expand(es)) && InGraph(Expand(es), a) && InGraph(Expand(es), b)
    requires i < |es| && es[i].version <= v < es[i].vEnd && v < |Expand(es)|
    requires Midway(Expand(es), a, b, queue, flags, v, flag)
    requires forall q | q in queue :: q < es[i].version
    ensures InGraph(Expand(es), es[i].parents)
    ensures forall x: nat | es[i].version <= x <= v :: InHist(Expand(es), a, x) <==> Covers(flag, A)
    ensures forall x: nat | es[i].version <= x <= v :: InHist(Expand(es), b, x) <==> Covers(flag, B)
    ensures forall x: nat | x < es[i].version ::
              InHist(Expand(es), a, x) <==> FromQueue(Expand(es), queue, flags, A, x) || (Covers(flag, A) && InHist(Expand(es), es[i].parents, x))
    ensures forall x: nat | x < es[i].version ::
              InHist(Expand(es), b, x) <==> FromQueue(Expand(es), queue, flags, B, x) || (Covers(flag, B) && InHist(Expand(es), es[i].parents, x))
  {
    var g := Expand(es);
    var e := es[i];
    forall x: nat | e.version <= x <= v
      ensures Reaches(g, v, x) && !FromQueue(g, queue, flags, A, x) && !FromQueue(g, queue, flags, B, x)
    {
      RunReaches(es, i, v, x);
      if e.version > 0 {
        QueueReachesBelow(g, queue, flags, A, e.version - 1);
        QueueReachesBelow(g, queue, flags, B, e.version - 1);
      }
    }
    forall x: nat | x < e.version
      ensures Reaches(g, v, x) <==> InHist(g, e.parents, x)
    {
      EntryReaches(es, i, v, x);
    }
    forall p | p in e.parents ensures p < |g| { }
  }

  /** The inner loop of `diff`: takes every queued version of entry `idx` off the queue. */
  method DrainEntry(es: seq<CGEntry>, idx: nat, v0: nat, flag0: DiffFlag,
                    queue0: multiset<nat>, flags: map<nat, DiffFlag>, numShared0: int, aOnly0: seq<LVRange>, bOnly0: seq<LVRange>,
                    ghost a: seq<nat>, ghost b: seq<nat>)
    returns (v: nat, flag: DiffFlag, queue: multiset<nat>, numShared: int, aOnly: seq<LVRange>, bOnly: seq<LVRange>)
    requires ValidEntries(es) && WellFormed(Expand(es)) && InGraph(Expand(es), a) && InGraph(Expand(es), b)
    requires idx < |es| && es[idx].version <= v0 < es[idx].vEnd && v0 < |Expand(es)|
    requires QueueInv(queue0, flags, numShared0)
    requires forall q | q in queue0 :: q < v0
    requires Midway(Expand(es), a, b, queue0, flags, v0, flag0)
    requires Settled(Expand(es), a, b, aOnly0, v0 + 1) && Settled(Expand(es), b, a, bOnly0, v0 + 1)
    ensures es[idx].version <= v <= v0
    ensures QueueInv(queue, flags, numShared)
    ensures forall q | q in queue :: q in queue0 && q < es[idx].version
    ensures forall q | q in queue0 :: q in queue || es[idx].version <= q
    ensures Midway(Expand(es), a, b, queue, flags, v, flag)
    ensures Settled(Expand(es), a, b, aOnly, v + 1) && Settled(Expand(es), b, a, bOnly, v + 1)
  {
    v, flag, queue, numShared, aOnly, bOnly := v0, flag0, queue0, numShared0, aOnly0, bOnly0;
    while queue != multiset{}
      invariant QueueInv(queue, flags, numShared)
      invariant es[idx].version <= v <= v0
      invariant forall q | q in queue :: q in queue0 && q < v
      invariant forall q | q in queue0 :: q in queue || es[idx].version <= q
      invariant Midway(Expand(es), a, b, queue, flags, v, flag)
      invariant Settled(Expand(es), a, b, aOnly, v + 1) && Settled(Expand(es), b, a, bOnly, v + 1)
      decreases |queue|
    {
      var peek := Peek(queue);
      if peek < es[idx].version { break; }
      ghost var queue1 := queue;
      var v2;
      v2, queue, numShared := Deq(queue, flags, numShared);
      if flags[v2] != flag {
        SwitchRun(es, idx, a, b, queue1, flags, v, v2, flag);
        aOnly, bOnly := MarkBoth(es, a, b, v2 + 1, v, flag, aOnly, bOnly);
        v, flag := v2, Shared;
      } else {
        AbsorbSame(es, idx, a, b, queue1, flags, v, v2, flag);
      }
    }
  }

  /** `markRun` of the source; its 'end < start' error cannot occur. */
  method MarkBoth(ghost es: seq<CGEntry>, ghost a: seq<nat>, ghost b: seq<nat>, start: nat, endInclusive: nat, flag: DiffFlag,
                  aOnly0: seq<LVRange>, bOnly0: seq<LVRange>)
    returns (aOnly: seq<LVRange>, bOnly: seq<LVRange>)
    requires WellFormed(Expand(es)) && InGraph(Expand(es), a) && InGraph(Expand(es), b)
    requires start <= endInclusive
    requires Settled(Expand(es), a, b, aOnly0, endInclusive + 1) && Settled(Expand(es), b, a, bOnly0, endInclusive + 1)
    requires forall x: nat | start <= x <= endInclusive :: InHist(Expand(es), a, x) <==> Covers(flag, A)
    requires forall x: nat | start <= x <= endInclusive :: InHist(Expand(es), b, x) <==> Covers(flag, B)
    ensures Settled(Expand(es), a, b, aOnly, start) && Settled(Expand(es), b, a, bOnly, start)
  {
    MarkRunSettles(Expand(es), a, b, aOnly0, start, endInclusive + 1, flag, A);
    MarkRunSettles(Expand(es), b, a, bOnly0, start, endInclusive + 1, flag, B);
    aOnly, bOnly := MarkRun(aOnly0, start, endInclusive + 1, flag, A), MarkRun(bOnly0, start, endInclusive + 1, flag, B);
  }

  /** One round of the outer loop: settles the entry of the largest queued version. */
  method DiffRound(es: seq<CGEntry>, queue0: multiset<nat>, flags0: map<nat, DiffFlag>, numShared0: int, aOnly0: seq<LVRange>, bOnly0: seq<LVRange>,
                   ghost a: seq<nat>, ghost b: seq<nat>, ghost lim0: nat)
    returns (queue: multiset<nat>, flags: map<nat, DiffFlag>, numShared: int, aOnly: seq<LVRange>, bOnly: seq<LVRange>, ghost lim: nat)
    requires ValidEntries(es) && WellFormed(Expand(es)) && InGraph(Expand(es), a) && InGraph(Expand(es), b)
    requires QueueInv(queue0, flags0, numShared0) && queue0 != multiset{}
    requires Pending(Expand(es), a, b, queue0, flags0, lim0)
    requires Settled(Expand(es), a, b, aOnly0, lim0) && Settled(Expand(es), b, a, bOnly0, lim0)
    ensures lim < lim0
    ensures QueueInv(queue, flags, numShared)
    ensures Pending(Expand(es), a, b, queue, flags, lim)
    ensures Settled(Expand(es), a, b, aOnly, lim) && Settled(Expand(es), b, a, bOnly, lim)
  {
    hide Expand, Reaches, InHist, FromQueue, Settled, Midway;
    ghost var g := Expand(es);
    ExpandWellFormed(es);
    var v;
    v, queue, numShared := Deq(queue0, flags0, numShared0);
    StartRun(g, a, b, queue0, flags0, numShared0, lim0, v, aOnly0);
    StartRun(g, a, b, queue0, flags0, numShared0, lim0, v, bOnly0);
    var idx := FindEntryContaining(es, v);
    var flag;
    v, flag, queue, numShared, aOnly, bOnly := DrainEntry(es, idx, v, flags0[v], queue, flags0, numShared, aOnly0, bOnly0, a, b);
    FinishRun(es, idx, a, b, queue, flags0, v, flag);
    aOnly, bOnly := MarkBoth(es, a, b, es[idx].version, v, flag, aOnly, bOnly);
    ghost var drained := queue;
    queue, flags, numShared := EnqAll(queue, flags0, numShared, es[idx].parents, flag, g);
    lim := es[idx].version;
    NextPending(g, a, b, drained, flags0, flag, es[idx].parents, queue, flags, lim);
  }

  /** The versions in one history and not in the other, as ascending runs. */
  method Diff(es: seq<CGEntry>, a: seq<nat>, b: seq<nat>) returns (aOnly: seq<LVRange>, bOnly: seq<LVRange>)
    requires ValidEntries(es)
    requires WellFormed(Expand(es)) && InGraph(Expand(es), a) && InGraph(Expand(es), b)
    ensures Ascending(aOnly) && Ascending(bOnly)
    ensures forall x: nat :: InRanges(aOnly, x) <==> InHist(Expand(es), a, x) && !InHist(Expand(es), b, x)
    ensures forall x: nat :: InRanges(bOnly, x) <==> InHist(Expand(es), b, x) && !InHist(Expand(es), a, x)
  {
    hide Expand, FromQueue, QueueInv, Pending, Settled, InHist;
    ghost var g := Expand(es);
    var queue: multiset<nat>, flags: map<nat, DiffFlag>, numShared := multiset{}, map[], 0;
    NothingQueued(g, a, b);
    queue, flags, numShared := EnqAll(queue, flags, numShared, a, A, g);
    queue, flags, numShared := EnqAll(queue, flags, numShared, b, B, g);

    aOnly, bOnly := [], [];
    ghost var lim: nat := |g|;
    InitiallyPending(g, a, b, queue, flags);
    while |queue| > numShared
      invariant QueueInv(queue, flags, numShared)
      invariant Pending(g, a, b, queue, flags, lim)
      invariant Settled(g, a, b, aOnly, lim) && Settled(g, b, a, bOnly, lim)
      decreases lim
    {
      QueueSize(queue, flags, numShared);
      queue, flags, numShared, aOnly, bOnly, lim := DiffRound(es, queue, flags, numShared, aOnly, bOnly, a, b, lim);
    }
    Exhausted(g, a, b, queue, flags, numShared, lim, aOnly, bOnly);
    aOnly, bOnly := Reverse(aOnly), Reverse(bOnly);
  }

  lemma {:induction false} NothingQueued(g: Graph, a: seq<nat>, b: seq<nat>)
    requires WellFormed(g) && InGraph(g, a) && InGraph(g, b)
    ensures QueueInv(multiset{}, map[], 0)
    ensures forall side, x: nat :: !FromQueue(g, multiset{}, map[], side, x)
    ensures Settled(g, a, b, [], |g|) && Settled(g, b, a, [], |g|)
  {
    forall x: nat | InHist(g, a, x) || InHist(g, b, x)
      ensures x < |g|
    {
      if InHist(g, a, x) { InHistBound(g, a, x); } else { InHistBound(g, b, x); }
    }
  }

  lemma {:induction false} NextPending(g: Graph, a: seq<nat>, b: seq<nat>, queue: multiset<nat>, flags: map<nat, DiffFlag>, flag: DiffFlag,
                    parents: seq<nat>, queue': multiset<nat>, flags': map<nat, DiffFlag>, lim: nat)
    requires WellFormed(g) && InGraph(g, a) && InGraph(g, b) && InGraph(g, parents) && lim <= |g|
    requires forall q | q in queue || q in parents :: q < lim
    requires forall q | q in flags :: q in queue || lim <= q
    requires forall q :: q in queue' <==> q in queue || q in parents
    requires flags'.Keys == flags.Keys + (set v | v in parents)
    requires forall side, x: nat | side != Shared ::
               FromQueue(g, queue', flags', side, x) <==> FromQueue(g, queue, flags, side, x) || (Covers(flag, side) && InHist(g, parents, x))
    requires forall x: nat | x < lim :: InHist(g, a, x) <==> FromQueue(g, queue, flags, A, x) || (Covers(flag, A) && InHist(g, parents, x))
    requires forall x: nat | x < lim :: InHist(g, b, x) <==> FromQueue(g, queue, flags, B, x) || (Covers(flag, B) && InHist(g, parents, x))
    ensures Pending(g, a, b, queue', flags', lim)
  {
  }

  lemma {:induction false} InitiallyPending(g: Graph, a: seq<nat>, b: seq<nat>, queue: multiset<nat>, flags: map<nat, DiffFlag>)
    requires WellFormed(g) && InGraph(g, a) && InGraph(g, b)
    requires forall q :: q in queue <==> q in a || q in b
    requires forall q | q in flags :: q in queue
    requires forall x: nat :: FromQueue(g, queue, flags, A, x) <==> InHist(g, a, x)
    requires forall x: nat :: FromQueue(g, queue, flags, B, x) <==> InHist(g, b, x)
    ensures Pending(g, a, b, queue, flags, |g|)
    ensures Settled(g, a, b, [], |g|) && Settled(g, b, a, [], |g|)
  {
    forall x: nat | |g| <= x
      ensures !InHist(g, a, x) && !InHist(g, b, x)
    {
      if InHist(g, a, x) { InHistBound(g, a, x); }
      if InHist(g, b, x) { InHistBound(g, b, x); }
    }
  }

  /** Once only shared versions are queued the two histories agree on everything below. */
  lemma {:induction false} Exhausted(g: Graph, a: seq<nat>, b: seq<nat>, queue: multiset<nat>, flags: map<nat, DiffFlag>, numShared: int, lim: nat, aOnly: seq<LVRange>, bOnly: seq<LVRange>)
    requires WellFormed(g) && InGraph(g, a) && InGraph(g, b)
    requires Pending(g, a, b, queue, flags, lim)
    requires QueueInv(queue, flags, numShared) && |queue| <= numShared
    requires Settled(g, a, b, aOnly, lim) && Settled(g, b, a, bOnly, lim)
    ensures Ascending(Reverse(aOnly)) && Ascending(Reverse(bOnly))
    ensures forall x: nat :: InRanges(Reverse(aOnly), x) <==> InHist(g, a, x) && !InHist(g, b, x)
    ensures forall x: nat :: InRanges(Reverse(bOnly), x) <==> InHist(g, b, x) && !InHist(g, a, x)
  {
    QueueSize(queue, flags, numShared);
    forall x: nat | x < lim
      ensures InHist(g, a, x) <==> InHist(g, b, x)
    {
      assert FromQueue(g, queue, flags, A, x) <==> FromQueue(g, queue, flags, B, x);
    }
    ReverseRanges(aOnly);
    ReverseRanges(bOnly);
  }
}
