/** Lists of half-open version ranges, as the traversals of causal-graph.ts build them. */
module Ranges {

  datatype LVRange = LVRange(start: nat, end: nat)

  /** Which history a version belongs to, relative to a pair of frontiers. */
  datatype DiffFlag = A | B | Shared

  predicate InRanges(rs: seq<LVRange>, x: nat) {
    exists r :: r in rs && r.start <= x < r.end
  }

  /** Ascending ranges, non-empty, disjoint and not touching each other. */
  ghost predicate Ascending(rs: seq<LVRange>) {
    && (forall i | 0 <= i < |rs| :: rs[i].start < rs[i].end)
    && (forall i, j | 0 <= i < j < |rs| :: rs[i].end < rs[j].start)
  }

  ghost predicate Descending(rs: seq<LVRange>) {
    && (forall i | 0 <= i < |rs| :: rs[i].start < rs[i].end)
    && (forall i, j | 0 <= i < j < |rs| :: rs[j].end < rs[i].start)
  }

  /** Adds a range below everything listed so far, joining it to the last one when they touch. */
  function PushReversed(rs: seq<LVRange>, r: LVRange): seq<LVRange> {
    if rs != [] && rs[|rs| - 1].start == r.end
    then rs[|rs| - 1 := LVRange(r.start, rs[|rs| - 1].end)]
    else rs + [r]
  }

  lemma {:induction false} PushReversedRanges(rs: seq<LVRange>, r: LVRange)
    requires Descending(rs) && r.start < r.end
    requires forall i | 0 <= i < |rs| :: r.end <= rs[i].start
    ensures Descending(PushReversed(rs, r))
    ensures forall i | 0 <= i < |PushReversed(rs, r)| :: r.start <= PushReversed(rs, r)[i].start
    ensures forall x: nat :: InRanges(PushReversed(rs, r), x) <==> InRanges(rs, x) || r.start <= x < r.end
  {
    hide InRanges;
    PushReversedDescends(rs, r);
    if rs != [] && rs[|rs| - 1].start == r.end {
      var k := |rs| - 1;
      assert rs == rs[..k] + [rs[k]];
      assert PushReversed(rs, r) == rs[..k] + [LVRange(r.start, rs[k].end)];
      OneMoreRange(rs[..k], rs[k]);
      OneMoreRange(rs[..k], LVRange(r.start, rs[k].end));
    } else {
      OneMoreRange(rs, r);
    }
  }

  lemma {:induction false} PushReversedDescends(rs: seq<LVRange>, r: LVRange)
    requires Descending(rs) && r.start < r.end
    requires forall i | 0 <= i < |rs| :: r.end <= rs[i].start
    ensures Descending(PushReversed(rs, r))
    ensures forall i | 0 <= i < |PushReversed(rs, r)| :: r.start <= PushReversed(rs, r)[i].start
  {
  }

  lemma {:induction false} OneMoreRange(rs: seq<LVRange>, r: LVRange)
    ensures forall x: nat :: InRanges(rs + [r], x) <==> InRanges(rs, x) || r.start <= x < r.end
  {
    forall x: nat
      ensures InRanges(rs + [r], x) <==> InRanges(rs, x) || r.start <= x < r.end
    {
      if InRanges(rs, x) {
        var q :| q in rs && q.start <= x < q.end;
        assert q in rs + [r];
      }
      assert r in rs + [r];
    }
  }

  function Reverse<T(!new)>(s: seq<T>): (r: seq<T>)
    ensures |r| == |s|
    ensures forall i | 0 <= i < |s| :: r[i] == s[|s| - 1 - i]
    ensures forall x :: x in r <==> x in s
  {
    if s == [] then [] else Reverse(s[1..]) + [s[0]]
  }

  lemma {:induction false} ReverseRanges(rs: seq<LVRange>)
    requires Descending(rs)
    ensures Ascending(Reverse(rs))
    ensures forall x: nat :: InRanges(Reverse(rs), x) <==> InRanges(rs, x)
  {
    var rev := Reverse(rs);
    forall x: nat
      ensures InRanges(rev, x) <==> InRanges(rs, x)
    {
      if InRanges(rev, x) {
        var i :| 0 <= i < |rev| && rev[i].start <= x < rev[i].end;
        assert rs[|rs| - 1 - i] in rs;
      }
      if InRanges(rs, x) {
        var i :| 0 <= i < |rs| && rs[i].start <= x < rs[i].end;
        assert rev[|rs| - 1 - i] in rev;
      }
    }
  }
}

/** The max-first priority queue of the `priorityqueuejs` package, as the multiset it holds. */
module PriorityQueue {

  predicate IsMax(queue: multiset<nat>, v: nat) {
    v in queue && forall w | w in queue :: w <= v
  }

  lemma {:induction false} MaxExists(queue: multiset<nat>)
    requires queue != multiset{}
    ensures exists v :: IsMax(queue, v)
    decreases |queue|
  {
    var w :| w in queue;
    var rest := queue - multiset{w};
    if rest == multiset{} {
      assert queue == multiset{w};
      assert IsMax(queue, w);
    } else {
      MaxExists(rest);
      var v :| IsMax(rest, v);
      var m := if v < w then w else v;
      assert IsMax(queue, m) by {
        forall x | x in queue ensures x <= m {
          if x != w { assert x in rest; }
        }
      }
    }
  }

  method Peek(queue: multiset<nat>) returns (v: nat)
    requires queue != multiset{}
    ensures IsMax(queue, v)
  {
    MaxExists(queue);
    v :| IsMax(queue, v);
  }
}
