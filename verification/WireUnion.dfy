/** A whole message: writing out the versions a reader may lack and merging them there makes the
    union of the two graphs. */
module WireUnion {
  import opened Dag
  import opened ListLog
  import opened WireFormat
  import opened WireRoundTrip
  import opened WireMerge

  // ---- What a graph says, by ID ----

  datatype VersionId = VersionId(name: Name, seqNo: nat)

  ghost function NamedId(c: Cg, v: nat): VersionId
    requires ValidCg(c) && v < |c.ids|
  {
    VersionId(c.names[c.ids[v].agent], c.ids[v].seqNo)
  }

  ghost function NamedParents(c: Cg, v: nat): (r: set<VersionId>)
    requires ValidCg(c) && v < |c.ids|
  {
    set p | p in c.g[v] :: NamedId(c, p)
  }

  ghost function Known(c: Cg): (r: set<VersionId>)
    requires ValidCg(c)
  {
    set v: nat | v < |c.ids| :: NamedId(c, v)
  }

  ghost function VersionOf(c: Cg, id: VersionId): (v: nat)
    requires ValidCg(c) && id in Known(c)
    ensures v < |c.ids| && NamedId(c, v) == id
  {
    var v: nat :| v < |c.ids| && NamedId(c, v) == id; v
  }

  /** Every ID with the IDs of its parents. */
  ghost function Facts(c: Cg): (r: map<VersionId, set<VersionId>>)
    requires ValidCg(c)
    ensures r.Keys == Known(c)
  {
    map id | id in Known(c) :: NamedParents(c, VersionOf(c, id))
  }

  lemma {:induction false} FactsAt(c: Cg, v: nat)
    requires ValidCg(c) && v < |c.ids|
    ensures NamedId(c, v) in Facts(c) && Facts(c)[NamedId(c, v)] == NamedParents(c, v)
  {
    var id := NamedId(c, v);
    assert id in Known(c);
    var u := VersionOf(c, id);
    assert c.ids[u].agent == c.ids[v].agent && c.ids[u] == c.ids[v];
  }

  lemma {:induction false} SameIsNamed(s: Cg, v: nat, c: Cg, u: nat)
    requires ValidCg(s) && ValidCg(c) && v < |s.ids| && u < |c.ids|
    ensures SameId(s, v, c, u) <==> NamedId(s, v) == NamedId(c, u)
  {
  }

  lemma {:induction false} KnownIsNamed(s: Cg, v: nat, c: Cg)
    requires ValidCg(s) && ValidCg(c) && v < |s.ids|
    ensures KnownIn(s, v, c) <==> NamedId(s, v) in Known(c)
  {
    hide SameId, ValidCg, NamedId;
    if KnownIn(s, v, c) {
      var u: nat :| SameId(s, v, c, u);
      InRange(s, v, c, u);
      SameIsNamed(s, v, c, u);
    }
    if NamedId(s, v) in Known(c) {
      SameIsNamed(s, v, c, VersionOf(c, NamedId(s, v)));
    }
  }

  lemma {:induction false} Sizes(c: Cg)
    requires ValidCg(c)
    ensures |c.ids| == |c.g| && forall v, p | 0 <= v < |c.g| && p in c.g[v] :: p < |c.ids|
  {
  }

  /** Parents that are the same one by one are the same set of IDs, and the other way round. */
  lemma {:induction false} SameParentsNamed(s: Cg, v: nat, c: Cg, u: nat)
    requires ValidCg(s) && ValidCg(c) && v < |s.ids| && u < |c.ids|
    ensures SameParents(s, v, c, u) <==> NamedParents(s, v) == NamedParents(c, u)
  {
    hide SameId, ValidCg, NamedId, HasSame, IsSame;
    Sizes(s);
    Sizes(c);
    if SameParents(s, v, c, u) {
      forall p | p in s.g[v]
        ensures NamedId(s, p) in NamedParents(c, u)
      {
        OneNamed(s, v, p, c, u);
      }
      forall q | q in c.g[u]
        ensures NamedId(c, q) in NamedParents(s, v)
      {
        OneNamedBack(s, v, c, u, q);
      }
    }
    if NamedParents(s, v) == NamedParents(c, u) {
      forall p | p in s.g[v]
        ensures HasSame(s, p, c, c.g[u])
      {
        OneOf(s, v, p, c, u);
      }
      forall q | q in c.g[u]
        ensures IsSame(s, s.g[v], c, q)
      {
        OneOfBack(s, v, c, u, q);
      }
    }
  }

  lemma {:induction false} OneNamed(s: Cg, v: nat, p: nat, c: Cg, u: nat)
    requires ValidCg(s) && ValidCg(c) && v < |s.ids| && u < |c.ids| && p in s.g[v] && HasSame(s, p, c, c.g[u])
    ensures p < |s.ids| && NamedId(s, p) in NamedParents(c, u)
  {
    hide ValidCg, NamedId;
    Sizes(s);
    Sizes(c);
    var q :| q in c.g[u] && SameId(s, p, c, q);
    SameIsNamed(s, p, c, q);
  }

  lemma {:induction false} OneNamedBack(s: Cg, v: nat, c: Cg, u: nat, q: nat)
    requires ValidCg(s) && ValidCg(c) && v < |s.ids| && u < |c.ids| && q in c.g[u] && IsSame(s, s.g[v], c, q)
    ensures q < |c.ids| && NamedId(c, q) in NamedParents(s, v)
  {
    hide ValidCg, NamedId;
    Sizes(s);
    Sizes(c);
    var p :| p in s.g[v] && SameId(s, p, c, q);
    SameIsNamed(s, p, c, q);
  }

  lemma {:induction false} OneOf(s: Cg, v: nat, p: nat, c: Cg, u: nat)
    requires ValidCg(s) && ValidCg(c) && v < |s.ids| && u < |c.ids| && p in s.g[v] && NamedParents(s, v) <= NamedParents(c, u)
    ensures HasSame(s, p, c, c.g[u])
  {
    hide ValidCg, NamedId, SameId;
    Sizes(s);
    Sizes(c);
    assert NamedId(s, p) in NamedParents(c, u);
    var q :| q in c.g[u] && NamedId(c, q) == NamedId(s, p);
    SameIsNamed(s, p, c, q);
  }

  lemma {:induction false} OneOfBack(s: Cg, v: nat, c: Cg, u: nat, q: nat)
    requires ValidCg(s) && ValidCg(c) && v < |s.ids| && u < |c.ids| && q in c.g[u] && NamedParents(c, u) <= NamedParents(s, v)
    ensures IsSame(s, s.g[v], c, q)
  {
    hide ValidCg, NamedId, SameId;
    Sizes(s);
    Sizes(c);
    assert NamedId(c, q) in NamedParents(s, v);
    var p :| p in s.g[v] && NamedId(s, p) == NamedId(c, q);
    SameIsNamed(s, p, c, q);
  }

  /** IDs that both graphs know have the same parents in both. */
  ghost predicate FactsAgree(s: Cg, c: Cg)
    requires ValidCg(s) && ValidCg(c)
  {
    forall id | id in Facts(s) && id in Facts(c) :: Facts(s)[id] == Facts(c)[id]
  }

  lemma {:induction false} AgreeIsFacts(s: Cg, c: Cg)
    requires ValidCg(s) && ValidCg(c)
    ensures Agree(s, c) <==> FactsAgree(s, c)
  {
    hide SameId, ValidCg, NamedId, SameParents, NamedParents, Facts;
    if FactsAgree(s, c) {
      forall v: nat, u: nat | SameId(s, v, c, u)
        ensures SameParents(s, v, c, u)
      {
        InRange(s, v, c, u);
        SameIsNamed(s, v, c, u);
        FactsAt(s, v);
        FactsAt(c, u);
        SameParentsNamed(s, v, c, u);
      }
    }
    if Agree(s, c) {
      forall id | id in Facts(s) && id in Facts(c)
        ensures Facts(s)[id] == Facts(c)[id]
      {
        var v, u := VersionOf(s, id), VersionOf(c, id);
        SameIsNamed(s, v, c, u);
        FactsAt(s, v);
        FactsAt(c, u);
        SameParentsNamed(s, v, c, u);
      }
    }
  }

  /** A graph that keeps what it had, gains only from another, and has all of that: the union. */
  lemma {:induction false} UnionOf(s: Cg, c0: Cg, c: Cg)
    requires ValidCg(s) && ValidCg(c0) && ValidCg(c) && Extends(c0, c) && OnlyFrom(s, c, c0) && Agree(s, c)
    requires forall v: nat | v < |s.ids| :: KnownIn(s, v, c)
    ensures Facts(c) == Facts(c0) + Facts(s)
  {
    hide SameId, ValidCg, NamedId, SameParents, NamedParents, Facts, Extends, Agree, OnlyFrom;
    forall id
      ensures id in Facts(c) <==> id in Facts(c0) + Facts(s)
    {
      if id in Facts(c) { FactKnown(s, c0, c, VersionOf(c, id)); }
      if id in Facts(s) { KnownIsNamed(s, VersionOf(s, id), c); }
      if id in Facts(c0) { KeptFact(c0, c, VersionOf(c0, id)); }
    }
    AgreeIsFacts(s, c);
    forall id | id in Facts(c)
      ensures Facts(c)[id] == (Facts(c0) + Facts(s))[id]
    {
      if id !in Facts(s) { KeptFact(c0, c, VersionOf(c0, id)); }
    }
  }

  lemma {:induction false} FactKnown(s: Cg, c0: Cg, c: Cg, u: nat)
    requires ValidCg(s) && ValidCg(c0) && ValidCg(c) && Extends(c0, c) && OnlyFrom(s, c, c0) && u < |c.ids|
    ensures NamedId(c, u) in Facts(c0) || NamedId(c, u) in Facts(s)
  {
    hide SameId, Facts, Extends;
    if u < |c0.ids| {
      KeptFact(c0, c, u);
      FactsAt(c0, u);
    } else {
      assert ComesFrom(s, c, u);
      var v: nat :| SameId(s, v, c, u);
      InRange(s, v, c, u);
      SameIsNamed(s, v, c, u);
      FactsAt(s, v);
    }
  }

  lemma {:induction false} KeptFact(c0: Cg, c: Cg, u: nat)
    requires ValidCg(c0) && ValidCg(c) && Extends(c0, c) && u < |c0.ids|
    ensures u < |c.ids| && NamedId(c, u) == NamedId(c0, u)
    ensures NamedId(c, u) in Facts(c) && Facts(c)[NamedId(c, u)] == Facts(c0)[NamedId(c0, u)]
  {
    hide Facts;
    FactsAt(c0, u);
    FactsAt(c, u);
    assert c.ids[u] == c0.ids[u] && c.g[u] == c0.g[u];
    forall p | p in c0.g[u]
      ensures NamedId(c, p) == NamedId(c0, p)
    {
      assert c.ids[p] == c0.ids[p];
    }
  }

  // ---- Messages ----

  /** The entries cut the versions of `d` from `lo` on into runs, in ascending order. */
  ghost predicate Cuts(s: Cg, es: seq<Entry>, d: set<nat>, lo: nat)
    decreases |es|
  {
    if es == [] then forall v: nat | lo <= v :: v !in d
    else
      && IsPiece(s, es[0]) && lo <= es[0].start
      && (forall v: nat | lo <= v < es[0].start :: v !in d)
      && (forall v: nat | es[0].start <= v < es[0].start + es[0].len :: v in d)
      && Cuts(s, es[1..], d, es[0].start + es[0].len)
  }

  /** What has been sent so far: the versions of `d` below `lo`. */
  ghost predicate SentBelow(w: Writer, d: set<nat>, lo: nat) {
    StrictlyAscending(w.sent) && |w.sent| <= lo && forall v: nat :: v in w.sent <==> v in d && v < lo
  }

  lemma {:induction false} CutReady(w: Writer, s: Cg, es: seq<Entry>, c: Cg, d: set<nat>, lo: nat)
    requires ValidCg(s) && Fits(s) && es != [] && Cuts(s, es, d, lo) && SentBelow(w, d, lo)
    requires forall v: nat | v < |s.ids| && v !in d :: KnownIn(s, v, c)
    ensures EntryReady(w, s, es[0], c)
  {
    hide KnownIn;
    var e := es[0];
    forall i | 0 <= i < |e.parents|
      ensures ParentKnown(w, s, e.parents[i], c)
    {
      var p := e.parents[i];
      assert p in s.g[e.start];
      assert p in d ==> p in w.sent;
    }
    if !ParentsWritten(w, e) {
      var k := |w.sent| - 1;
      var j :| 0 <= j < |w.sent| && w.sent[j] == e.start - 1;
      assert w.sent[k] in w.sent;
    }
  }

  lemma {:induction false} SentMore(w: Writer, w': Writer, s: Cg, es: seq<Entry>, d: set<nat>, lo: nat)
    requires es != [] && Cuts(s, es, d, lo) && SentBelow(w, d, lo) && w'.sent == w.sent + Lvs(es[0].start, es[0].len)
    ensures SentBelow(w', d, es[0].start + es[0].len)
  {
    var e := es[0];
    forall v: nat
      ensures v in w'.sent <==> v in d && v < e.start + e.len
    {
      if e.start <= v < e.start + e.len { assert Lvs(e.start, e.len)[v - e.start] == v; }
    }
    forall i, j | 0 <= i < j < |w'.sent|
      ensures w'.sent[i] < w'.sent[j]
    {
      if i < |w.sent| { assert w.sent[i] in w.sent; }
    }
  }

  lemma {:induction false} AllKnownLater(s: Cg, c: Cg, c': Cg, d: set<nat>)
    requires ValidCg(c) && Extends(c, c')
    requires forall v: nat | v < |s.ids| && v !in d :: KnownIn(s, v, c)
    ensures forall v: nat | v < |s.ids| && v !in d :: KnownIn(s, v, c')
  {
    hide SameId, ValidCg, Extends;
    forall v: nat | v < |s.ids| && v !in d
      ensures KnownIn(s, v, c')
    {
      assert KnownIn(s, v, c);
      var u: nat :| SameId(s, v, c, u);
      StaysSame(s, v, c, u, c');
    }
  }

  /** Everything that was sent is known to the reader. */
  lemma {:induction false} SentKnown(w: Writer, s: Cg, r: Reader, c: Cg, c0: Cg, d: set<nat>, lo: nat)
    requires Between(w, s, r, c, c0) && SentBelow(w, d, lo) && forall v: nat | lo <= v :: v !in d
    requires forall v: nat | v < |s.ids| && v !in d :: KnownIn(s, v, c)
    ensures forall v: nat | v < |s.ids| :: KnownIn(s, v, c)
  {
    hide SameId;
    forall v: nat | v < |s.ids|
      ensures KnownIn(s, v, c)
    {
      if v in d {
        assert v in w.sent;
        var t :| 0 <= t < |w.sent| && w.sent[t] == v;
        assert SameId(s, v, c, r.got[t]);
      }
    }
  }

  lemma {:induction false} CutIn(s: Cg, es: seq<Entry>, d: set<nat>, lo: nat)
    requires ValidCg(s) && Cuts(s, es, d, lo)
    ensures forall i | 0 <= i < |es| :: EntryIn(s, es[i])
    decreases |es|
  {
    if es != [] {
      CutIn(s, es[1..], d, es[0].start + es[0].len);
      forall i | 0 <= i < |es|
        ensures EntryIn(s, es[i])
      {
        if i > 0 {
          assert es[i] == es[1..][i - 1];
        } else {
          assert s.ids[es[0].start].agent == es[0].agent;
          assert forall k | 0 <= k < |es[0].parents| :: es[0].parents[k] in s.g[es[0].start];
        }
      }
    }
  }

  /** The reader takes every byte of what the writer has still to send, and ends up knowing it all. */
  lemma {:induction false} MessageBack(w: Writer, s: Cg, es: seq<Entry>, r: Reader, c: Cg, c0: Cg, d: set<nat>, lo: nat)
    requires Between(w, s, r, c, c0) && Cuts(s, es, d, lo) && SentBelow(w, d, lo)
    requires forall v: nat | v < |s.ids| && v !in d :: KnownIn(s, v, c)
    ensures forall i | 0 <= i < |es| :: EntryIn(s, es[i])
    ensures var o := ReadAll(WriteAll(w, s, es).bytes, r, c);
            && o.Some? && ValidCg(o.value) && Extends(c0, o.value) && OnlyFrom(s, o.value, c0) && Agree(s, o.value)
            && forall v: nat | v < |s.ids| :: KnownIn(s, v, o.value)
    decreases |es|
  {
    hide ValidCg, Fits, InStep, Agree, Extends, OnlyFrom, KnownIn, WriteEntry, ReadEntry, IsPiece, SentBelow, EntryReady;
    assert ValidCg(s);
    CutIn(s, es, d, lo);
    if es == [] {
      SentKnown(w, s, r, c, c0, d, lo);
    } else {
      var e, rest := es[0], es[1..];
      CutReady(w, s, es, c, d, lo);
      var wr := WriteEntry(w, s, e);
      CutIn(s, rest, d, e.start + e.len);
      var tail := WriteAll(wr.w, s, rest).bytes;
      Room(w, s, e, c, d, lo);
      EntryMerged(w, s, e, r, c, c0, tail);
      var o := ReadEntry(wr.bytes + tail, r, c).value;
      SentMore(w, wr.w, s, es, d, lo);
      AllKnownLater(s, c, o.c, d);
      MessageBack(wr.w, s, rest, o.r, o.c, c0, d, e.start + e.len);
    }
  }

  lemma {:induction false} Room(w: Writer, s: Cg, e: Entry, c: Cg, d: set<nat>, lo: nat)
    requires EntryReady(w, s, e, c) && SentBelow(w, d, lo) && lo <= e.start
    ensures |w.sent| + e.len < VERSION_LIMIT
  {
  }

  /** A message with the versions that the reader may lack makes the reader's graph the union. */
  lemma {:induction false} SerialisedUnion(s: Cg, es: seq<Entry>, c: Cg, d: set<nat>)
    requires ValidCg(s) && Fits(s) && ValidCg(c) && FactsAgree(s, c) && Cuts(s, es, d, 0)
    requires forall v: nat | v < |s.ids| && v !in d :: NamedId(s, v) in Facts(c)
    ensures forall i | 0 <= i < |es| :: EntryIn(s, es[i])
    ensures var o := ReadAll(WriteAll(Writer([], []), s, es).bytes, Reader([], []), c);
            o.Some? && ValidCg(o.value) && Extends(c, o.value) && Facts(o.value) == Facts(c) + Facts(s)
  {
    hide ValidCg, Fits, Agree, KnownIn, Facts, Cuts, FactsAgree;
    AgreeIsFacts(s, c);
    AtStart(s, c, d);
    forall v: nat | v < |s.ids| && v !in d
      ensures KnownIn(s, v, c)
    {
      KnownIsNamed(s, v, c);
    }
    MessageBack(Writer([], []), s, es, Reader([], []), c, c, d, 0);
    UnionOf(s, c, ReadAll(WriteAll(Writer([], []), s, es).bytes, Reader([], []), c).value);
  }

  lemma {:induction false} AtStart(s: Cg, c: Cg, d: set<nat>)
    requires ValidCg(s) && Fits(s) && ValidCg(c) && Agree(s, c)
    ensures Between(Writer([], []), s, Reader([], []), c, c) && SentBelow(Writer([], []), d, 0)
  {
  }
}
