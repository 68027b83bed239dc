/** What merging received entries does to the graph they are merged into. */
module WireMerge {
  import opened ListLog
  import opened Varint
  import opened WireFormat
  import opened WireRoundTrip

  // ---- One run ----

  /** A run put on a graph: all its sequence numbers are known afterwards, and nothing else is new. */
  lemma {:induction false} MergeValid(c: Cg, parents: seq<nat>, agent: nat, seqStart: nat, len: nat)
    requires ValidCg(c) && agent < |c.names| && forall p | p in parents :: p < |c.ids|
    ensures var c' := Merge(c, parents, agent, seqStart, len);
            ValidCg(c') && c'.names == c.names && c.ids <= c'.ids && c.g <= c'.g
  {
    var k := NewFrom(c.ids, agent, seqStart, seqStart + len);
    var c' := Merge(c, parents, agent, seqStart, len);
    forall i, j | 0 <= i < j < |c'.ids|
      ensures c'.ids[i] != c'.ids[j]
    {
      if i < |c.ids| && j >= |c.ids| {
        assert c.ids[i] in c.ids;
      }
    }
  }

  /** The new versions, from the first that was not known. */
  lemma {:induction false} MergeNew(c: Cg, parents: seq<nat>, agent: nat, seqStart: nat, len: nat, i: nat)
    requires ValidCg(c)
    requires var k := NewFrom(c.ids, agent, seqStart, seqStart + len); k <= i < seqStart + len
    ensures var c' := Merge(c, parents, agent, seqStart, len); var k := NewFrom(c.ids, agent, seqStart, seqStart + len);
            && |c.ids| + (i - k) < |c'.ids| == |c'.g|
            && c'.ids[|c.ids| + (i - k)] == AgentVersion(agent, i)
            && (i > k ==> c'.g[|c.ids| + (i - k)] == [|c.ids| + (i - k) - 1])
            && (i == k ==> c'.g[|c.ids|] == if k == seqStart then parents else [LvOf(c.ids, AgentVersion(agent, k - 1))])
  {
  }

  /** Nothing else is new. */
  lemma {:induction false} MergeOnly(c: Cg, parents: seq<nat>, agent: nat, seqStart: nat, len: nat, u: nat)
    requires ValidCg(c)
    requires var c' := Merge(c, parents, agent, seqStart, len); |c.ids| <= u < |c'.ids|
    ensures var c' := Merge(c, parents, agent, seqStart, len); var k := NewFrom(c.ids, agent, seqStart, seqStart + len);
            var i := k + (u - |c.ids|); k <= i < seqStart + len && c'.ids[u] == AgentVersion(agent, i)
  {
  }

  // ---- Agreement ----

  ghost predicate SameParents(s: Cg, v: nat, c: Cg, u: nat) {
    v < |s.g| && u < |c.g| && SameSets(s, s.g[v], c, c.g[u])
  }

  /** What both graphs know has the same parents in both. */
  ghost predicate Agree(s: Cg, c: Cg) {
    forall v: nat, u: nat | SameId(s, v, c, u) :: SameParents(s, v, c, u)
  }

  ghost predicate Extends(c: Cg, c': Cg) {
    c.names <= c'.names && c.ids <= c'.ids && c.g <= c'.g
  }

  lemma {:induction false} SameIdExtends(s: Cg, v: nat, c: Cg, u: nat, c': Cg)
    requires ValidCg(c) && Extends(c, c') && u < |c.ids|
    ensures SameId(s, v, c, u) <==> SameId(s, v, c', u)
  {
    assert c'.ids[u] == c.ids[u] && c'.names[c.ids[u].agent] == c.names[c.ids[u].agent];
  }

  lemma {:induction false} SameParentsExtends(s: Cg, v: nat, c: Cg, u: nat, c': Cg)
    requires ValidCg(c) && Extends(c, c') && SameParents(s, v, c, u)
    ensures SameParents(s, v, c', u)
  {
    hide SameId;
    assert c'.g[u] == c.g[u];
    SameSetsExtends(s, s.g[v], c, c.g[u], c');
  }

  lemma {:induction false} SameSetsExtends(s: Cg, vs: seq<nat>, c: Cg, us: seq<nat>, c': Cg)
    requires ValidCg(c) && Extends(c, c') && SameSets(s, vs, c, us)
    ensures SameSets(s, vs, c', us)
  {
    hide SameId, Extends, ValidCg, HasSame, IsSame;
    forall v | v in vs
      ensures HasSame(s, v, c', us)
    {
      HasSameExtends(s, v, c, us, c');
    }
    forall u | u in us
      ensures IsSame(s, vs, c', u)
    {
      IsSameExtends(s, vs, c, u, c');
    }
  }

  lemma {:induction false} HasSameExtends(s: Cg, v: nat, c: Cg, us: seq<nat>, c': Cg)
    requires ValidCg(c) && Extends(c, c') && HasSame(s, v, c, us)
    ensures HasSame(s, v, c', us)
  {
    hide SameId, Extends, ValidCg;
    var u :| u in us && SameId(s, v, c, u);
    StaysSame(s, v, c, u, c');
  }

  lemma {:induction false} IsSameExtends(s: Cg, vs: seq<nat>, c: Cg, u: nat, c': Cg)
    requires ValidCg(c) && Extends(c, c') && IsSame(s, vs, c, u)
    ensures IsSame(s, vs, c', u)
  {
    hide SameId, Extends, ValidCg;
    var v :| v in vs && SameId(s, v, c, u);
    StaysSame(s, v, c, u, c');
  }

  lemma {:induction false} StaysSame(s: Cg, v: nat, c: Cg, u: nat, c': Cg)
    requires ValidCg(c) && Extends(c, c') && SameId(s, v, c, u)
    ensures SameId(s, v, c', u)
  {
    SameIdExtends(s, v, c, u, c');
  }

  lemma {:induction false} InRange(s: Cg, v: nat, c: Cg, u: nat)
    requires SameId(s, v, c, u)
    ensures v < |s.ids| && u < |c.ids|
  {
  }

  lemma {:induction false} SameIdOnce(s: Cg, v: nat, w: nat, c: Cg, u: nat)
    requires ValidCg(s) && SameId(s, v, c, u) && SameId(s, w, c, u)
    ensures v == w
  {
    assert s.ids[v].agent == s.ids[w].agent;
  }

  // ---- Merging a piece of another graph ----

  /** What is known of an entry is a prefix of it. */
  lemma {:induction false} KnownBelow(s: Cg, e: Entry, c: Cg, v: nat, u: nat)
    requires ValidCg(s) && IsPiece(s, e) && Agree(s, c) && e.start <= v < e.start + e.len && SameId(s, v, c, u)
    ensures forall x: nat | e.start <= x <= v :: KnownIn(s, x, c)
    decreases v
  {
    hide SameId, ValidCg, IsSame;
    if v > e.start {
      assert SameParents(s, v, c, u);
      assert v - 1 in s.g[v];
      assert HasSame(s, v - 1, c, c.g[u]);
      var y :| y in c.g[u] && SameId(s, v - 1, c, y);
      KnownBelow(s, e, c, v - 1, y);
    }
    assert KnownIn(s, v, c);
  }

  /** The reader's agent for an entry, and its parents in the reader's graph. */
  ghost predicate Received(s: Cg, e: Entry, c: Cg, parents: seq<nat>, agent: nat) {
    && ValidCg(s) && ValidCg(c) && IsPiece(s, e) && Agree(s, c)
    && e.agent < |s.names| && agent < |c.names| && c.names[agent] == s.names[e.agent]
    && SameSets(s, e.parents, c, parents)
  }

  lemma {:induction false} PieceId(s: Cg, e: Entry, c: Cg, parents: seq<nat>, agent: nat, v: nat, u: nat)
    requires Received(s, e, c, parents, agent) && e.start <= v < e.start + e.len && u < |c.ids|
    ensures SameId(s, v, c, u) <==> c.ids[u] == AgentVersion(agent, e.seqStart + (v - e.start))
  {
    assert s.ids[v] == AgentVersion(e.agent, e.seqStart + (v - e.start));
  }

  lemma {:induction false} NewPieceId(s: Cg, e: Entry, c: Cg, parents: seq<nat>, agent: nat, v: nat, u: nat)
    requires Received(s, e, c, parents, agent) && e.start <= v < e.start + e.len
    requires var k := NewFrom(c.ids, agent, e.seqStart, e.seqStart + e.len); e.seqStart + (v - e.start) >= k && u == |c.ids| + (e.seqStart + (v - e.start) - k)
    ensures SameId(s, v, Merge(c, parents, agent, e.seqStart, e.len), u)
  {
    hide Merge, NewFrom;
    assert s.ids[v] == AgentVersion(e.agent, e.seqStart + (v - e.start));
    MergeNew(c, parents, agent, e.seqStart, e.len, e.seqStart + (v - e.start));
    assert Merge(c, parents, agent, e.seqStart, e.len).names == c.names by { ParentsBelow(s, e, c, parents, agent); MergeValid(c, parents, agent, e.seqStart, e.len); }
  }

  lemma {:induction false} ParentsBelow(s: Cg, e: Entry, c: Cg, parents: seq<nat>, agent: nat)
    requires Received(s, e, c, parents, agent)
    ensures agent < |c.names| && forall p | p in parents :: p < |c.ids|
  {
  }

  /** A new version gets the parents it has where it comes from. */
  lemma {:induction false} NewParents(s: Cg, e: Entry, c: Cg, parents: seq<nat>, agent: nat, v: nat, u: nat)
    requires Received(s, e, c, parents, agent) && e.start <= v < e.start + e.len
    requires var k := NewFrom(c.ids, agent, e.seqStart, e.seqStart + e.len); e.seqStart + (v - e.start) >= k && u == |c.ids| + (e.seqStart + (v - e.start) - k)
    ensures SameParents(s, v, Merge(c, parents, agent, e.seqStart, e.len), u)
  {
    hide Merge, NewFrom, SameId, Agree, ValidCg, SameSets;
    var c' := Merge(c, parents, agent, e.seqStart, e.len);
    var k := NewFrom(c.ids, agent, e.seqStart, e.seqStart + e.len);
    var i := e.seqStart + (v - e.start);
    ParentsBelow(s, e, c, parents, agent);
    MergeValid(c, parents, agent, e.seqStart, e.len);
    MergeNew(c, parents, agent, e.seqStart, e.len, i);
    if i > k {
      NewPieceId(s, e, c, parents, agent, v - 1, u - 1);
      OneSame(s, v - 1, c', u - 1);
    } else if k == e.seqStart {
      assert v == e.start;
      SameSetsExtends(s, e.parents, c, parents, c');
    } else {
      var y := LvOf(c.ids, AgentVersion(agent, k - 1));
      PieceId(s, e, c, parents, agent, v - 1, y);
      SameIdExtends(s, v - 1, c, y, c');
      OneSame(s, v - 1, c', y);
    }
  }

  lemma {:induction false} OneSame(s: Cg, v: nat, c: Cg, u: nat)
    requires SameId(s, v, c, u)
    ensures SameSets(s, [v], c, [u])
  {
    assert v in [v] && u in [u];
  }

  /** Merging a piece keeps the two graphs in agreement. */
  lemma {:induction false} MergeAgrees(s: Cg, e: Entry, c: Cg, parents: seq<nat>, agent: nat)
    requires Received(s, e, c, parents, agent)
    ensures Agree(s, Merge(c, parents, agent, e.seqStart, e.len))
  {
    hide Merge, NewFrom, SameId, ValidCg, SameSets, SameParents;
    var c' := Merge(c, parents, agent, e.seqStart, e.len);
    ParentsBelow(s, e, c, parents, agent);
    MergeValid(c, parents, agent, e.seqStart, e.len);
    forall v: nat, u: nat | SameId(s, v, c', u)
      ensures SameParents(s, v, c', u)
    {
      InRange(s, v, c', u);
      if u < |c.ids| {
        SameIdExtends(s, v, c, u, c');
        SameParentsExtends(s, v, c, u, c');
      } else {
        MergeOnly(c, parents, agent, e.seqStart, e.len, u);
        var i := NewFrom(c.ids, agent, e.seqStart, e.seqStart + e.len) + (u - |c.ids|);
        var w := e.start + (i - e.seqStart);
        NewPieceId(s, e, c, parents, agent, w, u);
        SameIdOnce(s, v, w, c', u);
        NewParents(s, e, c, parents, agent, w, u);
      }
    }
  }

  /** Every version of the piece is known afterwards. */
  lemma {:induction false} MergeKnows(s: Cg, e: Entry, c: Cg, parents: seq<nat>, agent: nat, v: nat)
    requires Received(s, e, c, parents, agent) && e.start <= v < e.start + e.len
    ensures AgentVersion(agent, e.seqStart + (v - e.start)) in Merge(c, parents, agent, e.seqStart, e.len).ids
  {
    hide Merge, NewFrom, SameId, ValidCg, SameSets, SameParents;
    var c' := Merge(c, parents, agent, e.seqStart, e.len);
    ParentsBelow(s, e, c, parents, agent);
    MergeValid(c, parents, agent, e.seqStart, e.len);
    var k := NewFrom(c.ids, agent, e.seqStart, e.seqStart + e.len);
    var i := e.seqStart + (v - e.start);
    if i >= k {
      MergeNew(c, parents, agent, e.seqStart, e.len, i);
    } else {
      var last := LvOf(c.ids, AgentVersion(agent, k - 1));
      var x := e.start + (k - 1 - e.seqStart);
      PieceId(s, e, c, parents, agent, x, last);
      KnownBelow(s, e, c, x, last);
      assert KnownIn(s, v, c);
      var y: nat :| SameId(s, v, c, y);
      InRange(s, v, c, y);
      PieceId(s, e, c, parents, agent, v, y);
      assert c'.ids[y] == AgentVersion(agent, i);
    }
  }

  // ---- One entry of a message ----

  lemma {:induction false} SpanLvsAll(ids: seq<AgentVersion>, agent: nat, from: nat, upTo: nat)
    requires from <= upTo && forall x | from <= x < upTo :: AgentVersion(agent, x) in ids
    ensures var r := SpanLvs(ids, agent, from, upTo);
            |r| == upTo - from && forall i | 0 <= i < |r| :: r[i] < |ids| && ids[r[i]] == AgentVersion(agent, from + i)
    decreases upTo
  {
    if from < upTo { SpanLvsAll(ids, agent, from, upTo - 1); }
  }

  /** Whatever the reader has gained comes from the writer. */
  ghost predicate OnlyFrom(s: Cg, c: Cg, c0: Cg) {
    forall u | |c0.ids| <= u < |c.ids| :: ComesFrom(s, c, u)
  }

  ghost predicate ComesFrom(s: Cg, c: Cg, u: nat) {
    exists v: nat :: SameId(s, v, c, u)
  }

  /** Where writer and reader stand between two entries, the reader having started from `c0`. */
  ghost predicate Between(w: Writer, s: Cg, r: Reader, c: Cg, c0: Cg) {
    && InStep(w, s, r, c) && ValidCg(s) && Fits(s) && ValidCg(c) && Agree(s, c) && Extends(c0, c) && OnlyFrom(s, c, c0)
  }

  /** New names alone change nothing. */
  lemma {:induction false} RenamedReceived(s: Cg, e: Entry, c: Cg, names1: seq<Name>, parents: seq<nat>, agent: nat)
    requires ValidCg(s) && ValidCg(c) && IsPiece(s, e) && Agree(s, c) && c.names <= names1 && NamesOk(names1)
    requires e.agent < |s.names| && agent < |names1| && names1[agent] == s.names[e.agent] && SameSets(s, e.parents, c.(names := names1), parents)
    ensures Received(s, e, c.(names := names1), parents, agent)
  {
    hide SameId, SameSets, SameParents;
    var c1 := c.(names := names1);
    forall v: nat, u: nat | SameId(s, v, c1, u)
      ensures SameParents(s, v, c1, u)
    {
      InRange(s, v, c1, u);
      SameIdExtends(s, v, c, u, c1);
      SameParentsExtends(s, v, c, u, c1);
    }
  }

  lemma {:induction false} MergedOnly(s: Cg, e: Entry, c: Cg, parents: seq<nat>, agent: nat, c0: Cg)
    requires Received(s, e, c, parents, agent) && OnlyFrom(s, c, c0) && |c0.ids| <= |c.ids|
    ensures OnlyFrom(s, Merge(c, parents, agent, e.seqStart, e.len), c0)
  {
    hide Merge, NewFrom, SameId, ValidCg, SameSets, SameParents, Agree;
    var c' := Merge(c, parents, agent, e.seqStart, e.len);
    ParentsBelow(s, e, c, parents, agent);
    MergeValid(c, parents, agent, e.seqStart, e.len);
    forall u | |c0.ids| <= u < |c'.ids|
      ensures ComesFrom(s, c', u)
    {
      if u < |c.ids| {
        assert ComesFrom(s, c, u);
        var v: nat :| SameId(s, v, c, u);
        StaysSame(s, v, c, u, c');
      } else {
        MergeOnly(c, parents, agent, e.seqStart, e.len, u);
        var i := NewFrom(c.ids, agent, e.seqStart, e.seqStart + e.len) + (u - |c.ids|);
        NewPieceId(s, e, c, parents, agent, e.start + (i - e.seqStart), u);
      }
    }
  }

  lemma {:induction false} RenamedOnly(s: Cg, c: Cg, names1: seq<Name>, c0: Cg)
    requires ValidCg(c) && OnlyFrom(s, c, c0) && c.names <= names1
    ensures OnlyFrom(s, c.(names := names1), c0)
  {
    hide SameId, ValidCg;
    var c1 := c.(names := names1);
    forall u | |c0.ids| <= u < |c1.ids|
      ensures ComesFrom(s, c1, u)
    {
      assert ComesFrom(s, c, u);
      var v: nat :| SameId(s, v, c, u);
      StaysSame(s, v, c, u, c1);
    }
  }

  /** The versions of the piece line up with what the reader notes for them. */
  lemma {:induction false} PieceMatches(w: Writer, s: Cg, e: Entry, r: Reader, c: Cg, parents: seq<nat>, agent: nat)
    requires Received(s, e, c, parents, agent) && VersionsMatch(w.sent, r.got, s, c)
    ensures var c' := Merge(c, parents, agent, e.seqStart, e.len);
            VersionsMatch(w.sent + Lvs(e.start, e.len), r.got + SpanLvs(c'.ids, agent, e.seqStart, e.seqStart + e.len), s, c')
  {
    hide Merge, NewFrom, SameId, ValidCg, SameSets, SameParents, Agree, SpanLvs;
    var c' := Merge(c, parents, agent, e.seqStart, e.len);
    ParentsBelow(s, e, c, parents, agent);
    MergeValid(c, parents, agent, e.seqStart, e.len);
    MergeAgrees(s, e, c, parents, agent);
    RunKnown(s, e, c, parents, agent);
    SpanLvsAll(c'.ids, agent, e.seqStart, e.seqStart + e.len);
    var us := SpanLvs(c'.ids, agent, e.seqStart, e.seqStart + e.len);
    forall t | 0 <= t < |w.sent| + e.len
      ensures SameId(s, (w.sent + Lvs(e.start, e.len))[t], c', (r.got + us)[t])
    {
      if t < |w.sent| {
        StaysSame(s, w.sent[t], c, r.got[t], c');
      } else {
        AtAgent(s, e, c', agent, e.start + (t - |w.sent|), us[t - |w.sent|]);
      }
    }
  }

  lemma {:induction false} RunKnown(s: Cg, e: Entry, c: Cg, parents: seq<nat>, agent: nat)
    requires Received(s, e, c, parents, agent)
    ensures forall x | e.seqStart <= x < e.seqStart + e.len :: AgentVersion(agent, x) in Merge(c, parents, agent, e.seqStart, e.len).ids
  {
    hide Merge, Received;
    forall x | e.seqStart <= x < e.seqStart + e.len
      ensures AgentVersion(agent, x) in Merge(c, parents, agent, e.seqStart, e.len).ids
    {
      MergeKnows(s, e, c, parents, agent, e.start + (x - e.seqStart));
    }
  }

  lemma {:induction false} AtAgent(s: Cg, e: Entry, c: Cg, agent: nat, v: nat, u: nat)
    requires IsPiece(s, e) && e.start <= v < e.start + e.len && u < |c.ids| && c.ids[u] == AgentVersion(agent, e.seqStart + (v - e.start))
    requires e.agent < |s.names| && agent < |c.names| && c.names[agent] == s.names[e.agent]
    ensures SameId(s, v, c, u)
  {
    assert s.ids[v] == AgentVersion(e.agent, e.seqStart + (v - e.start));
  }

  /** One entry, written and read. */
  lemma {:induction false} EntryMerged(w: Writer, s: Cg, e: Entry, r: Reader, c: Cg, c0: Cg, rest: Bytes)
    requires Between(w, s, r, c, c0) && EntryReady(w, s, e, c) && |w.sent| + e.len < VERSION_LIMIT
    ensures EntryIn(s, e)
    ensures var wr := WriteEntry(w, s, e); var o := ReadEntry(wr.bytes + rest, r, c);
            && o.Some? && o.value.rest == rest && Between(wr.w, s, o.value.r, o.value.c, c0)
            && wr.w.sent == w.sent + Lvs(e.start, e.len) && Extends(c, o.value.c)
  {
    hide ReadRaw, WriteEntry, EntryReady, Merge, SpanLvs, Agree, SameSets, OnlyFrom, AgentsMatch, VersionsMatch, IsPiece, Received, Fits;
    EntryBack(w, s, e, r, c, rest);
    var wr := WriteEntry(w, s, e);
    var raw := ReadRaw(wr.bytes + rest, r, c.names, c.ids).value;
    var sp := raw.span;
    ReadyPiece(w, s, e, c);
    RenamedReceived(s, e, c, sp.names, raw.parents, sp.agent);
    var c1 := c.(names := sp.names);
    var c' := Merge(c1, raw.parents, sp.agent, e.seqStart, e.len);
    ParentsBelow(s, e, c1, raw.parents, sp.agent);
    RenamedValid(c, sp.names);
    MergeValid(c1, raw.parents, sp.agent, e.seqStart, e.len);
    MergeAgrees(s, e, c1, raw.parents, sp.agent);
    RenamedOnly(s, c, sp.names, c0);
    MergedOnly(s, e, c1, raw.parents, sp.agent, c0);
    RenamedMatch(w.sent, r.got, s, c, sp.names);
    PieceMatches(w, s, e, r, c1, raw.parents, sp.agent);
  }

  lemma {:induction false} ReadyPiece(w: Writer, s: Cg, e: Entry, c: Cg)
    requires EntryReady(w, s, e, c)
    ensures IsPiece(s, e) && 0 < e.len
  {
  }

  lemma {:induction false} RenamedValid(c: Cg, names1: seq<Name>)
    requires ValidCg(c) && c.names <= names1 && NamesOk(names1)
    ensures ValidCg(c.(names := names1))
  {
  }

  lemma {:induction false} RenamedMatch(sent: seq<nat>, got: seq<nat>, s: Cg, c: Cg, names1: seq<Name>)
    requires ValidCg(c) && VersionsMatch(sent, got, s, c) && c.names <= names1
    ensures VersionsMatch(sent, got, s, c.(names := names1))
  {
    hide SameId, ValidCg;
    forall t | 0 <= t < |sent|
      ensures SameId(s, sent[t], c.(names := names1), got[t])
    {
      StaysSame(s, sent[t], c, got[t], c.(names := names1));
    }
  }
}
