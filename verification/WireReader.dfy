/** Reading changes from bytes into a causal graph. */
module WireReader {
  import opened ListLog
  import opened AgentIndex
  import opened Varint
  import opened WireFormat
  import opened WireMaps
  import opened WireGraph
  import GrowingGraph
  import WireMerge

  /** What a reader leaves alone until it merges. */
  twostate predicate OnlyNames(cg: CausalGraph)
    reads cg, cg.version
  {
    cg.Valid() && old(cg.names) <= cg.names && cg.clientWithLv == old(cg.clientWithLv) && cg.graph == old(cg.graph)
  }

  /** The reader's notes are about agents and versions of the graph. */
  ghost predicate Linked(readMap: ReadMap, cg: CausalGraph)
    reads readMap, cg
  {
    && readMap.Valid() && (forall i | 0 <= i < |readMap.agentMap| :: readMap.agentMap[i].agent < |cg.names|)
    && forall t | 0 <= t < |readMap.got| :: readMap.got[t] < |cg.clientWithLv|
  }

  /** An agent name that is new to the message. */
  method NextAgentName(reader: BufParser, readMap: ReadMap, cg: CausalGraph) returns (agent: Option<nat>)
    requires cg.Valid() && Linked(readMap, cg)
    modifies reader, readMap, cg
    ensures Linked(readMap, cg) && OnlyNames(cg) && readMap.got == old(readMap.got)
    ensures agent.None? <==> ReadName(old(reader.buf), old(readMap.State()), old(cg.names)).None?
    ensures agent.Some? ==> ReadName(old(reader.buf), old(readMap.State()), old(cg.names)) == Some(AgentRead(reader.buf, readMap.State(), cg.names, agent.value))
  {
    hide NextNumber, GoodName, IndexOf, Maps, Sorted, SeesAll, WireGraph.Indexed, ValidCg, WireFormat.NextStr;
    var name := reader.NextStr();
    if name.None? { return None; }
    agent := cg.GetOrCreateAgentId(name.value);
    if agent.Some? {
      readMap.agentMap := readMap.agentMap + [Seen(agent.value, 0)];
    }
  }

  datatype Span = Span(hasParents: bool, agent: nat, seqStart: nat, len: nat)

  /** The length of a run and where it starts. */
  method NextExtent(reader: BufParser, readMap: ReadMap, i: nat, hasParents: bool, hasJump: bool, cg: CausalGraph) returns (span: Option<Span>)
    requires Linked(readMap, cg) && i < |readMap.agentMap|
    modifies reader, readMap
    ensures Linked(readMap, cg) && readMap.got == old(readMap.got)
    ensures span.Some? ==> span.value.agent < |cg.names| && 0 < span.value.len
    ensures var o := ReadExtent(old(reader.buf), old(readMap.State()), cg.names, i, hasParents, hasJump);
            && (span.None? <==> o.None?)
            && (span.Some? ==> o == Some(SpanRead(reader.buf, readMap.State(), cg.names, span.value.hasParents, span.value.agent, span.value.seqStart, span.value.len)))
  {
    hide NextNumber, Maps, Sorted, Unzigzag;
    var len := reader.NextUsize();
    if len.None? { return None; }
    var jump := 0;
    if hasJump {
      var n := reader.NextUsize();
      if n.None? { return None; }
      jump := Unzigzag(n.value);
    } else {
      NoJump();
    }
    var seen := readMap.agentMap[i];
    var start := seen.next + jump;
    if start < 0 || start >= U64 || len.value == 0 { return None; }
    readMap.agentMap := readMap.agentMap[i := Seen(seen.agent, start + len.value)];
    return Some(Span(hasParents, seen.agent, start, len.value));
  }

  lemma {:induction false} NoJump()
    ensures Unzigzag(0) == 0
  {
  }

  /** `read_cg_aa`. */
  method ReadCgAa(reader: BufParser, readMap: ReadMap, cg: CausalGraph) returns (span: Option<Span>)
    requires cg.Valid() && Linked(readMap, cg)
    modifies reader, readMap, cg
    ensures Linked(readMap, cg) && OnlyNames(cg) && readMap.got == old(readMap.got)
    ensures span.Some? ==> span.value.agent < |cg.names| && 0 < span.value.len
    ensures var o := ReadSpan(old(reader.buf), old(readMap.State()), old(cg.names));
            && (span.None? <==> o.None?)
            && (span.Some? ==> o == Some(SpanRead(reader.buf, readMap.State(), cg.names, span.value.hasParents, span.value.agent, span.value.seqStart, span.value.len)))
  {
    hide NextNumber, ReadName, ReadExtent, Maps, Sorted, SeesAll, WireGraph.Indexed, ValidCg;
    var n := reader.NextUsize();
    if n.None? { return None; }
    var hasParents, isKnown, hasJump := n.value % 2 == 1, n.value / 2 % 2 == 1, n.value / 2 / 2 % 2 == 1;
    var idx := n.value / 2 / 2 / 2;
    if !isKnown {
      if idx != 0 { return None; }
      idx := |readMap.agentMap|;
      var agent := NextAgentName(reader, readMap, cg);
      if agent.None? { return None; }
    } else if idx >= |readMap.agentMap| {
      return None;
    }
    span := NextExtent(reader, readMap, idx, hasParents, hasJump, cg);
  }

  // ---- Parents ----

  /** A sequence number of an agent that the reader has to know. */
  method NextForeign(reader: BufParser, readMap: ReadMap, cg: CausalGraph, agent: nat) returns (parent: Option<nat>)
    requires cg.Valid()
    modifies reader
    ensures parent.Some? ==> parent.value < |cg.clientWithLv|
    ensures var o := ReadForeign(AgentRead(old(reader.buf), readMap.State(), cg.names, agent), cg.clientWithLv);
            && (parent.None? <==> o.None?)
            && (parent.Some? ==> o == Some(ParentsRead(reader.buf, readMap.State(), cg.names, [parent.value])))
  {
    hide NextNumber, IndexOf, SeesAll, WireGraph.Indexed, ValidCg;
    var seqNo := reader.NextUsize();
    if seqNo.None? { return None; }
    parent := cg.TryAgentVersionToLv(AgentVersion(agent, seqNo.value));
  }

  /** The parent that a number announces. */
  method NextParent(reader: BufParser, readMap: ReadMap, cg: CausalGraph, k: nat, isForeign: bool) returns (parent: Option<nat>)
    requires cg.Valid() && Linked(readMap, cg) && (isForeign ==> k > 0)
    modifies reader, readMap, cg
    ensures Linked(readMap, cg) && OnlyNames(cg) && readMap.got == old(readMap.got)
    ensures parent.Some? ==> parent.value < |cg.clientWithLv|
    ensures var o := ReadParent(old(reader.buf), old(readMap.State()), old(cg.names), cg.clientWithLv, k, isForeign);
            && (parent.None? <==> o.None?)
            && (parent.Some? ==> o == Some(ParentsRead(reader.buf, readMap.State(), cg.names, [parent.value])))
  {
    hide NextNumber, ReadForeign, ReadName, Maps, Sorted, SeesAll, WireGraph.Indexed, ValidCg;
    if !isForeign {
      if k > readMap.Len() { return None; }
      parent := FindWithOffset(readMap.txnMap, readMap.Len() - k);
      GotAt(readMap, readMap.Len() - k, parent);
    } else if k == 1 {
      var agent := NextAgentName(reader, readMap, cg);
      if agent.None? { return None; }
      parent := NextForeign(reader, readMap, cg, agent.value);
    } else {
      if k - 2 >= |readMap.agentMap| { return None; }
      parent := NextForeign(reader, readMap, cg, readMap.agentMap[k - 2].agent);
    }
  }

  lemma {:induction false} GotAt(m: ReadMap, t: nat, v: Option<nat>)
    requires m.Valid() && (v.Some? ==> Maps(m.txnMap, t, v.value)) && (v.None? ==> forall u: nat :: !Maps(m.txnMap, t, u))
    ensures v == if t < |m.got| then Some(m.got[t]) else None
  {
    hide Maps;
    if t < |m.got| {
      assert Maps(m.txnMap, t, m.got[t]);
      assert v.Some?;
      MapsOnce(m.txnMap, t, m.got[t], v.value);
    }
  }

  /** `read_parents_raw`: the parents, sorted. */
  method ReadParentsRaw(reader: BufParser, readMap: ReadMap, cg: CausalGraph) returns (parents: Option<seq<nat>>)
    requires cg.Valid() && Linked(readMap, cg)
    modifies reader, readMap, cg
    ensures Linked(readMap, cg) && OnlyNames(cg) && readMap.got == old(readMap.got)
    ensures parents.Some? ==> Below(parents.value, |cg.clientWithLv|)
    ensures var o := ReadParents(old(reader.buf), old(readMap.State()), old(cg.names), cg.clientWithLv);
            && (parents.None? <==> o.None?)
            && (parents.Some? ==> o.value.(parents := []) == ParentsRead(reader.buf, readMap.State(), cg.names, [])
                                  && parents.value == GrowingGraph.SortUp(o.value.parents))
  {
    hide NextNumber, ReadParent, ReadParents, Maps, Sorted, SeesAll, WireGraph.Indexed, ValidCg, Linked, Below, After, GrowingGraph.SortUp;
    var found: seq<nat> := [];
    ghost var all := ReadParents(reader.buf, readMap.State(), cg.names, cg.clientWithLv);
    FoundNone(all, |cg.clientWithLv|);
    while true
      invariant Linked(readMap, cg) && OnlyNames(cg) && readMap.got == old(readMap.got)
      invariant Below(found, |cg.clientWithLv|)
      invariant all == After(found, ReadParents(reader.buf, readMap.State(), cg.names, cg.clientWithLv))
      decreases |reader.buf|
    {
      NextParents(reader.buf, readMap.State(), cg.names, cg.clientWithLv);
      FoundNothing(found);
      var n := reader.NextUsize();
      if n.None? { return None; }
      var isForeign, hasMore := n.value % 2 == 1, n.value / 2 % 2 == 1;
      var k := n.value / 2 / 2;
      if isForeign && k == 0 {
        if hasMore { return None; }
        FoundAll(found, |cg.clientWithLv|, reader.buf, readMap.State(), cg.names);
        return Some(GrowingGraph.SortUp(found));
      }
      var parent := NextParent(reader, readMap, cg, k, isForeign);
      if parent.None? { return None; }
      FoundMore(found, parent.value, ReadParents(reader.buf, readMap.State(), cg.names, cg.clientWithLv), |cg.clientWithLv|);
      FoundLast(found, parent.value, |cg.clientWithLv|, reader.buf, readMap.State(), cg.names);
      found := found + [parent.value];
      if !hasMore {
        return Some(GrowingGraph.SortUp(found));
      }
    }
  }

  /** More parents, after those that have been found. */
  ghost function After(found: seq<nat>, o: Option<ParentsRead>): Option<ParentsRead> {
    match o
    case None => None
    case Some(ps) => Some(ps.(parents := found + ps.parents))
  }

  /** One round of reading parents. */
  lemma {:induction false} NextParents(b: Bytes, r: Reader, names: seq<Name>, ids: seq<AgentVersion>)
    ensures var n := NextNumber(b); var o := ReadParents(b, r, names, ids);
            if n.None? then o == None
            else
              var isForeign, hasMore, k := n.value.value % 2 == 1, n.value.value / 2 % 2 == 1, n.value.value / 2 / 2;
              if isForeign && k == 0 then o == if hasMore then None else Some(ParentsRead(n.value.rest, r, names, []))
              else
                var p := ReadParent(n.value.rest, r, names, ids, k, isForeign);
                if p.None? then o == None
                else if !hasMore then o == p
                else o == After(p.value.parents, ReadParents(p.value.rest, p.value.r, p.value.names, ids))
  {
    hide NextNumber, ReadParent;
  }

  lemma {:induction false} FoundNone(o: Option<ParentsRead>, n: nat)
    ensures After([], o) == o && Below([], n)
  {
    if o.Some? { assert [] + o.value.parents == o.value.parents; }
  }

  lemma {:induction false} FoundNothing(found: seq<nat>)
    ensures After(found, None) == None
  {
  }

  lemma {:induction false} FoundMore(found: seq<nat>, p: nat, o: Option<ParentsRead>, n: nat)
    requires Below(found, n) && p < n
    ensures After(found, After([p], o)) == After(found + [p], o) && Below(found + [p], n)
  {
    if o.Some? { assert found + ([p] + o.value.parents) == found + [p] + o.value.parents; }
  }

  lemma {:induction false} FoundAll(found: seq<nat>, n: nat, b: Bytes, r: Reader, names: seq<Name>)
    requires Below(found, n)
    ensures After(found, Some(ParentsRead(b, r, names, []))) == Some(ParentsRead(b, r, names, found)) && Below(GrowingGraph.SortUp(found), n)
  {
    assert found + [] == found;
  }

  lemma {:induction false} FoundLast(found: seq<nat>, p: nat, n: nat, b: Bytes, r: Reader, names: seq<Name>)
    requires Below(found, n) && p < n
    ensures After(found, Some(ParentsRead(b, r, names, [p]))) == Some(ParentsRead(b, r, names, found + [p])) && Below(GrowingGraph.SortUp(found + [p]), n)
  {
  }

  // ---- Entries ----

  /** `read_raw`: without parents the run goes on top of what was read last. */
  method ReadRaw(reader: BufParser, readMap: ReadMap, cg: CausalGraph) returns (raw: Option<(Span, seq<nat>)>)
    requires cg.Valid() && Linked(readMap, cg)
    modifies reader, readMap, cg
    ensures Linked(readMap, cg) && OnlyNames(cg) && readMap.got == old(readMap.got)
    ensures raw.Some? ==> raw.value.0.agent < |cg.names| && 0 < raw.value.0.len && Below(raw.value.1, |cg.clientWithLv|)
    ensures var o := WireFormat.ReadRaw(old(reader.buf), old(readMap.State()), old(cg.names), cg.clientWithLv);
            && (raw.None? <==> o.None?)
            && (raw.Some? ==>
                  && o.value.span == SpanRead(reader.buf, readMap.State(), cg.names, raw.value.0.hasParents, raw.value.0.agent, raw.value.0.seqStart, raw.value.0.len)
                  && o.value.parents == raw.value.1)
  {
    hide ReadSpan, ReadParents, Maps, Sorted, SeesAll, WireGraph.Indexed, ValidCg, GrowingGraph.SortUp;
    var span := ReadCgAa(reader, readMap, cg);
    if span.None? { return None; }
    if span.value.hasParents {
      var parents := ReadParentsRaw(reader, readMap, cg);
      if parents.None? { return None; }
      return Some((span.value, parents.value));
    } else {
      var last := readMap.LastTime();
      if last.None? { return None; }
      return Some((span.value, [last.value]));
    }
  }

  // ---- Noting what was merged ----

  /** Notes the versions of a run, piece by piece, as the agent's list has them. */
  method NoteSpan(readMap: ReadMap, cg: CausalGraph, agent: nat, seqStart: nat, seqEnd: nat)
    requires cg.Valid() && Linked(readMap, cg) && agent < |cg.names| && seqStart < seqEnd
    modifies readMap
    ensures Linked(readMap, cg) && readMap.agentMap == old(readMap.agentMap)
    ensures readMap.got == old(readMap.got) + SpanLvs(cg.clientWithLv, agent, seqStart, seqEnd)
  {
    hide Maps, EntryMaps, SeesAll, ValidCg, WireGraph.Indexed, AgentIndexed, SpanLvs, Locate, LvOf, PackedClient, Sorted, NotedTo;
    ListOf(cg.Value(), cg.lvForSeq, agent);
    var list := cg.lvForSeq[agent];
    ghost var ids := cg.clientWithLv;
    var i: nat := Locate(list, seqStart, 0, |list|).idx;
    ghost var at: nat := seqStart;
    NothingYet(ids, agent, seqStart, readMap.got);
    FirstPiece(list, i, seqStart, seqEnd);
    while i < |list| && list[i].seqStart < seqEnd
      invariant i <= |list| && seqStart <= at <= seqEnd && NotedTo(list, i, seqStart, seqEnd, at)
      invariant Linked(readMap, cg) && readMap.agentMap == old(readMap.agentMap)
      invariant readMap.got == old(readMap.got) + SpanLvs(ids, agent, seqStart, at)
    {
      var e := list[i];
      var from := if e.seqStart < seqStart then seqStart else e.seqStart;
      var upTo := if e.seqEnd > seqEnd then seqEnd else e.seqEnd;
      var version := e.version + (from - e.seqStart);
      NextPiece(list, i, seqStart, seqEnd, at);
      PieceNoted(cg.Value(), list, agent, i, seqStart, at, from, upTo, old(readMap.got));
      readMap.PushTxn(version, upTo - from);
      i := i + 1;
      at := upTo;
    }
    if at < seqEnd {
      NoMorePieces(list, i, seqStart, seqEnd, at);
      UnknownGap(ids, list, agent, seqStart, at, seqEnd);
    }
  }

  /** The pieces before `i` have been noted, up to sequence number `at`. */
  ghost predicate NotedTo(list: seq<ClientEntry>, i: nat, seqStart: nat, seqEnd: nat, at: nat) {
    && i <= |list| && seqStart <= at <= seqEnd
    && (forall j | 0 <= j < i :: list[j].seqEnd <= at || at == seqEnd)
    && forall j | i <= j < |list| :: at < list[j].seqEnd && (at == seqStart || at <= list[j].seqStart)
  }

  lemma {:induction false} NextPiece(list: seq<ClientEntry>, i: nat, seqStart: nat, seqEnd: nat, at: nat)
    requires Sorted(list) && NotedTo(list, i, seqStart, seqEnd, at) && seqStart < seqEnd && i < |list| && list[i].seqStart < seqEnd
    ensures var from := if list[i].seqStart < seqStart then seqStart else list[i].seqStart;
            var upTo := if list[i].seqEnd > seqEnd then seqEnd else list[i].seqEnd;
            && at <= from < upTo && NotedTo(list, i + 1, seqStart, seqEnd, upTo)
            && (at < from ==> forall j | 0 <= j < |list| :: list[j].seqEnd <= at || from <= list[j].seqStart)
  {
    assert list[i].seqStart < list[i].seqEnd;
    forall j | i < j < |list|
      ensures list[i].seqEnd <= list[j].seqStart < list[j].seqEnd
    {
    }
  }

  lemma {:induction false} NoMorePieces(list: seq<ClientEntry>, i: nat, seqStart: nat, seqEnd: nat, at: nat)
    requires Sorted(list) && NotedTo(list, i, seqStart, seqEnd, at) && at < seqEnd && (i < |list| ==> seqEnd <= list[i].seqStart)
    ensures forall j | 0 <= j < |list| :: list[j].seqEnd <= at || seqEnd <= list[j].seqStart
  {
    forall j | i < j < |list|
      ensures seqEnd <= list[j].seqStart
    {
      assert list[i].seqStart < list[i].seqEnd <= list[j].seqStart;
    }
  }

  lemma {:induction false} FirstPiece(list: seq<ClientEntry>, i: nat, seqStart: nat, seqEnd: nat)
    requires Sorted(list) && seqStart < seqEnd && i <= |list| && i == Locate(list, seqStart, 0, |list|).idx
    ensures NotedTo(list, i, seqStart, seqEnd, seqStart)
  {
    hide Locate;
    forall j, k | 0 <= j < k < |list|
      ensures list[j].seqEnd <= list[k].seqStart < list[k].seqEnd
    {
    }
    if i < |list| { assert list[i].seqStart < list[i].seqEnd; }
  }

  lemma {:induction false} PieceNoted(c: Cg, list: seq<ClientEntry>, agent: nat, i: nat, seqStart: nat, at: nat, from: nat, upTo: nat, got: seq<nat>)
    requires ValidCg(c) && AgentIndexed(c.ids, list, agent) && i < |list| && seqStart <= at <= from < upTo <= list[i].seqEnd && list[i].seqStart <= from
    requires at < from ==> forall j | 0 <= j < |list| :: list[j].seqEnd <= at || from <= list[j].seqStart
    ensures var version := list[i].version + (from - list[i].seqStart);
            && got + SpanLvs(c.ids, agent, seqStart, at) + Lvs(version, upTo - from) == got + SpanLvs(c.ids, agent, seqStart, upTo)
            && version + (upTo - from) <= |c.ids|
  {
    hide AgentIndexed, ValidCg, SpanLvs;
    if at < from {
      UnknownGap(c.ids, list, agent, seqStart, at, from);
    }
    KnownRun(c, list, agent, i, seqStart, from, upTo);
    Regroup(got, SpanLvs(c.ids, agent, seqStart, at), Lvs(list[i].version + (from - list[i].seqStart), upTo - from));
  }

  lemma {:induction false} NothingYet(ids: seq<AgentVersion>, agent: nat, seqStart: nat, got: seq<nat>)
    ensures got + SpanLvs(ids, agent, seqStart, seqStart) == got
  {
  }

  lemma {:induction false} Regroup(a: seq<nat>, b: seq<nat>, c: seq<nat>)
    ensures a + b + c == a + (b + c)
  {
  }

  lemma {:induction false} UnknownGap(ids: seq<AgentVersion>, list: seq<ClientEntry>, agent: nat, seqStart: nat, at: nat, from: nat)
    requires AgentIndexed(ids, list, agent) && seqStart <= at <= from
    requires forall i | 0 <= i < |list| :: list[i].seqEnd <= at || from <= list[i].seqStart
    ensures SpanLvs(ids, agent, seqStart, from) == SpanLvs(ids, agent, seqStart, at)
    decreases from
  {
    hide AgentIndexed;
    if at < from {
      Unlisted(ids, list, agent, at, from);
      UnknownGap(ids, list, agent, seqStart, at, from - 1);
    }
  }

  lemma {:induction false} KnownRun(c: Cg, list: seq<ClientEntry>, agent: nat, i: nat, seqStart: nat, from: nat, upTo: nat)
    requires ValidCg(c) && AgentIndexed(c.ids, list, agent) && i < |list| && list[i].seqStart <= from <= upTo <= list[i].seqEnd && seqStart <= from
    ensures SpanLvs(c.ids, agent, seqStart, upTo) == SpanLvs(c.ids, agent, seqStart, from) + Lvs(list[i].version + (from - list[i].seqStart), upTo - from)
    ensures upTo > from ==> list[i].version + (upTo - list[i].seqStart) <= |c.ids|
    decreases upTo
  {
    hide AgentIndexed, ValidCg, LvOf;
    if from < upTo {
      KnownAt(c, list, agent, i, upTo - 1);
      KnownRun(c, list, agent, i, seqStart, from, upTo - 1);
      assert Lvs(list[i].version + (from - list[i].seqStart), upTo - from)
             == Lvs(list[i].version + (from - list[i].seqStart), upTo - 1 - from) + [list[i].version + (upTo - 1 - list[i].seqStart)];
    }
  }

  /** `read_cg_entry_into_cg`: reads an entry, merges what is new of it, and notes all of it. */
  method ReadCgEntryIntoCg(reader: BufParser, readMap: ReadMap, cg: CausalGraph) returns (ok: bool)
    requires cg.Valid() && Linked(readMap, cg)
    modifies reader, readMap, cg, cg.version
    ensures cg.Valid() && Linked(readMap, cg) && old(cg.clientWithLv) <= cg.clientWithLv && old(cg.graph) <= cg.graph
    ensures ok == ReadEntry(old(reader.buf), old(readMap.State()), old(cg.Value())).Some?
    ensures ok ==> ReadEntry(old(reader.buf), old(readMap.State()), old(cg.Value())) == Some(EntryRead(reader.buf, readMap.State(), cg.Value()))
  {
    hide WireFormat.ReadRaw, Merge, SpanLvs, Maps, Sorted, SeesAll, WireGraph.Indexed, ValidCg, NewFrom;
    var raw := ReadRaw(reader, readMap, cg);
    if raw.None? { return false; }
    var (span, parents) := raw.value;
    ghost var c, got := cg.Value(), readMap.got;
    assert ValidCg(c);
    WireMerge.MergeValid(c, parents, span.agent, span.seqStart, span.len);
    var start, count := cg.MergeAndAssign(parents, span.agent, span.seqStart, span.len);
    if count == span.len {
      AllNew(c, parents, span.agent, span.seqStart, span.len);
      readMap.PushTxn(start, count);
    } else {
      NoteSpan(readMap, cg, span.agent, span.seqStart, span.seqStart + span.len);
    }
    ok := true;
  }

  /** A run of which nothing was known is noted as a whole. */
  lemma {:induction false} AllNew(c: Cg, parents: seq<nat>, agent: nat, seqStart: nat, len: nat)
    requires ValidCg(c) && agent < |c.names| && Below(parents, |c.ids|)
    requires |Merge(c, parents, agent, seqStart, len).ids| == |c.ids| + len
    ensures SpanLvs(Merge(c, parents, agent, seqStart, len).ids, agent, seqStart, seqStart + len) == Lvs(|c.ids|, len)
  {
    hide SpanLvs, ValidCg, NewFrom;
    var c' := Merge(c, parents, agent, seqStart, len);
    WireMerge.MergeValid(c, parents, agent, seqStart, len);
    assert NewFrom(c.ids, agent, seqStart, seqStart + len) == seqStart;
    forall x | seqStart <= x < seqStart + len
      ensures AgentVersion(agent, x) in c'.ids
    {
      assert c'.ids[|c.ids| + (x - seqStart)] == AgentVersion(agent, x);
    }
    WireMerge.SpanLvsAll(c'.ids, agent, seqStart, seqStart + len);
    var us := SpanLvs(c'.ids, agent, seqStart, seqStart + len);
    forall i | 0 <= i < len
      ensures us[i] == |c.ids| + i
    {
      SameVersion(c', us[i], |c.ids| + i);
    }
  }

  lemma {:induction false} SameVersion(c: Cg, u: nat, v: nat)
    requires ValidCg(c) && u < |c.ids| && v < |c.ids| && c.ids[u] == c.ids[v]
    ensures u == v
  {
  }

  /** `merge_serialized_changes`. */
  method MergeSerializedChanges(cg: CausalGraph, msg: Bytes) returns (ok: bool)
    requires cg.Valid()
    modifies cg, cg.version
    ensures cg.Valid() && old(cg.clientWithLv) <= cg.clientWithLv && old(cg.graph) <= cg.graph
    ensures ok == ReadAll(msg, Reader([], []), old(cg.Value())).Some?
    ensures ok ==> ReadAll(msg, Reader([], []), old(cg.Value())) == Some(cg.Value())
  {
    hide ReadEntry, Maps, Sorted, SeesAll, WireGraph.Indexed, ValidCg;
    var readMap := new ReadMap();
    var buf := new BufParser(msg);
    ghost var all := ReadAll(msg, Reader([], []), cg.Value());
    while |buf.buf| > 0
      invariant cg.Valid() && Linked(readMap, cg) && fresh(readMap) && fresh(buf)
      invariant old(cg.clientWithLv) <= cg.clientWithLv && old(cg.graph) <= cg.graph
      invariant all == ReadAll(buf.buf, readMap.State(), cg.Value())
      decreases |buf.buf|
    {
      var read := ReadCgEntryIntoCg(buf, readMap, cg);
      if !read { return false; }
    }
    ok := true;
  }
}
