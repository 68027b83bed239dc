/** Writing the changes of a causal graph as bytes. */
module WireWriter {
  import opened Ranges
  import opened ListLog
  import opened AgentIndex
  import opened Varint
  import opened WireFormat
  import opened WireMaps
  import opened WireGraph
  import opened WireUnion
  import WireRoundTrip

  /** `write_cg_aa`: whose run it is, how long, and where it starts. */
  method WriteCgAa(result: ByteSink, writeParents: bool, e: Entry, writeMap: WriteMap, cg: CausalGraph)
    requires cg.Valid() && writeMap.Valid() && e.agent < |cg.names|
    modifies result, writeMap
    ensures writeMap.Valid() && writeMap.txnMap == old(writeMap.txnMap) && writeMap.sent == old(writeMap.sent)
    ensures result.bytes == old(result.bytes) + WriteSpan(old(writeMap.State()), cg.Value(), e, writeParents).bytes
    ensures writeMap.State() == WriteSpan(old(writeMap.State()), cg.Value(), e, writeParents).w
  {
    hide EncodeU32, EncodeU64, PushU32, PushU64, PushStr, NumberBytes, Maps, EntryMaps, Sorted, ValidCg, Indexed, SeesAll, Mix, Zigzag, FindAgent, PlaceOf, Mentioned, WriteSpan;
    ghost var w := writeMap.State();
    var mapped := writeMap.MapMut(e.agent);
    var delta := writeMap.SeqDelta(e.agent, e.seqStart, e.seqStart + e.len, PlaceOf(w.agents, e.agent));
    var n := Mix(Mix(Mix(if mapped.Some? then mapped.value else 0, delta != 0), mapped.Some?), writeParents);
    SpanParts(w, cg.Value(), e, writeParents, delta, n);
    WriteNumbers(result, n, if mapped.Some? then None else Some(cg.names[e.agent]), e.len, delta);
  }

  /** The flags, the name if the agent is new to the message, the length and the jump. */
  ghost function NumberBytes(n: nat, name: Option<Name>, len: nat, delta: int): Bytes {
    PushU32(n) + (if name.None? then [] else PushStr(name.value)) + PushU64(len) + (if delta != 0 then PushU64(Zigzag(delta)) else [])
  }

  method WriteNumbers(result: ByteSink, n: nat, name: Option<Name>, len: nat, delta: int)
    modifies result
    ensures result.bytes == old(result.bytes) + NumberBytes(n, name, len, delta)
  {
    hide EncodeU32, EncodeU64, PushU32, PushU64, PushStr, Zigzag;
    ghost var bytes0, head, text, size, jump := result.bytes, PushU32(n), [], PushU64(len), [];
    result.Extend(PushU32(n));
    if name.Some? {
      text := PushStr(name.value);
      result.Extend(PushStr(name.value));
    }
    TwoParts(bytes0, head, text);
    assert result.bytes == bytes0 + (head + text);
    result.Extend(PushU64(len));
    TwoParts(bytes0, head + text, size);
    if delta != 0 {
      jump := PushU64(Zigzag(delta));
      result.Extend(PushU64(Zigzag(delta)));
    }
    TwoParts(bytes0, head + text + size, jump);
  }

  lemma {:induction false} SpanParts(w: Writer, c: Cg, e: Entry, hasParents: bool, delta: int, n: nat)
    requires e.agent < |c.names| && delta == e.seqStart - Mentioned(w.agents, e.agent)[PlaceOf(w.agents, e.agent)].next
    requires var known := FindAgent(w.agents, e.agent); n == Mix(Mix(Mix(if known.Some? then known.value else 0, delta != 0), known.Some?), hasParents)
    ensures WriteSpan(w, c, e, hasParents)
            == Written(w.(agents := Mentioned(w.agents, e.agent)[PlaceOf(w.agents, e.agent) := Seen(e.agent, e.seqStart + e.len)]),
                       NumberBytes(n, if FindAgent(w.agents, e.agent).Some? then None else Some(c.names[e.agent]), e.len, delta))
  {
    hide Mentioned, Mix, PushU32, PushU64, PushStr, Zigzag;
  }

  /** A version that has been sent has one place in the message. */
  lemma {:induction false} SentOnce(m: WriteMap, sent0: seq<nat>, p: nat, t: Option<nat>)
    requires m.ValidTxns() && sent0 <= m.sent && forall i | |sent0| <= i < |m.sent| :: m.sent[i] != p
    requires (t.Some? ==> Maps(m.txnMap, p, t.value)) && (t.None? ==> forall u: nat :: !Maps(m.txnMap, p, u))
    ensures IndexOf(sent0, p) == t
  {
    hide Maps;
    if t.Some? {
      assert sent0[t.value] == p && p in sent0;
      var k := IndexOf(sent0, p).value;
      assert m.sent[k] == p;
      MapsOnce(m.txnMap, p, k, t.value);
    } else {
      forall i | 0 <= i < |sent0|
        ensures sent0[i] != p
      {
        assert !Maps(m.txnMap, p, i);
      }
    }
  }

  /** One parent: by its distance if it has been sent, by its ID otherwise. */
  method WriteOneParent(result: ByteSink, p: nat, hasMore: bool, nextOutputTime: nat, writeMap: WriteMap, cg: CausalGraph, ghost sent0: seq<nat>)
    requires cg.Valid() && writeMap.Valid() && p < |cg.clientWithLv| && cg.clientWithLv[p].agent < |cg.names|
    requires sent0 <= writeMap.sent && nextOutputTime == |sent0| && forall i | |sent0| <= i < |writeMap.sent| :: writeMap.sent[i] != p
    modifies result, writeMap
    ensures writeMap.Valid() && writeMap.sent == old(writeMap.sent)
    ensures var wr := WriteParent(Writer(old(writeMap.agents), sent0), cg.Value(), p, hasMore);
            result.bytes == old(result.bytes) + wr.bytes && writeMap.agents == wr.w.agents && wr.w.sent == sent0
  {
    hide EncodeU64, PushU64, PushStr, ForeignBytes, Maps, Sorted, Mix, IndexOf, FindAgent, Mentioned, WriteParent, SeesAll, WireGraph.Indexed, Distinct;
    ghost var w := Writer(writeMap.agents, sent0);
    var t := FindWithOffset(writeMap.txnMap, p);
    SentOnce(writeMap, sent0, p, t);
    ParentParts(w, cg.Value(), p, hasMore, t);
    if t.Some? {
      result.Extend(PushU64(Mix(Mix(nextOutputTime - t.value, hasMore), false)));
    } else {
      var item := cg.clientWithLv[p];
      var mapped := writeMap.MapMut(item.agent);
      WriteForeign(result, Mix(Mix(if mapped.Some? then mapped.value + 2 else 1, hasMore), true),
                   if mapped.Some? then None else Some(cg.names[item.agent]), item.seqNo);
    }
  }

  lemma {:induction false} ParentParts(w: Writer, c: Cg, p: nat, hasMore: bool, t: Option<nat>)
    requires p < |c.ids| && c.ids[p].agent < |c.names| && t == IndexOf(w.sent, p)
    ensures var id := c.ids[p]; var m := FindAgent(w.agents, id.agent);
            WriteParent(w, c, p, hasMore)
            == if t.Some? then Written(w, PushU64(Mix(Mix(|w.sent| - t.value, hasMore), false)))
               else Written(w.(agents := Mentioned(w.agents, id.agent)),
                            ForeignBytes(Mix(Mix(if m.Some? then m.value + 2 else 1, hasMore), true), if m.Some? then None else Some(c.names[id.agent]), id.seqNo))
  {
  }

  /** A parent by its ID: the number announced, the name if the agent is new to the message, the sequence number. */
  ghost function ForeignBytes(n: nat, name: Option<Name>, seqNo: nat): Bytes {
    if name.None? then PushU64(n) + PushU64(seqNo) else PushU64(n) + PushStr(name.value) + PushU64(seqNo)
  }

  method WriteForeign(result: ByteSink, n: nat, name: Option<Name>, seqNo: nat)
    modifies result
    ensures result.bytes == old(result.bytes) + ForeignBytes(n, name, seqNo)
  {
    hide EncodeU64, PushU64, PushStr;
    ghost var bytes0, head := result.bytes, PushU64(n);
    result.Extend(PushU64(n));
    if name.Some? {
      result.Extend(PushStr(name.value));
      TwoParts(bytes0, head, PushStr(name.value));
      head := head + PushStr(name.value);
      assert result.bytes == bytes0 + head;
    }
    result.Extend(PushU64(seqNo));
    TwoParts(bytes0, head, PushU64(seqNo));
  }

  /** `write_parents_raw`. */
  method WriteParentsRaw(result: ByteSink, parents: seq<nat>, nextOutputTime: nat, writeMap: WriteMap, cg: CausalGraph, ghost sent0: seq<nat>)
    requires cg.Valid() && writeMap.Valid() && ParentsIn(cg.Value(), parents)
    requires sent0 <= writeMap.sent && nextOutputTime == |sent0|
    requires forall i, p | |sent0| <= i < |writeMap.sent| && p in parents :: writeMap.sent[i] != p
    modifies result, writeMap
    ensures writeMap.Valid() && writeMap.sent == old(writeMap.sent)
    ensures var wr := WriteParents(Writer(old(writeMap.agents), sent0), cg.Value(), parents);
            result.bytes == old(result.bytes) + wr.bytes && writeMap.agents == wr.w.agents && wr.w.sent == sent0
  {
    hide EncodeU64, PushU64, PushStr, Mix, WriteParent, WriteParentList;
    ghost var bytes0, agents0, c := result.bytes, writeMap.agents, cg.Value();
    if |parents| == 0 {
      result.Extend(PushU64(Mix(Mix(0, false), true)));
      return;
    }
    ghost var all := WriteParentList(Writer(agents0, sent0), c, parents);
    assert parents[0..] == parents;
    var i: nat := 0;
    while i < |parents|
      invariant i <= |parents| && writeMap.Valid() && writeMap.sent == old(writeMap.sent)
      invariant ParentsIn(c, parents[i..])
      invariant var rest := WriteParentList(Writer(writeMap.agents, sent0), c, parents[i..]);
                result.bytes + rest.bytes == bytes0 + all.bytes && rest.w == all.w
    {
      ListStep(Writer(writeMap.agents, sent0), c, parents, i);
      ghost var before, agents1 := result.bytes, writeMap.agents;
      assert parents[i] in parents;
      WriteOneParent(result, parents[i], i + 1 < |parents|, nextOutputTime, writeMap, cg, sent0);
      TwoParts(before, WriteParent(Writer(agents1, sent0), c, parents[i], i + 1 < |parents|).bytes, WriteParentList(Writer(writeMap.agents, sent0), c, parents[i + 1..]).bytes);
      i := i + 1;
    }
    ListDone(Writer(writeMap.agents, sent0), c, parents[i..]);
    assert result.bytes + [] == result.bytes;
  }

  lemma {:induction false} TwoParts(a: Bytes, b: Bytes, c: Bytes)
    ensures a + b + c == a + (b + c) && a + [] == a && a + b + [] == a + b
  {
  }

  lemma {:induction false} ListStep(w: Writer, c: Cg, parents: seq<nat>, i: nat)
    requires i < |parents| && ParentsIn(c, parents[i..])
    ensures parents[i] < |c.ids| && c.ids[parents[i]].agent < |c.names| && ParentsIn(c, parents[i + 1..])
    ensures var first := WriteParent(w, c, parents[i], i + 1 < |parents|);
            var rest := WriteParentList(first.w, c, parents[i + 1..]);
            WriteParentList(w, c, parents[i..]) == Written(rest.w, first.bytes + rest.bytes)
  {
    hide WriteParent;
    assert parents[i..][0] == parents[i] && parents[i..][1..] == parents[i + 1..];
  }

  lemma {:induction false} ListDone(w: Writer, c: Cg, parents: seq<nat>)
    requires parents == []
    ensures ParentsIn(c, parents) && WriteParentList(w, c, parents) == Written(w, [])
  {
  }

  /** `write_cg_entry`: entries are written in ascending order. */
  method WriteCgEntry(result: ByteSink, data: Entry, writeMap: WriteMap, cg: CausalGraph)
    requires cg.Valid() && writeMap.Valid() && EntryIn(cg.Value(), data) && 0 < data.len
    requires (forall p | p in data.parents :: p < data.start) && forall t | 0 <= t < |writeMap.sent| :: writeMap.sent[t] < data.start
    modifies result, writeMap
    ensures writeMap.Valid()
    ensures result.bytes == old(result.bytes) + WriteEntry(old(writeMap.State()), cg.Value(), data).bytes
    ensures writeMap.State() == WriteEntry(old(writeMap.State()), cg.Value(), data).w
  {
    hide WriteSpan, WriteParents, Maps, EncodeU64, IndexOf;
    ghost var w0, bytes0 := writeMap.State(), result.bytes;
    var writeParents := data.parents != [data.start - 1] || data.start == 0;
    if !writeParents {
      var t := FindWithOffset(writeMap.txnMap, data.start - 1);
      SentOnce(writeMap, writeMap.sent, data.start - 1, t);
      writeParents := t.None?;
    }
    assert writeParents == ParentsWritten(w0, data);
    var nextOutputTime := NextOutput(writeMap.txnMap);
    writeMap.InsertKnown(data.start, data.len);
    SpanWith(w0, writeMap.State(), cg.Value(), data, writeParents);
    WriteCgAa(result, writeParents, data, writeMap, cg);
    if writeParents {
      ghost var span := WriteSpan(w0, cg.Value(), data, writeParents);
      WriteParentsRaw(result, data.parents, nextOutputTime, writeMap, cg, w0.sent);
      TwoParts(bytes0, span.bytes, WriteParents(span.w, cg.Value(), data.parents).bytes);
    } else {
      assert result.bytes + [] == result.bytes;
    }
  }

  /** A span is written without regard to what has been sent. */
  lemma {:induction false} SpanWith(w: Writer, w': Writer, c: Cg, e: Entry, hasParents: bool)
    requires w'.agents == w.agents && e.agent < |c.names|
    ensures WriteSpan(w', c, e, hasParents) == Written(WriteSpan(w, c, e, hasParents).w.(sent := w'.sent), WriteSpan(w, c, e, hasParents).bytes)
    ensures WriteSpan(w, c, e, hasParents).w.sent == w.sent
  {
  }

  // ---- Cutting versions into entries ----

  /** The version goes on from the one before: its only parent, and the next ID of the same agent. */
  predicate GoesOn(c: Cg, v: nat)
    requires 0 < v < |c.ids| == |c.g|
  {
    c.g[v] == [v - 1] && c.ids[v] == AgentVersion(c.ids[v - 1].agent, c.ids[v - 1].seqNo + 1)
  }

  /** Where the longest run from `v` on ends. */
  ghost function RunEnd(c: Cg, v: nat, end: nat): (x: nat)
    requires v < end <= |c.ids| == |c.g|
    ensures v < x <= end
    decreases end - v
  {
    if v + 1 == end || !GoesOn(c, v + 1) then v + 1 else RunEnd(c, v + 1, end)
  }

  ghost function EntryFrom(c: Cg, v: nat, end: nat): Entry
    requires v < end <= |c.ids| == |c.g|
  {
    Entry(v, c.ids[v].agent, c.ids[v].seqNo, RunEnd(c, v, end) - v, c.g[v])
  }

  /** The versions from `v` to `end` as the longest entries there are: what `iter_range` yields,
      joined by the merger. */
  ghost function CutRange(c: Cg, v: nat, end: nat): seq<Entry>
    requires v <= end <= |c.ids| == |c.g|
    decreases end - v
  {
    if v == end then [] else [EntryFrom(c, v, end)] + CutRange(c, RunEnd(c, v, end), end)
  }

  /** A run with the version after it. */
  lemma {:induction false} PieceGrows(c: Cg, start: nat, v: nat)
    requires start < v < |c.ids| == |c.g| && GoesOn(c, v)
    requires WireRoundTrip.IsPiece(c, Entry(start, c.ids[start].agent, c.ids[start].seqNo, v - start, c.g[start]))
    ensures WireRoundTrip.IsPiece(c, Entry(start, c.ids[start].agent, c.ids[start].seqNo, v + 1 - start, c.g[start]))
  {
    assert c.ids[v - 1] == AgentVersion(c.ids[start].agent, c.ids[start].seqNo + (v - 1 - start));
  }

  lemma {:induction false} PieceOne(c: Cg, start: nat)
    requires start < |c.ids| == |c.g|
    ensures WireRoundTrip.IsPiece(c, Entry(start, c.ids[start].agent, c.ids[start].seqNo, 1, c.g[start]))
  {
  }

  /** The entries of a range follow one another without a gap, each is a run, and none of them could be longer. */
  lemma {:induction false} CutIsLongest(c: Cg, v: nat, end: nat, i: nat)
    requires v <= end <= |c.ids| == |c.g| && i < |CutRange(c, v, end)|
    ensures var es := CutRange(c, v, end); var e := es[i]; var next := e.start + e.len;
            && v <= e.start < next <= end && WireRoundTrip.IsPiece(c, e)
            && e.start == (if i == 0 then v else es[i - 1].start + es[i - 1].len)
            && (if i + 1 == |es| then next == end
                else next < end && !(c.g[next] == [next - 1] && c.ids[next] == AgentVersion(e.agent, e.seqStart + e.len)))
    decreases i
  {
    hide WireRoundTrip.IsPiece, GoesOn;
    RunIsLongest(c, v, v, end);
    var x := RunEnd(c, v, end);
    if i == 0 {
      assert x < end ==> CutRange(c, x, end) != [];
    } else {
      CutIsLongest(c, x, end, i - 1);
    }
  }

  lemma {:induction false} RunIsLongest(c: Cg, start: nat, v: nat, end: nat)
    requires start <= v < end <= |c.ids| == |c.g|
    requires WireRoundTrip.IsPiece(c, Entry(start, c.ids[start].agent, c.ids[start].seqNo, v + 1 - start, c.g[start])) || start == v
    ensures var x := RunEnd(c, v, end); var e := Entry(start, c.ids[start].agent, c.ids[start].seqNo, x - start, c.g[start]);
            && WireRoundTrip.IsPiece(c, e)
            && (x < end ==> !(c.g[x] == [x - 1] && c.ids[x] == AgentVersion(e.agent, e.seqStart + e.len)))
    decreases end - v
  {
    if start == v { PieceOne(c, start); }
    assert c.ids[v] == AgentVersion(c.ids[start].agent, c.ids[start].seqNo + (v - start));
    if v + 1 < end && GoesOn(c, v + 1) {
      PieceGrows(c, start, v + 1);
      RunIsLongest(c, start, v + 1, end);
    }
  }

  ghost predicate RangesIn(ranges: seq<LVRange>, n: nat) {
    forall i | 0 <= i < |ranges| :: ranges[i].start <= ranges[i].end <= n
  }

  /** The entries of a message: each range is cut for itself. */
  ghost function CutAll(c: Cg, ranges: seq<LVRange>): seq<Entry>
    requires |c.ids| == |c.g| && RangesIn(ranges, |c.ids|)
  {
    if ranges == [] then []
    else
      var k := |ranges| - 1;
      CutAll(c, ranges[..k]) + CutRange(c, ranges[k].start, ranges[k].end)
  }

  method NextEntry(cg: CausalGraph, start: nat, end: nat) returns (e: Entry)
    requires cg.Valid() && start < end <= |cg.graph|
    ensures e == EntryFrom(cg.Value(), start, end) && WireRoundTrip.IsPiece(cg.Value(), e)
  {
    hide SeesAll, Indexed, Distinct, WireRoundTrip.IsPiece;
    ghost var c := cg.Value();
    var v := start + 1;
    PieceOne(c, start);
    while v < end && cg.graph[v] == [v - 1] && cg.clientWithLv[v] == AgentVersion(cg.clientWithLv[v - 1].agent, cg.clientWithLv[v - 1].seqNo + 1)
      invariant start < v <= end && RunEnd(c, start, end) == RunEnd(c, v - 1, end)
      invariant WireRoundTrip.IsPiece(c, Entry(start, c.ids[start].agent, c.ids[start].seqNo, v - start, c.g[start]))
    {
      PieceGrows(c, start, v);
      v := v + 1;
    }
    e := Entry(start, cg.clientWithLv[start].agent, cg.clientWithLv[start].seqNo, v - start, cg.graph[start]);
  }

  /** The entries cut the versions of `d` below `hi` into runs, in ascending order. */
  ghost predicate CutsTo(s: Cg, es: seq<Entry>, d: set<nat>, hi: nat)
    decreases |es|
  {
    if es == [] then forall v: nat | v < hi :: v !in d
    else
      var e := es[|es| - 1];
      && WireRoundTrip.IsPiece(s, e) && e.start + e.len <= hi
      && (forall v: nat | e.start + e.len <= v < hi :: v !in d)
      && (forall v: nat | e.start <= v < e.start + e.len :: v in d)
      && CutsTo(s, es[..|es| - 1], d, e.start)
  }

  lemma {:induction false} CutsJoin(s: Cg, es: seq<Entry>, more: seq<Entry>, d: set<nat>, lo: nat)
    requires CutsTo(s, es, d, lo) && Cuts(s, more, d, lo)
    ensures Cuts(s, es + more, d, 0)
    decreases |es|
  {
    hide WireRoundTrip.IsPiece;
    if es == [] {
      CutsFrom(s, more, d, 0, lo);
      assert es + more == more;
    } else {
      var k := |es| - 1;
      CutsFrom(s, more, d, es[k].start + es[k].len, lo);
      assert ([es[k]] + more)[1..] == more;
      CutsJoin(s, es[..k], [es[k]] + more, d, es[k].start);
      assert es[..k] + ([es[k]] + more) == es + more;
    }
  }

  lemma {:induction false} CutsFrom(s: Cg, es: seq<Entry>, d: set<nat>, lo: nat, hi: nat)
    requires Cuts(s, es, d, hi) && lo <= hi && forall v: nat | lo <= v < hi :: v !in d
    ensures Cuts(s, es, d, lo)
  {
    hide WireRoundTrip.IsPiece;
  }

  /** Writing one more entry. */
  lemma {:induction false} WriteMore(w: Writer, c: Cg, es: seq<Entry>, e: Entry)
    requires (forall i | 0 <= i < |es| :: EntryIn(c, es[i])) && EntryIn(c, e)
    ensures forall i | 0 <= i < |es + [e]| :: EntryIn(c, (es + [e])[i])
    ensures var before := WriteAll(w, c, es); var last := WriteEntry(before.w, c, e);
            WriteAll(w, c, es + [e]) == Written(last.w, before.bytes + last.bytes)
    decreases |es|
  {
    hide WriteEntry, EntryIn;
    if es == [] {
      assert es + [e] == [e] && [e][1..] == [];
      assert WriteAll(WriteEntry(w, c, e).w, c, []) == Written(WriteEntry(w, c, e).w, []);
      TwoParts([], WriteEntry(w, c, e).bytes, []);
    } else {
      assert EntryIn(c, es[0]);
      var first := WriteEntry(w, c, es[0]);
      WriteMore(first.w, c, es[1..], e);
      assert (es + [e])[1..] == es[1..] + [e];
      var before := WriteAll(first.w, c, es[1..]);
      TwoParts(first.bytes, before.bytes, WriteEntry(before.w, c, e).bytes);
    }
  }

  // ---- The whole message ----

  /** Where the writer stands: it has written the versions of `d` below `v`. */
  ghost predicate WrittenTo(bytes: Bytes, w: Writer, c: Cg, es: seq<Entry>, d: set<nat>, v: nat) {
    && CutsTo(c, es, d, v) && (forall i | 0 <= i < |es| :: EntryIn(c, es[i]))
    && WriteAll(Writer([], []), c, es) == Written(w, bytes) && forall t | 0 <= t < |w.sent| :: w.sent[t] < v
  }

  lemma {:induction false} SentBefore(bytes: Bytes, w: Writer, c: Cg, es: seq<Entry>, d: set<nat>, v: nat)
    requires WrittenTo(bytes, w, c, es, d, v)
    ensures forall t | 0 <= t < |w.sent| :: w.sent[t] < v
  {
  }

  lemma {:induction false} WrittenMore(bytes: Bytes, w: Writer, c: Cg, es: seq<Entry>, d: set<nat>, v: nat, e: Entry, bytes': Bytes, w': Writer)
    requires ValidCg(c) && WrittenTo(bytes, w, c, es, d, v) && EntryIn(c, e) && WireRoundTrip.IsPiece(c, e)
    requires v <= e.start && (forall x: nat | v <= x < e.start :: x !in d) && forall x: nat | e.start <= x < e.start + e.len :: x in d
    requires bytes' == bytes + WriteEntry(w, c, e).bytes && w' == WriteEntry(w, c, e).w
    ensures WrittenTo(bytes', w', c, es + [e], d, e.start + e.len)
  {
    hide WireRoundTrip.IsPiece, ValidCg, EntryIn, CutsTo, WriteAll, WriteEntry;
    WriteMore(Writer([], []), c, es, e);
    CutsUpTo(c, es, d, v, e.start);
    CutsMore(c, es, d, e);
    SentOf(w, c, e);
    SentStaysBelow(w, v, e);
  }

  lemma {:induction false} CutsMore(s: Cg, es: seq<Entry>, d: set<nat>, e: Entry)
    requires CutsTo(s, es, d, e.start) && WireRoundTrip.IsPiece(s, e) && forall x: nat | e.start <= x < e.start + e.len :: x in d
    ensures CutsTo(s, es + [e], d, e.start + e.len)
  {
    hide WireRoundTrip.IsPiece;
    assert (es + [e])[..|es|] == es;
  }

  lemma {:induction false} SentStaysBelow(w: Writer, v: nat, e: Entry)
    requires v <= e.start && forall t | 0 <= t < |w.sent| :: w.sent[t] < v
    ensures forall t | 0 <= t < |w.sent + Lvs(e.start, e.len)| :: (w.sent + Lvs(e.start, e.len))[t] < e.start + e.len
  {
  }

  lemma {:induction false} CutsUpTo(s: Cg, es: seq<Entry>, d: set<nat>, v: nat, hi: nat)
    requires CutsTo(s, es, d, v) && v <= hi && forall x: nat | v <= x < hi :: x !in d
    ensures CutsTo(s, es, d, hi)
  {
    hide WireRoundTrip.IsPiece;
  }

  lemma {:induction false} SentOf(w: Writer, c: Cg, e: Entry)
    requires EntryIn(c, e)
    ensures WriteEntry(w, c, e).w.sent == w.sent + Lvs(e.start, e.len)
  {
    hide WriteSpan, WriteParents;
  }

  lemma {:induction false} PieceIn(c: Cg, e: Entry)
    requires ValidCg(c) && WireRoundTrip.IsPiece(c, e)
    ensures EntryIn(c, e) && 0 < e.len && forall p | p in e.parents :: p < e.start
  {
    assert c.ids[e.start].agent == e.agent;
    forall i | 0 <= i < |e.parents|
      ensures e.parents[i] < |c.ids|
    {
      assert e.parents[i] in c.g[e.start];
    }
  }

  /** Writes the next entry after what has been written. */
  method WriteNext(result: ByteSink, e: Entry, writeMap: WriteMap, cg: CausalGraph, ghost es: seq<Entry>, ghost d: set<nat>)
    requires cg.Valid() && ValidCg(cg.Value()) && writeMap.Valid() && WireRoundTrip.IsPiece(cg.Value(), e)
    requires WrittenTo(result.bytes, writeMap.State(), cg.Value(), es, d, e.start) && forall x: nat | e.start <= x < e.start + e.len :: x in d
    modifies result, writeMap
    ensures writeMap.Valid() && WrittenTo(result.bytes, writeMap.State(), cg.Value(), es + [e], d, e.start + e.len)
  {
    hide WriteEntry, WriteAll, WireRoundTrip.IsPiece, ValidCg, WrittenTo, EntryIn;
    ghost var c, bytes, w := cg.Value(), result.bytes, writeMap.State();
    PieceIn(c, e);
    SentBefore(bytes, w, c, es, d, e.start);
    WriteCgEntry(result, e, writeMap, cg);
    WrittenMore(bytes, w, c, es, d, e.start, e, result.bytes, writeMap.State());
  }

  /** Writes one range of versions, cut into the longest entries there are. */
  method WriteRange(result: ByteSink, range: LVRange, writeMap: WriteMap, cg: CausalGraph, ghost es: seq<Entry>, ghost d: set<nat>)
    requires cg.Valid() && writeMap.Valid() && range.start <= range.end <= |cg.Value().ids| == |cg.Value().g|
    requires WrittenTo(result.bytes, writeMap.State(), cg.Value(), es, d, range.start) && forall x: nat | range.start <= x < range.end :: x in d
    modifies result, writeMap
    ensures writeMap.Valid() && WrittenTo(result.bytes, writeMap.State(), cg.Value(), es + CutRange(cg.Value(), range.start, range.end), d, range.end)
  {
    hide WriteEntry, WriteAll, WireRoundTrip.IsPiece, SeesAll, WireGraph.Indexed, ValidCg, WrittenTo, EntryIn, CutRange, EntryFrom;
    ghost var c, all, written := cg.Value(), es + CutRange(cg.Value(), range.start, range.end), es;
    var at: nat := range.start;
    while at < range.end
      invariant range.start <= at <= range.end
      invariant writeMap.Valid() && WrittenTo(result.bytes, writeMap.State(), c, written, d, at)
      invariant written + CutRange(c, at, range.end) == all
    {
      var e := NextEntry(cg, at, range.end);
      CutStep(c, at, range.end, written);
      WriteNext(result, e, writeMap, cg, written, d);
      written := written + [e];
      at := at + e.len;
    }
    CutDone(c, at, written);
  }

  /** `serialize_changes_since`, given the ranges of versions that are not in the frontier's history. */
  method SerializeChanges(cg: CausalGraph, ranges: seq<LVRange>, ghost d: set<nat>) returns (msg: Bytes)
    requires cg.Valid() && Ascending(ranges) && forall x: nat :: InRanges(ranges, x) <==> x in d
    requires forall x | x in d :: x < |cg.graph|
    ensures |cg.clientWithLv| == |cg.graph| && RangesIn(ranges, |cg.graph|)
    ensures Cuts(cg.Value(), CutAll(cg.Value(), ranges), d, 0) && forall i | 0 <= i < |CutAll(cg.Value(), ranges)| :: EntryIn(cg.Value(), CutAll(cg.Value(), ranges)[i])
    ensures msg == WriteAll(Writer([], []), cg.Value(), CutAll(cg.Value(), ranges)).bytes
  {
    hide WriteEntry, WriteAll, SeesAll, WireGraph.Indexed, ValidCg, Cuts, InRanges, CutAll, CutRange, RangesIn, WrittenTo, EntryIn;
    var result := new ByteSink();
    var writeMap := new WriteMap(|cg.names|);
    ghost var c := cg.Value();
    Sizes(c);
    AllIn(ranges, d, |c.ids|);
    ghost var v: nat := 0;
    NothingWritten(c, d);
    NothingCut(c, ranges);
    for i := 0 to |ranges|
      invariant writeMap.Valid() && RangesIn(ranges[..i], |c.ids|) && WrittenTo(result.bytes, writeMap.State(), c, CutAll(c, ranges[..i]), d, v)
      invariant v == if i == 0 then 0 else ranges[i - 1].end
      invariant fresh(result) && fresh(writeMap)
    {
      GapBefore(ranges, d, i);
      WrittenUpTo(result.bytes, writeMap.State(), c, CutAll(c, ranges[..i]), d, v, ranges[i].start);
      InRange(ranges, d, i, |cg.graph|);
      OneMoreRange(c, ranges, i);
      WriteRange(result, ranges[i], writeMap, cg, CutAll(c, ranges[..i]), d);
      v := ranges[i].end;
    }
    assert ranges[..|ranges|] == ranges;
    msg := result.bytes;
    NoneAfter(ranges, d);
    AllWritten(msg, writeMap.State(), c, CutAll(c, ranges), d, v);
  }

  lemma {:induction false} AllIn(ranges: seq<LVRange>, d: set<nat>, n: nat)
    requires Ascending(ranges) && (forall x: nat :: InRanges(ranges, x) <==> x in d) && forall x | x in d :: x < n
    ensures RangesIn(ranges, n)
  {
    forall i | 0 <= i < |ranges|
      ensures ranges[i].start <= ranges[i].end <= n
    {
      InRange(ranges, d, i, n);
    }
  }

  lemma {:induction false} NothingCut(c: Cg, ranges: seq<LVRange>)
    requires |c.ids| == |c.g|
    ensures RangesIn(ranges[..0], |c.ids|) && CutAll(c, ranges[..0]) == []
  {
  }

  lemma {:induction false} OneMoreRange(c: Cg, ranges: seq<LVRange>, i: nat)
    requires |c.ids| == |c.g| && RangesIn(ranges, |c.ids|) && i < |ranges|
    ensures RangesIn(ranges[..i], |c.ids|) && RangesIn(ranges[..i + 1], |c.ids|) && ranges[i].start <= ranges[i].end <= |c.ids|
    ensures CutAll(c, ranges[..i + 1]) == CutAll(c, ranges[..i]) + CutRange(c, ranges[i].start, ranges[i].end)
  {
    assert ranges[..i + 1][..i] == ranges[..i];
  }

  lemma {:induction false} CutStep(c: Cg, v: nat, end: nat, es: seq<Entry>)
    requires v < end <= |c.ids| == |c.g|
    ensures var e := EntryFrom(c, v, end);
            e.start == v && 0 < e.len && v + e.len <= end && es + CutRange(c, v, end) == es + [e] + CutRange(c, v + e.len, end)
  {
    var e := EntryFrom(c, v, end);
    assert es + ([e] + CutRange(c, v + e.len, end)) == es + [e] + CutRange(c, v + e.len, end);
  }

  lemma {:induction false} CutDone(c: Cg, end: nat, es: seq<Entry>)
    requires end <= |c.ids| == |c.g|
    ensures es + CutRange(c, end, end) == es
  {
  }

  lemma {:induction false} NothingWritten(c: Cg, d: set<nat>)
    ensures WrittenTo([], Writer([], []), c, [], d, 0)
  {
  }

  lemma {:induction false} WrittenUpTo(bytes: Bytes, w: Writer, c: Cg, es: seq<Entry>, d: set<nat>, v: nat, hi: nat)
    requires WrittenTo(bytes, w, c, es, d, v) && v <= hi && forall x: nat | v <= x < hi :: x !in d
    ensures WrittenTo(bytes, w, c, es, d, hi)
  {
    hide WriteAll, CutsTo;
    CutsUpTo(c, es, d, v, hi);
  }

  lemma {:induction false} AllWritten(bytes: Bytes, w: Writer, c: Cg, es: seq<Entry>, d: set<nat>, v: nat)
    requires WrittenTo(bytes, w, c, es, d, v) && forall x: nat | v <= x :: x !in d
    ensures Cuts(c, es, d, 0) && (forall i | 0 <= i < |es| :: EntryIn(c, es[i])) && bytes == WriteAll(Writer([], []), c, es).bytes
  {
    CutsJoin(c, es, [], d, v);
    assert es + [] == es;
  }

  lemma {:induction false} GapBefore(ranges: seq<LVRange>, d: set<nat>, i: nat)
    requires Ascending(ranges) && i < |ranges| && forall x: nat :: InRanges(ranges, x) <==> x in d
    ensures var v := if i == 0 then 0 else ranges[i - 1].end; v <= ranges[i].start && forall x: nat | v <= x < ranges[i].start :: x !in d
  {
  }

  lemma {:induction false} NoneAfter(ranges: seq<LVRange>, d: set<nat>)
    requires Ascending(ranges) && forall x: nat :: InRanges(ranges, x) <==> x in d
    ensures var v := if |ranges| == 0 then 0 else ranges[|ranges| - 1].end; forall x: nat | v <= x :: x !in d
  {
  }

  lemma {:induction false} InRange(ranges: seq<LVRange>, d: set<nat>, i: nat, n: nat)
    requires Ascending(ranges) && i < |ranges| && (forall x: nat :: InRanges(ranges, x) <==> x in d) && forall x | x in d :: x < n
    ensures ranges[i].start < ranges[i].end <= n && forall x: nat | ranges[i].start <= x < ranges[i].end :: x in d
  {
    var r := ranges[i];
    forall x: nat | r.start <= x < r.end
      ensures x in d
    {
      assert InRanges(ranges, x);
    }
    assert r.end - 1 in d;
  }
}
