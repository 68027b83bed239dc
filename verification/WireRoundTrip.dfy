/** Reading what was written: the reader's agents and versions keep in step with the writer's, byte
    for byte, and the graph that results is the union of the two. */
module WireRoundTrip {
  import opened ListLog
  import opened Varint
  import opened WireFormat
  import GrowingGraph

  // ---- Numbers and names ----

  lemma {:induction false} NumberBack(n: nat, rest: Bytes)
    requires n < U64
    ensures NextNumber(PushU64(n) + rest) == Some(NumberRead(rest, n))
  {
    hide EncodeU64, DecodeU64;
    DecodeEncoded(n, rest);
    assert (EncodeU64(n) + rest)[|EncodeU64(n)|..] == rest;
  }

  /** The writer pushes 32 bits where the reader takes 64. */
  lemma {:induction false} NumberBack32(n: nat, rest: Bytes)
    requires n < U32
    ensures NextNumber(PushU32(n) + rest) == Some(NumberRead(rest, n))
  {
    hide EncodeU32, EncodeU64, NextNumber;
    WritersAgree(n);
    NumberBack(n, rest);
  }

  lemma {:induction false} StrBack(s: Name, rest: Bytes)
    requires |s| < U64
    ensures NextStr(PushStr(s) + rest) == Some(StrRead(rest, s))
  {
    hide NextNumber, PushU64;
    NumberBack(|s|, s + rest);
    assert PushStr(s) + rest == PushU64(|s|) + (s + rest);
    assert (s + rest)[|s|..] == rest && (s + rest)[..|s|] == s;
  }

  lemma {:induction false} ZigzagBack(d: int)
    ensures Unzigzag(Zigzag(d)) == d
  {
  }

  // ---- Keeping in step ----

  ghost predicate NamesOk(names: seq<Name>) {
    Distinct(names) && forall i | 0 <= i < |names| :: GoodName(names[i])
  }

  /** The agents of the writer and of the reader go by the same names. */
  ghost predicate AgentsMatch(ws: seq<Seen>, rs: seq<Seen>, names: seq<Name>, names': seq<Name>) {
    && |ws| == |rs|
    && (forall i, j | 0 <= i < j < |ws| :: ws[i].agent != ws[j].agent)
    && forall i | 0 <= i < |ws| :: SeenMatch(ws[i], rs[i], names, names')
  }

  ghost predicate SeenMatch(a: Seen, b: Seen, names: seq<Name>, names': seq<Name>) {
    a.agent < |names| && b.agent < |names'| && names[a.agent] == names'[b.agent] && a.next == b.next < SEQ_LIMIT
  }

  const AGENT_LIMIT: nat := 0x1000_0000
  const VERSION_LIMIT: nat := 0x1000_0000_0000_0000
  const SEQ_LIMIT: nat := 0x4000_0000_0000_0000

  /** A reader that has the name's agent, or makes it. */
  lemma {:induction false} NameBack(name: Name, rest: Bytes, r: Reader, names: seq<Name>)
    requires GoodName(name) && NamesOk(names)
    ensures var o := ReadName(PushStr(name) + rest, r, names);
            && o.Some? && o.value.rest == rest && o.value.r == r.(agents := r.agents + [Seen(o.value.agent, 0)])
            && names <= o.value.names && NamesOk(o.value.names)
            && o.value.agent < |o.value.names| && o.value.names[o.value.agent] == name
  {
    hide NextStr, PushStr;
    StrBack(name, rest);
  }

  lemma {:induction false} AgentsMatchMore(ws: seq<Seen>, rs: seq<Seen>, names: seq<Name>, names': seq<Name>, names2: seq<Name>, a: nat, b: nat)
    requires AgentsMatch(ws, rs, names, names') && names' <= names2
    requires a < |names| && b < |names2| && names[a] == names2[b] && forall i | 0 <= i < |ws| :: ws[i].agent != a
    ensures AgentsMatch(ws + [Seen(a, 0)], rs + [Seen(b, 0)], names, names2)
  {
  }

  lemma {:induction false} AgentsMatchNext(ws: seq<Seen>, rs: seq<Seen>, names: seq<Name>, names': seq<Name>, i: nat, next: nat)
    requires AgentsMatch(ws, rs, names, names') && i < |ws| && next < SEQ_LIMIT
    ensures AgentsMatch(ws[i := Seen(ws[i].agent, next)], rs[i := Seen(rs[i].agent, next)], names, names')
  {
  }

  /** No more agents are mentioned than there are names. */
  lemma {:induction false} FewAgents(ws: seq<Seen>, n: nat)
    requires (forall i, j | 0 <= i < j < |ws| :: ws[i].agent != ws[j].agent) && forall i | 0 <= i < |ws| :: ws[i].agent < n
    ensures |ws| <= n
  {
    if ws != [] {
      if i :| 0 <= i < |ws| && ws[i].agent == n - 1 {
        FewAgents(ws[..i] + ws[i + 1..], n - 1);
      } else {
        assert n > 0 by { assert ws[0].agent < n; }
        FewAgents(ws, n - 1);
      }
    }
  }

  /** Taking one flag off again. */
  lemma {:induction false} FlagBack(n: nat, flag: bool)
    ensures Mix(n, flag) % 2 == (if flag then 1 else 0) && Mix(n, flag) / 2 == n
  {
  }

  /** Taking the three flags off again. */
  lemma {:induction false} FlagsBack(m: nat, jump: bool, known: bool, parents: bool)
    ensures var n := Mix(Mix(Mix(m, jump), known), parents);
            n % 2 == (if parents then 1 else 0) && n / 2 % 2 == (if known then 1 else 0) && n / 2 / 2 % 2 == (if jump then 1 else 0) && n / 2 / 2 / 2 == m
  {
    hide Mix;
    FlagBack(m, jump);
    FlagBack(Mix(m, jump), known);
    FlagBack(Mix(Mix(m, jump), known), parents);
  }

  lemma {:induction false} ExtentBack(w: Seen, len: nat, seqStart: nat, rest: Bytes, r: Reader, names: seq<Name>, i: nat, hasParents: bool)
    requires i < |r.agents| && w.next == r.agents[i].next < SEQ_LIMIT && 0 < len && seqStart + len < SEQ_LIMIT
    ensures var delta := seqStart - w.next;
            ReadExtent(PushU64(len) + (if delta != 0 then PushU64(Zigzag(delta)) else []) + rest, r, names, i, hasParents, delta != 0)
            == Some(SpanRead(rest, r.(agents := r.agents[i := Seen(r.agents[i].agent, seqStart + len)]), names, hasParents, r.agents[i].agent, seqStart, len))
  {
    hide NextNumber, PushU64;
    var delta := seqStart - w.next;
    var jump := if delta != 0 then PushU64(Zigzag(delta)) else [];
    assert PushU64(len) + jump + rest == PushU64(len) + (jump + rest);
    NumberBack(len, jump + rest);
    ZigzagBack(delta);
    if delta != 0 { NumberBack(Zigzag(delta), rest); } else { assert jump + rest == rest; }
  }

  /** What comes before the extent of a span: the flags and, for an agent not mentioned before, its name. */
  lemma {:induction false} HeadBack(m: nat, jump: bool, known: bool, parents: bool, name: Bytes, tail: Bytes, r: Reader, names: seq<Name>)
    requires m < AGENT_LIMIT && (known ==> name == [] && m < |r.agents|) && (!known ==> m == 0)
    ensures var o := ReadSpan(PushU32(Mix(Mix(Mix(m, jump), known), parents)) + name + tail, r, names);
            && (known ==> o == ReadExtent(tail, r, names, m, parents, jump))
            && (!known ==>
                  match ReadName(name + tail, r, names)
                  case None => true
                  case Some(a) => o == ReadExtent(a.rest, a.r, a.names, |r.agents|, parents, jump))
  {
    hide NextNumber, PushU32, ReadExtent, ReadName, Mix;
    var n := Mix(Mix(Mix(m, jump), known), parents);
    FlagsBack(m, jump, known, parents);
    SmallFlags(m, jump, known, parents);
    NumberBack32(n, name + tail);
    assert PushU32(n) + name + tail == PushU32(n) + (name + tail);
    assert known ==> name + tail == tail;
  }

  /** What it takes to read a written span back. */
  ghost predicate SpanIsBack(wr: Written, w: Writer, s: Cg, e: Entry, hasParents: bool, r: Reader, names: seq<Name>, rest: Bytes, o: Option<SpanRead>) {
    && o.Some? && o.value.rest == rest && o.value.hasParents == hasParents
    && o.value.seqStart == e.seqStart && o.value.len == e.len && o.value.r.got == r.got && wr.w.sent == w.sent
    && names <= o.value.names && NamesOk(o.value.names)
    && e.agent < |s.names| && o.value.agent < |o.value.names| && o.value.names[o.value.agent] == s.names[e.agent]
    && AgentsMatch(wr.w.agents, o.value.r.agents, s.names, o.value.names)
  }

  ghost predicate SpanReady(w: Writer, s: Cg, e: Entry, r: Reader, names: seq<Name>) {
    && AgentsMatch(w.agents, r.agents, s.names, names) && NamesOk(names) && NamesOk(s.names) && |s.names| < AGENT_LIMIT
    && e.agent < |s.names| && 0 < e.len && e.seqStart + e.len < SEQ_LIMIT
  }

  lemma {:induction false} MatchFacts(ws: seq<Seen>, rs: seq<Seen>, names: seq<Name>, names': seq<Name>)
    requires AgentsMatch(ws, rs, names, names')
    ensures |ws| == |rs| && forall i | 0 <= i < |ws| :: SeenMatch(ws[i], rs[i], names, names')
    ensures |ws| <= |names|
  {
    FewAgents(ws, |names|);
  }

  lemma {:induction false} KnownSpanBack(w: Writer, s: Cg, e: Entry, hasParents: bool, r: Reader, names: seq<Name>, rest: Bytes)
    requires SpanReady(w, s, e, r, names) && FindAgent(w.agents, e.agent).Some?
    ensures var wr := WriteSpan(w, s, e, hasParents); SpanIsBack(wr, w, s, e, hasParents, r, names, rest, ReadSpan(wr.bytes + rest, r, names))
  {
    hide NextNumber, PushU64, PushU32, PushStr, ReadExtent, ReadName, ReadSpan, Mix, NamesOk, Zigzag, AgentsMatch;
    MatchFacts(w.agents, r.agents, s.names, names);
    var i := FindAgent(w.agents, e.agent).value;
    assert SeenMatch(w.agents[i], r.agents[i], s.names, names);
    var delta := e.seqStart - w.agents[i].next;
    var head, jump := PushU32(Mix(Mix(Mix(i, delta != 0), true), hasParents)), if delta != 0 then PushU64(Zigzag(delta)) else [];
    SpanBytes(head, [], PushU64(e.len), jump, rest);
    HeadBack(i, delta != 0, true, hasParents, [], PushU64(e.len) + jump + rest, r, names);
    ExtentBack(w.agents[i], e.len, e.seqStart, rest, r, names, i, hasParents);
    AgentsMatchNext(w.agents, r.agents, s.names, names, i, e.seqStart + e.len);
  }

  lemma {:induction false} NewSpanBack(w: Writer, s: Cg, e: Entry, hasParents: bool, r: Reader, names: seq<Name>, rest: Bytes)
    requires SpanReady(w, s, e, r, names) && FindAgent(w.agents, e.agent).None?
    ensures var wr := WriteSpan(w, s, e, hasParents); SpanIsBack(wr, w, s, e, hasParents, r, names, rest, ReadSpan(wr.bytes + rest, r, names))
  {
    hide NextNumber, PushU64, PushU32, PushStr, ReadExtent, ReadName, ReadSpan, Mix, NamesOk, Zigzag, AgentsMatch;
    MatchFacts(w.agents, r.agents, s.names, names);
    var i := |w.agents|;
    var agents := w.agents + [Seen(e.agent, 0)];
    var delta: int := e.seqStart;
    var head, jump := PushU32(Mix(Mix(Mix(0, delta != 0), false), hasParents)), if delta != 0 then PushU64(Zigzag(delta)) else [];
    var name, tail := PushStr(s.names[e.agent]), PushU64(e.len) + jump + rest;
    SpanBytes(head, name, PushU64(e.len), jump, rest);
    HeadBack(0, delta != 0, false, hasParents, name, tail, r, names);
    GoodNameOf(s.names, e.agent);
    NameBack(s.names[e.agent], tail, r, names);
    var a := ReadName(name + tail, r, names).value;
    AgentsMatchMore(w.agents, r.agents, s.names, names, a.names, e.agent, a.agent);
    ExtentBack(agents[i], e.len, e.seqStart, rest, a.r, a.names, i, hasParents);
    AgentsMatchNext(agents, a.r.agents, s.names, a.names, i, e.seqStart + e.len);
  }

  /** The written span, read back. */
  lemma {:induction false} SpanBack(w: Writer, s: Cg, e: Entry, hasParents: bool, r: Reader, names: seq<Name>, rest: Bytes)
    requires SpanReady(w, s, e, r, names)
    ensures var wr := WriteSpan(w, s, e, hasParents); SpanIsBack(wr, w, s, e, hasParents, r, names, rest, ReadSpan(wr.bytes + rest, r, names))
  {
    hide SpanReady, WriteSpan, SpanIsBack, ReadSpan;
    assert e.agent < |s.names| by { InReady(w, s, e, r, names); }
    if FindAgent(w.agents, e.agent).Some? {
      KnownSpanBack(w, s, e, hasParents, r, names, rest);
    } else {
      NewSpanBack(w, s, e, hasParents, r, names, rest);
    }
  }

  lemma {:induction false} InReady(w: Writer, s: Cg, e: Entry, r: Reader, names: seq<Name>)
    requires SpanReady(w, s, e, r, names)
    ensures e.agent < |s.names|
  {
  }

  lemma {:induction false} SpanBytes(a: Bytes, b: Bytes, c: Bytes, d: Bytes, rest: Bytes)
    ensures a + b + c + d + rest == a + b + (c + d + rest)
  {
  }

  lemma {:induction false} GoodNameOf(names: seq<Name>, i: nat)
    requires NamesOk(names) && i < |names|
    ensures GoodName(names[i])
  {
  }

  lemma {:induction false} SmallFlags(m: nat, a: bool, b: bool, c: bool)
    ensures m < AGENT_LIMIT ==> Mix(Mix(Mix(m, a), b), c) < U32
    ensures m < VERSION_LIMIT ==> Mix(Mix(m, a), b) < U64
  {
  }

  // ---- Parents ----

  /** Version `v` of one graph and version `u` of the other have the same name and sequence number. */
  ghost predicate SameId(s: Cg, v: nat, c: Cg, u: nat) {
    && v < |s.ids| && u < |c.ids| && s.ids[v].agent < |s.names| && c.ids[u].agent < |c.names|
    && s.names[s.ids[v].agent] == c.names[c.ids[u].agent] && s.ids[v].seqNo == c.ids[u].seqNo
  }

  ghost predicate KnownIn(s: Cg, v: nat, c: Cg) {
    exists u: nat :: SameId(s, v, c, u)
  }

  ghost predicate VersionsMatch(sent: seq<nat>, got: seq<nat>, s: Cg, c: Cg) {
    |sent| == |got| && forall t | 0 <= t < |sent| :: SameId(s, sent[t], c, got[t])
  }

  ghost predicate InStep(w: Writer, s: Cg, r: Reader, c: Cg) {
    && AgentsMatch(w.agents, r.agents, s.names, c.names) && NamesOk(c.names) && NamesOk(s.names)
    && VersionsMatch(w.sent, r.got, s, c) && |s.names| < AGENT_LIMIT && |w.sent| < VERSION_LIMIT
  }

  /** The reader will find the parent: it has been sent, or is known. */
  ghost predicate ParentKnown(w: Writer, s: Cg, p: nat, c: Cg) {
    && p < |s.ids| && s.ids[p].agent < |s.names| && s.ids[p].seqNo < SEQ_LIMIT
    && (p in w.sent || KnownIn(s, p, c))
  }

  /** One number of a parent list, and the parent it announces. */
  lemma {:induction false} OneParent(k: nat, hasMore: bool, isForeign: bool, b: Bytes, r: Reader, names: seq<Name>, ids: seq<AgentVersion>)
    requires k < VERSION_LIMIT && (isForeign ==> k > 0)
    ensures var o := ReadParents(PushU64(Mix(Mix(k, hasMore), isForeign)) + b, r, names, ids);
            match ReadParent(b, r, names, ids, k, isForeign)
            case None => true
            case Some(p) =>
              && (!hasMore ==> o == Some(p))
              && (hasMore ==> o == match ReadParents(p.rest, p.r, p.names, ids)
                                   case None => None
                                   case Some(ps) => Some(ps.(parents := p.parents + ps.parents)))
  {
    hide NextNumber, PushU64, ReadParent, Mix;
    SmallFlags(k, hasMore, isForeign, false);
    TwoFlagsBack(k, hasMore, isForeign);
    NumberBack(Mix(Mix(k, hasMore), isForeign), b);
  }

  lemma {:induction false} TwoFlagsBack(k: nat, more: bool, isForeign: bool)
    ensures var n := Mix(Mix(k, more), isForeign);
            n % 2 == (if isForeign then 1 else 0) && n / 2 % 2 == (if more then 1 else 0) && n / 2 / 2 == k
  {
    hide Mix;
    FlagBack(k, more);
    FlagBack(Mix(k, more), isForeign);
  }

  /** An ID that the reader knows by name is found by agent. */
  lemma {:induction false} ForeignBack(s: Cg, p: nat, c: Cg, u: nat, a: AgentRead, rest: Bytes)
    requires SameId(s, p, c, u) && c.names <= a.names && NamesOk(a.names) && s.ids[p].seqNo < SEQ_LIMIT
    requires a.agent < |a.names| && a.names[a.agent] == s.names[s.ids[p].agent] && a.rest == PushU64(s.ids[p].seqNo) + rest
    ensures var o := ReadForeign(a, c.ids);
            o.Some? && |o.value.parents| == 1 && o.value == ParentsRead(rest, a.r, a.names, [o.value.parents[0]])
            && SameId(s, p, c.(names := a.names), o.value.parents[0])
  {
    hide NextNumber, PushU64;
    NumberBack(s.ids[p].seqNo, rest);
    assert c.names[c.ids[u].agent] == a.names[c.ids[u].agent];
    assert c.ids[u] == AgentVersion(a.agent, s.ids[p].seqNo);
  }

  lemma {:induction false} SentBack(w: Writer, s: Cg, p: nat, hasMore: bool, r: Reader, c: Cg, rest: Bytes)
    requires InStep(w, s, r, c) && ParentKnown(w, s, p, c) && p in w.sent
    ensures var t := IndexOf(w.sent, p);
            && t.Some? && WriteParent(w, s, p, hasMore) == Written(w, PushU64(Mix(Mix(|w.sent| - t.value, hasMore), false)))
            && 0 < |w.sent| - t.value < VERSION_LIMIT && |w.sent| == |r.got|
            && ReadParent(rest, r, c.names, c.ids, |w.sent| - t.value, false) == Some(ParentsRead(rest, r, c.names, [r.got[t.value]]))
            && SameId(s, p, c, r.got[t.value])
  {
    hide PushU64, Mix, SameId, AgentsMatch, NamesOk;
  }

  /** A written parent, read back: the reader goes on after it with the same name for every agent. */
  lemma {:induction false} ParentBack(w: Writer, s: Cg, p: nat, hasMore: bool, r: Reader, c: Cg, rest: Bytes) returns (r1: Reader, names1: seq<Name>, u: nat)
    requires InStep(w, s, r, c) && ParentKnown(w, s, p, c)
    ensures var wr := WriteParent(w, s, p, hasMore); var o := ReadParents(wr.bytes + rest, r, c.names, c.ids);
            && (!hasMore ==> o == Some(ParentsRead(rest, r1, names1, [u])))
            && (hasMore ==> o == match ReadParents(rest, r1, names1, c.ids)
                                 case None => None
                                 case Some(ps) => Some(ps.(parents := [u] + ps.parents)))
            && wr.w.sent == w.sent && AgentsMatch(wr.w.agents, r1.agents, s.names, names1)
    ensures r1.got == r.got && c.names <= names1 && NamesOk(names1) && SameId(s, p, c.(names := names1), u)
  {
    hide PushU64, PushStr, Mix, ReadParents, ReadName, ReadForeign, AgentsMatch, NamesOk, SameId, VersionsMatch;
    var id := s.ids[p];
    var t := IndexOf(w.sent, p);
    if t.Some? {
      SentBack(w, s, p, hasMore, r, c, rest);
      OneParent(|w.sent| - t.value, hasMore, false, rest, r, c.names, c.ids);
      r1, names1, u := r, c.names, r.got[t.value];
      assert c.(names := c.names) == c;
    } else {
      var known: nat :| SameId(s, p, c, known);
      MatchFacts(w.agents, r.agents, s.names, c.names);
      var tail := PushU64(id.seqNo) + rest;
      var m := FindAgent(w.agents, id.agent);
      if m.Some? {
        assert SeenMatch(w.agents[m.value], r.agents[m.value], s.names, c.names);
        var a := AgentRead(tail, r, c.names, r.agents[m.value].agent);
        ForeignBack(s, p, c, known, a, rest);
        OneParent(m.value + 2, hasMore, true, tail, r, c.names, c.ids);
        assert WriteParent(w, s, p, hasMore).bytes + rest == PushU64(Mix(Mix(m.value + 2, hasMore), true)) + tail;
        assert ReadParent(tail, r, c.names, c.ids, m.value + 2, true) == ReadForeign(a, c.ids);
        r1, names1, u := r, c.names, ReadForeign(a, c.ids).value.parents[0];
      } else {
        GoodNameOf(s.names, id.agent);
        NameBack(s.names[id.agent], tail, r, c.names);
        var name := PushStr(s.names[id.agent]);
        var a := ReadName(name + tail, r, c.names).value;
        ForeignBack(s, p, c, known, a, rest);
        OneParent(1, hasMore, true, name + tail, r, c.names, c.ids);
        assert WriteParent(w, s, p, hasMore).bytes + rest == PushU64(Mix(Mix(1, hasMore), true)) + (name + tail);
        assert ReadParent(name + tail, r, c.names, c.ids, 1, true) == ReadForeign(a, c.ids);
        AgentsMatchMore(w.agents, r.agents, s.names, c.names, a.names, id.agent, a.agent);
        r1, names1, u := a.r, a.names, ReadForeign(a, c.ids).value.parents[0];
      }
    }
  }

  /** More names make no difference to what is known. */
  lemma {:induction false} MoreNames(w: Writer, s: Cg, r: Reader, c: Cg, w1: Writer, r1: Reader, names1: seq<Name>)
    requires InStep(w, s, r, c) && c.names <= names1 && NamesOk(names1)
    requires w1.sent == w.sent && r1.got == r.got && AgentsMatch(w1.agents, r1.agents, s.names, names1)
    ensures InStep(w1, s, r1, c.(names := names1))
    ensures forall v: nat, u: nat | SameId(s, v, c, u) :: SameId(s, v, c.(names := names1), u)
    ensures forall p: nat | ParentKnown(w, s, p, c) :: ParentKnown(w1, s, p, c.(names := names1))
  {
    hide AgentsMatch, NamesOk;
    forall p: nat | ParentKnown(w, s, p, c)
      ensures ParentKnown(w1, s, p, c.(names := names1))
    {
      if p !in w.sent {
        var u: nat :| SameId(s, p, c, u);
        assert SameId(s, p, c.(names := names1), u);
      }
    }
    forall t | 0 <= t < |w.sent|
      ensures SameId(s, w.sent[t], c.(names := names1), r.got[t])
    {
      assert SameId(s, w.sent[t], c, r.got[t]);
    }
  }

  /** Two lists of versions that have the same IDs, one by one. */
  ghost predicate SameIds(s: Cg, vs: seq<nat>, c: Cg, us: seq<nat>) {
    |vs| == |us| && forall i | 0 <= i < |vs| :: SameId(s, vs[i], c, us[i])
  }

  ghost predicate ParentsKnown(w: Writer, s: Cg, ps: seq<nat>, c: Cg) {
    forall i | 0 <= i < |ps| :: ParentKnown(w, s, ps[i], c)
  }

  /** What a written parent list reads back as. */
  ghost predicate ListIsBack(wr: Written, w: Writer, s: Cg, ps: seq<nat>, r: Reader, c: Cg, rest: Bytes, o: Option<ParentsRead>) {
    && o.Some? && o.value.rest == rest && o.value.r.got == r.got && wr.w.sent == w.sent
    && c.names <= o.value.names && NamesOk(o.value.names) && AgentsMatch(wr.w.agents, o.value.r.agents, s.names, o.value.names)
    && SameIds(s, ps, c.(names := o.value.names), o.value.parents)
  }

  lemma {:induction false} ParentListBack(w: Writer, s: Cg, ps: seq<nat>, r: Reader, c: Cg, rest: Bytes)
    requires InStep(w, s, r, c) && ps != [] && ParentsKnown(w, s, ps, c)
    ensures ParentsIn(s, ps)
    ensures var wr := WriteParentList(w, s, ps); ListIsBack(wr, w, s, ps, r, c, rest, ReadParents(wr.bytes + rest, r, c.names, c.ids))
    decreases |ps|
  {
    hide ReadParents, WriteParent, AgentsMatch, NamesOk, SameId, InStep, ParentKnown;
    AllIn(w, s, ps, c);
    AllIn(w, s, ps[1..], c);
    var first := WriteParent(w, s, ps[0], |ps| > 1);
    var tail := WriteParentList(first.w, s, ps[1..]).bytes;
    assert WriteParentList(w, s, ps).bytes + rest == first.bytes + (tail + rest);
    var r1, names1, u := ParentBack(w, s, ps[0], |ps| > 1, r, c, tail + rest);
    MoreNames(w, s, r, c, first.w, r1, names1);
    if |ps| == 1 {
      assert tail + rest == rest;
    } else {
      ParentListBack(first.w, s, ps[1..], r1, c.(names := names1), rest);
      var o := ReadParents(tail + rest, r1, names1, c.ids).value;
      LaterNames(s, ps[0], c, names1, o.names, u);
      forall i | 0 <= i < |ps|
        ensures SameId(s, ps[i], c.(names := o.names), ([u] + o.parents)[i])
      {
        if i > 0 { assert SameId(s, ps[1..][i - 1], c.(names := o.names), o.parents[i - 1]); }
      }
    }
  }

  lemma {:induction false} LaterNames(s: Cg, v: nat, c: Cg, names1: seq<Name>, names2: seq<Name>, u: nat)
    requires SameId(s, v, c.(names := names1), u) && names1 <= names2
    ensures SameId(s, v, c.(names := names2), u)
  {
  }

  lemma {:induction false} AllIn(w: Writer, s: Cg, ps: seq<nat>, c: Cg)
    requires ParentsKnown(w, s, ps, c)
    ensures ParentsIn(s, ps)
  {
  }

  // ---- Entries ----

  /** The entry is a run of one agent's versions, each on the one before. */
  ghost predicate IsPiece(s: Cg, e: Entry) {
    && 0 < e.len && e.start + e.len <= |s.ids| == |s.g| && e.parents == s.g[e.start]
    && (forall v | e.start <= v < e.start + e.len :: s.ids[v] == AgentVersion(e.agent, e.seqStart + (v - e.start)))
    && (forall v | e.start < v < e.start + e.len :: s.g[v] == [v - 1])
  }

  /** The graph fits the format's integer types. */
  ghost predicate Fits(s: Cg) {
    && |s.names| < AGENT_LIMIT && |s.ids| < VERSION_LIMIT
    && forall v | 0 <= v < |s.ids| :: s.ids[v].seqNo + 1 < SEQ_LIMIT
  }

  /** An entry whose parents can be found; if it goes on top of the version before it and that has
      been sent, it was sent last. */
  ghost predicate EntryReady(w: Writer, s: Cg, e: Entry, c: Cg) {
    && ValidCg(s) && Fits(s) && IsPiece(s, e) && ParentsKnown(w, s, e.parents, c)
    && (!ParentsWritten(w, e) ==> w.sent[|w.sent| - 1] == e.start - 1)
  }

  /** The two lists have the same IDs, in whatever order. */
  ghost predicate SameSets(s: Cg, vs: seq<nat>, c: Cg, us: seq<nat>) {
    && (forall v | v in vs :: HasSame(s, v, c, us))
    && (forall u | u in us :: IsSame(s, vs, c, u))
  }

  ghost predicate HasSame(s: Cg, v: nat, c: Cg, us: seq<nat>) {
    exists u :: u in us && SameId(s, v, c, u)
  }

  ghost predicate IsSame(s: Cg, vs: seq<nat>, c: Cg, u: nat) {
    exists v :: v in vs && SameId(s, v, c, u)
  }

  lemma {:induction false} SortedSame(s: Cg, vs: seq<nat>, c: Cg, us: seq<nat>)
    requires SameIds(s, vs, c, us)
    ensures SameSets(s, vs, c, GrowingGraph.SortUp(us))
  {
    hide SameId;
    forall v | v in vs
      ensures HasSame(s, v, c, GrowingGraph.SortUp(us))
    {
      var i :| 0 <= i < |vs| && vs[i] == v;
      assert us[i] in us;
    }
    forall u | u in GrowingGraph.SortUp(us)
      ensures IsSame(s, vs, c, u)
    {
      var i :| 0 <= i < |us| && us[i] == u;
      assert vs[i] in vs;
    }
  }

  /** What a written entry reads back as, before it is merged. */
  ghost predicate RawIsBack(wr: Written, w: Writer, s: Cg, e: Entry, r: Reader, c: Cg, rest: Bytes, o: Option<RawRead>) {
    && o.Some? && o.value.span.rest == rest && o.value.span.seqStart == e.seqStart && o.value.span.len == e.len
    && c.names <= o.value.span.names && NamesOk(o.value.span.names) && o.value.span.r.got == r.got && wr.w.sent == w.sent + Lvs(e.start, e.len)
    && e.agent < |s.names| && o.value.span.agent < |o.value.span.names| && o.value.span.names[o.value.span.agent] == s.names[e.agent]
    && AgentsMatch(wr.w.agents, o.value.span.r.agents, s.names, o.value.span.names)
    && SameSets(s, e.parents, c.(names := o.value.span.names), o.value.parents)
  }

  lemma {:induction false} PieceReady(w: Writer, s: Cg, e: Entry, r: Reader, c: Cg)
    requires InStep(w, s, r, c) && EntryReady(w, s, e, c)
    ensures SpanReady(w, s, e, r, c.names) && EntryIn(s, e)
  {
    assert s.ids[e.start] == AgentVersion(e.agent, e.seqStart);
    assert s.ids[e.start + (e.len - 1)] == AgentVersion(e.agent, e.seqStart + (e.len - 1));
    AllIn(w, s, e.parents, c);
  }

  lemma {:induction false} RootBack(r: Reader, names: seq<Name>, ids: seq<AgentVersion>, rest: Bytes)
    ensures ReadParents(PushU64(Mix(Mix(0, false), true)) + rest, r, names, ids) == Some(ParentsRead(rest, r, names, []))
  {
    hide NextNumber, PushU64;
    NumberBack(Mix(Mix(0, false), true), rest);
  }

  lemma {:induction false} WrittenParentsBack(w: Writer, s: Cg, ps: seq<nat>, r: Reader, c: Cg, rest: Bytes)
    requires InStep(w, s, r, c) && ParentsKnown(w, s, ps, c)
    ensures ParentsIn(s, ps)
    ensures var wr := WriteParents(w, s, ps); ListIsBack(wr, w, s, ps, r, c, rest, ReadParents(wr.bytes + rest, r, c.names, c.ids))
  {
    hide ReadParents, PushU64, AgentsMatch, NamesOk;
    AllIn(w, s, ps, c);
    if ps == [] {
      RootBack(r, c.names, c.ids, rest);
    } else {
      ParentListBack(w, s, ps, r, c, rest);
    }
  }

  lemma {:induction false} EntryBack(w: Writer, s: Cg, e: Entry, r: Reader, c: Cg, rest: Bytes)
    requires InStep(w, s, r, c) && EntryReady(w, s, e, c)
    ensures EntryIn(s, e)
    ensures var wr := WriteEntry(w, s, e); RawIsBack(wr, w, s, e, r, c, rest, ReadRaw(wr.bytes + rest, r, c.names, c.ids))
  {
    hide InStep, EntryReady, AgentsMatch, NamesOk, SameId, ReadSpan, ReadParents, WriteSpan, WriteParents, ParentsKnown, ParentsIn, SameSets, ParentsWritten, SpanReady;
    PieceReady(w, s, e, r, c);
    var hp := ParentsWritten(w, e);
    var span := WriteSpan(w, s, e, hp);
    if hp {
      var ps := WriteParents(span.w, s, e.parents);
      SpanBack(w, s, e, hp, r, c.names, ps.bytes + rest);
      assert span.bytes + ps.bytes + rest == span.bytes + (ps.bytes + rest);
      var o := ReadSpan(span.bytes + (ps.bytes + rest), r, c.names).value;
      MoreNames(w, s, r, c, span.w, o.r, o.names);
      StillKnown(w, s, e, c, span.w, o.names);
      WrittenParentsBack(span.w, s, e.parents, o.r, c.(names := o.names), rest);
      var q := ReadParents(ps.bytes + rest, o.r, o.names, c.ids).value;
      SortedSame(s, e.parents, c.(names := q.names), q.parents);
    } else {
      SpanBack(w, s, e, hp, r, c.names, rest);
      assert span.bytes + [] + rest == span.bytes + rest;
      var o := ReadSpan(span.bytes + rest, r, c.names).value;
      MoreNames(w, s, r, c, span.w, o.r, o.names);
      LastIsParent(w, s, e, r, c, o.names);
    }
  }

  lemma {:induction false} StillKnown(w: Writer, s: Cg, e: Entry, c: Cg, w1: Writer, names1: seq<Name>)
    requires EntryReady(w, s, e, c)
    requires forall p: nat | ParentKnown(w, s, p, c) :: ParentKnown(w1, s, p, c.(names := names1))
    ensures ParentsKnown(w1, s, e.parents, c.(names := names1))
  {
  }

  lemma {:induction false} LastIsParent(w: Writer, s: Cg, e: Entry, r: Reader, c: Cg, names1: seq<Name>)
    requires InStep(w, s, r, c) && EntryReady(w, s, e, c) && !ParentsWritten(w, e)
    requires forall v: nat, u: nat | SameId(s, v, c, u) :: SameId(s, v, c.(names := names1), u)
    ensures r.got != [] && SameSets(s, e.parents, c.(names := names1), [r.got[|r.got| - 1]])
  {
    hide SameId;
    var k := |w.sent| - 1;
    assert SameId(s, w.sent[k], c, r.got[k]);
    assert SameId(s, w.sent[k], c.(names := names1), r.got[k]);
    assert r.got[k] in [r.got[k]] && w.sent[k] in e.parents;
  }
}
