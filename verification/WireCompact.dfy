/** What a message leaves out: parents, names and positions are written only where the reader could
    not work them out, and a parent that is in the message is given by how far back it is. */
module WireCompact {
  import opened Dag
  import opened ListLog
  import opened Varint
  import opened WireFormat
  import opened WireRoundTrip

  /** The entry goes on top of the version that was sent last, and of nothing else. */
  ghost predicate Follows(w: Writer, e: Entry) {
    w.sent != [] && w.sent[|w.sent| - 1] + 1 == e.start && e.parents == [e.start - 1]
  }

  ghost predicate Mentions(w: Writer, agent: nat) {
    exists i :: 0 <= i < |w.agents| && w.agents[i].agent == agent
  }

  /** The versions sent are those before `v`, in order. */
  ghost predicate SentBefore(w: Writer, v: nat) {
    StrictlyAscending(w.sent) && forall t | 0 <= t < |w.sent| :: w.sent[t] < v
  }

  lemma {:induction false} LastIsLargest(sent: seq<nat>, v: nat)
    requires StrictlyAscending(sent) && v in sent
    ensures sent != [] && v <= sent[|sent| - 1]
  {
  }

  lemma {:induction false} FollowsMeans(w: Writer, e: Entry)
    requires SentBefore(w, e.start)
    ensures Follows(w, e) <==> !ParentsWritten(w, e)
  {
    if e.start > 0 && e.start - 1 in w.sent { LastIsLargest(w.sent, e.start - 1); }
    if Follows(w, e) { assert w.sent[|w.sent| - 1] in w.sent; }
  }

  lemma {:induction false} MixBits(m: nat, flag: bool)
    ensures (Mix(m, flag) % 2 == 1 <==> flag) && Mix(m, flag) / 2 == m && Mix(m, flag) <= 2 * m + 1
  {
  }

  lemma {:induction false} HeaderBits(m: nat, jump: bool, known: bool, parents: bool)
    ensures var n := Mix(Mix(Mix(m, jump), known), parents);
            && (n % 2 == 1 <==> parents) && (n / 2 % 2 == 1 <==> known) && (n / 2 / 2 % 2 == 1 <==> jump) && n / 2 / 2 / 2 == m
            && (m < AGENT_LIMIT ==> n < U32)
  {
    hide Mix;
    MixBits(m, jump);
    MixBits(Mix(m, jump), known);
    MixBits(Mix(Mix(m, jump), known), parents);
  }

  lemma {:induction false} AgentFound(w: Writer, agent: nat)
    ensures FindAgent(w.agents, agent).Some? <==> Mentions(w, agent)
  {
  }

  /** The first number of a written entry and what comes after it. Parents follow unless the entry goes on
      top of the version sent last; the name of the agent follows unless the message has mentioned it; and
      the distance from where the agent's last run ended follows unless there is none. */
  lemma {:induction false} EntryAnnounces(w: Writer, c: Cg, e: Entry)
    requires EntryIn(c, e) && SentBefore(w, e.start) && |w.agents| < AGENT_LIMIT
    ensures var o := NextNumber(WriteEntry(w, c, e).bytes);
            && o.Some?
            && var n := o.value.value; var place := n / 2 / 2 / 2;
               && (n % 2 == 0 <==> Follows(w, e))
               && (n / 2 % 2 == 1 <==> Mentions(w, e.agent))
               && (if Mentions(w, e.agent) then place < |w.agents| && w.agents[place].agent == e.agent else place == 0)
               && var from := if Mentions(w, e.agent) then w.agents[place].next else 0;
                  && (n / 2 / 2 % 2 == 0 <==> e.seqStart == from)
                  && o.value.rest == (if Mentions(w, e.agent) then [] else PushStr(c.names[e.agent])) + PushU64(e.len)
                                     + (if e.seqStart == from then [] else PushU64(Zigzag(e.seqStart - from)))
                                     + (if Follows(w, e) then [] else WriteParents(WriteSpan(w, c, e, true).w, c, e.parents).bytes)
  {
    hide PushU32, PushU64, PushStr, NextNumber, Mix, Zigzag, WriteParents, Follows, ParentsWritten, Mentions, SentBefore;
    FollowsMeans(w, e);
    AgentFound(w, e.agent);
    var parents := ParentsWritten(w, e);
    var known := FindAgent(w.agents, e.agent);
    var m := if known.Some? then known.value else 0;
    var from := if known.Some? then w.agents[m].next else 0;
    var n := Mix(Mix(Mix(m, e.seqStart != from), known.Some?), parents);
    HeaderBits(m, e.seqStart != from, known.Some?, parents);
    var name := if known.Some? then [] else PushStr(c.names[e.agent]);
    var jump := if e.seqStart == from then [] else PushU64(Zigzag(e.seqStart - from));
    var ps := if parents then WriteParents(WriteSpan(w, c, e, parents).w, c, e.parents).bytes else [];
    FourParts(PushU32(n), name, PushU64(e.len), jump, ps);
    NumberBack32(n, name + PushU64(e.len) + jump + ps);
  }

  lemma {:induction false} FourParts(n: Bytes, name: Bytes, len: Bytes, jump: Bytes, ps: Bytes)
    ensures n + name + len + jump + ps == n + (name + len + jump + ps)
  {
  }

  /** The number that announces a parent. A version of the message is given by how many versions before the
      end of the message it was sent, any other by its agent, and by name only if that has not been mentioned. */
  lemma {:induction false} ParentAnnounces(w: Writer, c: Cg, p: nat, hasMore: bool)
    requires p < |c.ids| && c.ids[p].agent < |c.names| && |w.sent| < VERSION_LIMIT && |w.agents| < AGENT_LIMIT
    ensures var o := NextNumber(WriteParent(w, c, p, hasMore).bytes);
            && o.Some?
            && var n := o.value.value; var k := n / 2 / 2; var agent := c.ids[p].agent;
               && (n % 2 == 0 <==> p in w.sent) && (n / 2 % 2 == 1 <==> hasMore)
               && (p in w.sent ==> 0 < k <= |w.sent| && w.sent[|w.sent| - k] == p && o.value.rest == [])
               && (p !in w.sent && Mentions(w, agent) ==>
                     2 <= k < |w.agents| + 2 && w.agents[k - 2].agent == agent && o.value.rest == PushU64(c.ids[p].seqNo))
               && (p !in w.sent && !Mentions(w, agent) ==> k == 1 && o.value.rest == PushStr(c.names[agent]) + PushU64(c.ids[p].seqNo))
  {
    hide PushU64, PushStr, NextNumber, Mix, Mentions;
    var agent := c.ids[p].agent;
    AgentFound(w, agent);
    match IndexOf(w.sent, p)
    case Some(t) => ParentNumber(|w.sent| - t, hasMore, false, []);
    case None =>
      match FindAgent(w.agents, agent)
      case Some(i) => ParentNumber(i + 2, hasMore, true, PushU64(c.ids[p].seqNo));
      case None =>
        ParentNumber(1, hasMore, true, PushStr(c.names[agent]) + PushU64(c.ids[p].seqNo));
        ThreeParts(PushU64(Mix(Mix(1, hasMore), true)), PushStr(c.names[agent]), PushU64(c.ids[p].seqNo));
  }

  lemma {:induction false} ThreeParts(a: Bytes, b: Bytes, c: Bytes)
    ensures a + b + c == a + (b + c)
  {
  }

  lemma {:induction false} ParentNumber(k: nat, hasMore: bool, isForeign: bool, rest: Bytes)
    requires k <= VERSION_LIMIT
    ensures var n := Mix(Mix(k, hasMore), isForeign);
            && NextNumber(PushU64(n) + rest) == Some(NumberRead(rest, n)) && PushU64(n) + [] == PushU64(n)
            && (n % 2 == 1 <==> isForeign) && (n / 2 % 2 == 1 <==> hasMore) && n / 2 / 2 == k
  {
    hide PushU64, NextNumber, Mix;
    MixBits(k, hasMore);
    MixBits(Mix(k, hasMore), isForeign);
    NumberBack(Mix(Mix(k, hasMore), isForeign), rest);
  }
}
