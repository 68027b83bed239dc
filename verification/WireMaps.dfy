/** What a writer and a reader of a message keep: which agents it has mentioned, and which versions
    it holds, as run-length lists. */
module WireMaps {
  import opened ListLog
  import opened AgentIndex
  import opened Varint
  import opened WireFormat

  // ---- Run-length lists that grow at the end ----

  /** `RleVec::push`: joins a run to the last one if it goes on from it. */
  function PushRun(list: seq<ClientEntry>, e: ClientEntry): seq<ClientEntry>
    requires Sorted(list)
  {
    if list != [] && CanAppend(list[|list| - 1], e)
    then list[|list| - 1 := list[|list| - 1].(seqEnd := e.seqEnd)]
    else list + [e]
  }

  lemma {:induction false} PushMeans(list: seq<ClientEntry>, e: ClientEntry)
    requires Sorted(list) && e.seqStart < e.seqEnd && forall i | 0 <= i < |list| :: list[i].seqEnd <= e.seqStart
    ensures Sorted(PushRun(list, e)) && PushRun(list, e) != []
    ensures var last := PushRun(list, e)[|PushRun(list, e)| - 1];
            last.seqEnd == e.seqEnd && last.version + (last.seqEnd - last.seqStart) == e.version + (e.seqEnd - e.seqStart)
    ensures forall s: nat, v: nat :: Maps(PushRun(list, e), s, v) <==> Maps(list, s, v) || EntryMaps(e, s, v)
  {
    hide Maps;
    if list != [] && CanAppend(list[|list| - 1], e) {
      var k := |list| - 1;
      forall s: nat, v: nat
        ensures EntryMaps(PushRun(list, e)[k], s, v) <==> EntryMaps(list[k], s, v) || EntryMaps(e, s, v)
      {
      }
      ElementwiseMaps(list, k, e, PushRun(list, e));
    } else {
      SplicedAtEnd(list, e);
      forall s: nat, v: nat
        ensures Maps(list + [e], s, v) <==> Maps(list, s, v) || EntryMaps(e, s, v)
      {
        SplicedMaps(list, |list|, e, s, v);
      }
    }
  }

  lemma {:induction false} RunMaps(list: seq<ClientEntry>, i: nat, s: nat)
    requires i < |list| && list[i].seqStart <= s < list[i].seqEnd
    ensures Maps(list, s, list[i].version + (s - list[i].seqStart))
  {
    assert EntryMaps(list[i], s, list[i].version + (s - list[i].seqStart));
  }

  /** The value at a key, by bisection. */
  method FindWithOffset(list: seq<ClientEntry>, s: nat) returns (v: Option<nat>)
    requires Sorted(list)
    ensures v.Some? ==> Maps(list, s, v.value)
    ensures v.None? ==> forall u: nat :: !Maps(list, s, u)
  {
    LocateMeans(list, s);
    match Locate(list, s, 0, |list|)
    case Gap(_) => v := None;
    case At(idx) => v := Some(list[idx].version + (s - list[idx].seqStart));
  }

  // ---- Writing ----

  class ByteSink {
    var bytes: Bytes

    constructor ()
      ensures bytes == []
    {
      bytes := [];
    }

    method Extend(more: Bytes)
      modifies this
      ensures bytes == old(bytes) + more
    {
      bytes := bytes + more;
    }
  }

  datatype AgentSlot = AgentSlot(mapped: Option<nat>, last: nat)

  class WriteMap {
    var agentMap: seq<AgentSlot>
    var nextMappedAgent: nat
    var txnMap: seq<ClientEntry>
    ghost var agents: seq<Seen>
    ghost var sent: seq<nat>

    constructor (count: nat)
      ensures Valid() && State() == Writer([], [])
    {
      agentMap := seq(count, _ => AgentSlot(None, 0));
      nextMappedAgent, txnMap, agents, sent := 0, [], [], [];
    }

    ghost function State(): Writer
      reads this
    {
      Writer(agents, sent)
    }

    ghost predicate Valid()
      reads this
    {
      ValidAgents() && ValidTxns()
    }

    ghost predicate ValidAgents()
      reads this
    {
      && nextMappedAgent == |agents|
      && (forall i | 0 <= i < |agents| :: agents[i].agent < |agentMap| && agentMap[agents[i].agent] == AgentSlot(Some(i), agents[i].next))
      && (forall a | 0 <= a < |agentMap| :: agentMap[a].mapped.Some? ==> agentMap[a].mapped.value < |agents| && agents[agentMap[a].mapped.value].agent == a)
      && (forall a | 0 <= a < |agentMap| :: agentMap[a].mapped.None? ==> agentMap[a].last == 0)
    }

    /** Local versions to their places in the message. */
    ghost predicate ValidTxns()
      reads this
    {
      && Sorted(txnMap)
      && (forall v: nat, t: nat :: Maps(txnMap, v, t) <==> t < |sent| && sent[t] == v)
      && NextOutput(txnMap) == |sent|
    }

    method EnsureCapacity(cap: nat)
      requires Valid()
      modifies this
      ensures Valid() && State() == old(State()) && txnMap == old(txnMap) && cap <= |agentMap|
    {
      if cap > |agentMap| {
        agentMap := agentMap + seq(cap - |agentMap|, _ => AgentSlot(None, 0));
      }
    }

    /** The agent's number in the message; an agent without one gets the next. */
    method MapMut(agent: nat) returns (mapped: Option<nat>)
      requires Valid()
      modifies this
      ensures Valid() && txnMap == old(txnMap) && sent == old(sent) && agent < |agentMap|
      ensures mapped == FindAgent(old(agents), agent)
      ensures agents == Mentioned(old(agents), agent)
    {
      hide Maps, Sorted;
      EnsureCapacity(agent + 1);
      mapped := agentMap[agent].mapped;
      FoundAgent(agents, agent);
      if mapped.None? {
        agentMap := agentMap[agent := AgentSlot(Some(nextMappedAgent), 0)];
        nextMappedAgent := nextMappedAgent + 1;
        agents := agents + [Seen(agent, 0)];
      }
    }

    /** How far a run starts from where the agent's last one ended, which it moves on. */
    method SeqDelta(agent: nat, seqStart: nat, seqEnd: nat, ghost i: nat) returns (delta: int)
      requires Valid() && i < |agents| && agents[i].agent == agent
      modifies this
      ensures Valid() && txnMap == old(txnMap) && sent == old(sent)
      ensures delta == seqStart - old(agents[i].next) && agents == old(agents)[i := Seen(agent, seqEnd)]
    {
      EnsureCapacity(agent + 1);
      delta := seqStart - agentMap[agent].last;
      agentMap := agentMap[agent := agentMap[agent].(last := seqEnd)];
      agents := agents[i := Seen(agent, seqEnd)];
    }

    /** Notes the next run of the message. Runs are written in ascending order. */
    method InsertKnown(start: nat, len: nat)
      requires Valid() && 0 < len && forall t | 0 <= t < |sent| :: sent[t] < start
      modifies this
      ensures Valid() && agents == old(agents) && sent == old(sent) + Lvs(start, len)
    {
      hide Maps, EntryMaps;
      var e := ClientEntry(start, start + len, NextOutput(txnMap));
      KeysBelow(txnMap, sent, start);
      PushMeans(txnMap, e);
      assert e == ClientEntry(start, start + len, |sent|);
      InsertedTxns(txnMap, sent, start, len);
      ghost var all := sent + Lvs(start, len);
      forall v: nat, t: nat
        ensures Maps(PushRun(txnMap, e), v, t) <==> t < |all| && all[t] == v
      {
      }
      txnMap := PushRun(txnMap, e);
      sent := sent + Lvs(start, len);
    }
  }

  lemma {:induction false} FoundAgent(agents: seq<Seen>, agent: nat)
    ensures var m := FindAgent(agents, agent);
            (m.None? <==> forall i | 0 <= i < |agents| :: agents[i].agent != agent)
  {
  }

  /** The place in the message after everything noted so far. */
  function NextOutput(txnMap: seq<ClientEntry>): nat
    requires Sorted(txnMap)
  {
    if txnMap == [] then 0 else txnMap[|txnMap| - 1].version + (txnMap[|txnMap| - 1].seqEnd - txnMap[|txnMap| - 1].seqStart)
  }

  lemma {:induction false} KeysBelow(list: seq<ClientEntry>, sent: seq<nat>, start: nat)
    requires Sorted(list) && (forall v: nat, t: nat :: Maps(list, v, t) ==> t < |sent| && sent[t] == v)
    requires forall t | 0 <= t < |sent| :: sent[t] < start
    ensures forall i | 0 <= i < |list| :: list[i].seqEnd <= start
  {
    forall i | 0 <= i < |list|
      ensures list[i].seqEnd <= start
    {
      RunMaps(list, i, list[i].seqEnd - 1);
    }
  }

  lemma {:induction false} InsertedTxns(list: seq<ClientEntry>, sent: seq<nat>, start: nat, len: nat)
    requires forall v: nat, t: nat :: Maps(list, v, t) <==> t < |sent| && sent[t] == v
    ensures forall v: nat, t: nat :: Maps(list, v, t) || EntryMaps(ClientEntry(start, start + len, |sent|), v, t)
                                     <==> t < |sent + Lvs(start, len)| && (sent + Lvs(start, len))[t] == v
  {
    hide Maps;
    var all := sent + Lvs(start, len);
    forall v: nat, t: nat
      ensures Maps(list, v, t) || EntryMaps(ClientEntry(start, start + len, |sent|), v, t) <==> t < |all| && all[t] == v
    {
      if |sent| <= t < |all| {
        assert all[t] == Lvs(start, len)[t - |sent|];
      }
    }
  }

  // ---- Reading ----

  /** A message, consumed from the front. */
  class BufParser {
    var buf: Bytes

    constructor (buf: Bytes)
      ensures this.buf == buf
    {
      this.buf := buf;
    }

    method NextUsize() returns (r: Option<nat>)
      modifies this
      ensures r.None? <==> NextNumber(old(buf)).None?
      ensures r.Some? ==> NextNumber(old(buf)) == Some(NumberRead(buf, r.value))
    {
      if |buf| == 0 { return None; }
      var n := DecodePrefixVarintU64(buf);
      if n.None? { return None; }
      buf := buf[n.value.size..];
      return Some(n.value.value);
    }

    method NextStr() returns (r: Option<Name>)
      modifies this
      ensures r.None? <==> WireFormat.NextStr(old(buf)).None?
      ensures r.Some? ==> WireFormat.NextStr(old(buf)) == Some(StrRead(buf, r.value))
    {
      var len := NextUsize();
      if len.None? || len.value > |buf| { return None; }
      r := Some(buf[..len.value]);
      buf := buf[len.value..];
    }
  }

  class ReadMap {
    var agentMap: seq<Seen>
    var txnMap: seq<ClientEntry>
    ghost var got: seq<nat>

    constructor ()
      ensures Valid() && State() == Reader([], [])
    {
      agentMap, txnMap, got := [], [], [];
    }

    ghost function State(): Reader
      reads this
    {
      Reader(agentMap, got)
    }

    /** Places in the message to local versions. */
    ghost predicate Valid()
      reads this
    {
      && Sorted(txnMap)
      && (forall t: nat, v: nat :: Maps(txnMap, t, v) <==> t < |got| && got[t] == v)
      && Len() == |got|
    }

    function Len(): nat
      reads this
    {
      if txnMap == [] then 0 else txnMap[|txnMap| - 1].seqEnd
    }

    method LastTime() returns (v: Option<nat>)
      requires Valid()
      ensures v == if got == [] then None else Some(got[|got| - 1])
    {
      if |txnMap| == 0 { return None; }
      var e := txnMap[|txnMap| - 1];
      RunMaps(txnMap, |txnMap| - 1, e.seqEnd - 1);
      return Some(e.version + (e.seqEnd - e.seqStart) - 1);
    }

    /** Notes a run of versions as the next in the message. */
    method PushTxn(start: nat, len: nat)
      requires Valid() && 0 < len
      modifies this
      ensures Valid() && agentMap == old(agentMap) && got == old(got) + Lvs(start, len)
    {
      hide Maps, EntryMaps;
      var e := ClientEntry(Len(), Len() + len, start);
      EndsBelow(txnMap);
      PushMeans(txnMap, e);
      PushedTxns(txnMap, got, start, len);
      ghost var all := got + Lvs(start, len);
      forall t: nat, v: nat
        ensures Maps(PushRun(txnMap, e), t, v) <==> t < |all| && all[t] == v
      {
      }
      txnMap := PushRun(txnMap, e);
      got := got + Lvs(start, len);
    }
  }

  lemma {:induction false} EndsBelow(list: seq<ClientEntry>)
    requires Sorted(list)
    ensures list != [] ==> forall i | 0 <= i < |list| :: list[i].seqEnd <= list[|list| - 1].seqEnd
  {
    if list != [] {
      var k := |list| - 1;
      forall i | 0 <= i < |list|
        ensures list[i].seqEnd <= list[k].seqEnd
      {
        assert list[k].seqStart < list[k].seqEnd;
        if i < k { assert list[i].seqEnd <= list[k].seqStart; }
      }
    }
  }

  lemma {:induction false} PushedTxns(list: seq<ClientEntry>, got: seq<nat>, start: nat, len: nat)
    requires forall t: nat, v: nat :: Maps(list, t, v) <==> t < |got| && got[t] == v
    ensures forall t: nat, v: nat :: Maps(list, t, v) || EntryMaps(ClientEntry(|got|, |got| + len, start), t, v)
                                     <==> t < |got + Lvs(start, len)| && (got + Lvs(start, len))[t] == v
  {
    hide Maps;
    var all := got + Lvs(start, len);
    forall t: nat, v: nat
      ensures Maps(list, t, v) || EntryMaps(ClientEntry(|got|, |got| + len, start), t, v) <==> t < |all| && all[t] == v
    {
      if |got| <= t < |all| {
        assert all[t] == Lvs(start, len)[t - |got|];
      }
    }
  }
}
