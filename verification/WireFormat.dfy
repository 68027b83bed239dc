/** What the binary form of a causal graph says: how entries are written against what has been
    sent before, and what a reader makes of the bytes. */
module WireFormat {
  import opened Dag
  import opened ListLog
  import opened Varint
  import GrowingGraph

  // ---- Graphs that name their agents ----

  type Name = Bytes

  const ROOT: Name := [0x52, 0x4F, 0x4F, 0x54]

  const MAX_AGENT_NAME_LENGTH: nat := 50

  /** The names `get_or_create_agent_id` accepts. */
  predicate GoodName(name: Name) {
    |name| < MAX_AGENT_NAME_LENGTH && name != ROOT
  }

  /** An agent, by its place in the list of names, and a sequence number. */
  datatype AgentVersion = AgentVersion(agent: nat, seqNo: nat)

  datatype Cg = Cg(names: seq<Name>, ids: seq<AgentVersion>, g: Graph)

  ghost predicate Distinct<T>(s: seq<T>) {
    forall i, j | 0 <= i < j < |s| :: s[i] != s[j]
  }

  ghost predicate ValidCg(c: Cg) {
    && Distinct(c.names) && Distinct(c.ids)
    && (forall i | 0 <= i < |c.names| :: GoodName(c.names[i]))
    && (forall v | 0 <= v < |c.ids| :: c.ids[v].agent < |c.names|)
    && |c.ids| == |c.g| && WellFormed(c.g)
  }

  function IndexOf<T(==)>(s: seq<T>, x: T): (r: Option<nat>)
    ensures r.Some? ==> r.value < |s| && s[r.value] == x
    ensures r.None? ==> x !in s
  {
    if s == [] then None
    else
      var k := |s| - 1;
      assert s == s[..k] + [s[k]];
      match IndexOf(s[..k], x)
      case Some(i) => Some(i)
      case None => if s[k] == x then Some(k) else None
  }

  // ---- Writing ----

  function Mix(n: nat, extra: bool): nat {
    n * 2 + if extra then 1 else 0
  }

  /** `num_encode_zigzag_i64`. */
  function Zigzag(d: int): nat {
    if d < 0 then -2 * d - 1 else 2 * d
  }

  /** `num_decode_zigzag_i64`. */
  function Unzigzag(n: nat): int {
    var half := n / 2;
    if n % 2 == 1 then -half - 1 else half
  }

  function PushU32(n: nat): Bytes {
    EncodeU32(n % U32)
  }

  function PushU64(n: nat): Bytes {
    EncodeU64(n % U64)
  }

  function PushStr(s: Name): Bytes {
    PushU64(|s|) + s
  }

  /** An agent that a message has mentioned, and the sequence number its next run is expected at. */
  datatype Seen = Seen(agent: nat, next: nat)

  /** What has been written: the agents in the order of their first mention, and the versions. */
  datatype Writer = Writer(agents: seq<Seen>, sent: seq<nat>)

  datatype Written = Written(w: Writer, bytes: Bytes)

  function FindAgent(agents: seq<Seen>, agent: nat): (r: Option<nat>)
    ensures r.Some? ==> r.value < |agents| && agents[r.value].agent == agent
    ensures r.None? ==> forall i | 0 <= i < |agents| :: agents[i].agent != agent
  {
    if agents == [] then None
    else
      var k := |agents| - 1;
      match FindAgent(agents[..k], agent)
      case Some(i) => Some(i)
      case None => if agents[k].agent == agent then Some(k) else None
  }

  /** The agent's number in the message, given out if it has none yet. */
  function PlaceOf(agents: seq<Seen>, agent: nat): (i: nat)
    ensures i < |Mentioned(agents, agent)| && Mentioned(agents, agent)[i].agent == agent
  {
    var known := FindAgent(agents, agent);
    if known.Some? then known.value else |agents|
  }

  /** The agents mentioned after this one is. */
  function Mentioned(agents: seq<Seen>, agent: nat): seq<Seen> {
    if FindAgent(agents, agent).Some? then agents else agents + [Seen(agent, 0)]
  }

  /** A run of one agent's versions, each on the one before. */
  datatype Entry = Entry(start: nat, agent: nat, seqStart: nat, len: nat, parents: seq<nat>)

  ghost function WriteSpan(w: Writer, c: Cg, e: Entry, hasParents: bool): Written
    requires e.agent < |c.names|
  {
    var known := FindAgent(w.agents, e.agent);
    var i := PlaceOf(w.agents, e.agent);
    var agents := Mentioned(w.agents, e.agent);
    var delta := e.seqStart - agents[i].next;
    var n := Mix(Mix(Mix(if known.Some? then i else 0, delta != 0), known.Some?), hasParents);
    Written(w.(agents := agents[i := Seen(e.agent, e.seqStart + e.len)]),
            PushU32(n) + (if known.Some? then [] else PushStr(c.names[e.agent])) + PushU64(e.len)
            + (if delta != 0 then PushU64(Zigzag(delta)) else []))
  }

  /** A parent that has been sent is written as a distance, any other by its ID. */
  ghost function WriteParent(w: Writer, c: Cg, p: nat, hasMore: bool): Written
    requires p < |c.ids| && c.ids[p].agent < |c.names|
  {
    match IndexOf(w.sent, p)
    case Some(t) => Written(w, PushU64(Mix(Mix(|w.sent| - t, hasMore), false)))
    case None =>
      var id := c.ids[p];
      match FindAgent(w.agents, id.agent)
      case Some(i) => Written(w, PushU64(Mix(Mix(i + 2, hasMore), true)) + PushU64(id.seqNo))
      case None =>
        Written(w.(agents := w.agents + [Seen(id.agent, 0)]),
                PushU64(Mix(Mix(1, hasMore), true)) + PushStr(c.names[id.agent]) + PushU64(id.seqNo))
  }

  ghost predicate ParentsIn(c: Cg, parents: seq<nat>) {
    forall i | 0 <= i < |parents| :: parents[i] < |c.ids| && c.ids[parents[i]].agent < |c.names|
  }

  ghost function WriteParentList(w: Writer, c: Cg, parents: seq<nat>): Written
    requires ParentsIn(c, parents)
    decreases |parents|
  {
    if parents == [] then Written(w, [])
    else
      var first := WriteParent(w, c, parents[0], |parents| > 1);
      var rest := WriteParentList(first.w, c, parents[1..]);
      Written(rest.w, first.bytes + rest.bytes)
  }

  ghost function WriteParents(w: Writer, c: Cg, parents: seq<nat>): Written
    requires ParentsIn(c, parents)
  {
    if parents == [] then Written(w, PushU64(Mix(Mix(0, false), true))) else WriteParentList(w, c, parents)
  }

  ghost function Lvs(start: nat, len: nat): (r: seq<nat>)
    ensures |r| == len && forall i | 0 <= i < len :: r[i] == start + i
  {
    seq(len, i requires i >= 0 => start + i)
  }

  ghost predicate ParentsWritten(w: Writer, e: Entry) {
    e.start == 0 || e.parents != [e.start - 1] || e.start - 1 !in w.sent
  }

  ghost predicate EntryIn(c: Cg, e: Entry) {
    e.agent < |c.names| && ParentsIn(c, e.parents)
  }

  ghost function WriteEntry(w: Writer, c: Cg, e: Entry): Written
    requires EntryIn(c, e)
  {
    var span := WriteSpan(w, c, e, ParentsWritten(w, e));
    var ps := if ParentsWritten(w, e) then WriteParents(span.w, c, e.parents) else Written(span.w, []);
    Written(ps.w.(sent := w.sent + Lvs(e.start, e.len)), span.bytes + ps.bytes)
  }

  ghost function WriteAll(w: Writer, c: Cg, es: seq<Entry>): Written
    requires forall i | 0 <= i < |es| :: EntryIn(c, es[i])
    decreases |es|
  {
    if es == [] then Written(w, [])
    else
      assert EntryIn(c, es[0]);
      var first := WriteEntry(w, c, es[0]);
      var rest := WriteAll(first.w, c, es[1..]);
      Written(rest.w, first.bytes + rest.bytes)
  }

  // ---- Reading ----

  /** What has been read: the agents as above, by the reader's own list, and the versions by their
      place in the reader's graph. */
  datatype Reader = Reader(agents: seq<Seen>, got: seq<nat>)

  datatype NumberRead = NumberRead(rest: Bytes, value: nat)

  function NextNumber(b: Bytes): (r: Option<NumberRead>)
    ensures r.Some? ==> |r.value.rest| < |b| && r.value.value < U64
  {
    match DecodeU64(b)
    case None => None
    case Some(n) => Some(NumberRead(b[n.size..], n.value))
  }

  datatype StrRead = StrRead(rest: Bytes, text: Name)

  function NextStr(b: Bytes): (r: Option<StrRead>)
    ensures r.Some? ==> |r.value.rest| < |b|
  {
    match NextNumber(b)
    case None => None
    case Some(n) => if n.value > |n.rest| then None else Some(StrRead(n.rest[n.value..], n.rest[..n.value]))
  }

  datatype AgentRead = AgentRead(rest: Bytes, r: Reader, names: seq<Name>, agent: nat)

  /** A name in a message, for an agent that is new to it. */
  function ReadName(b: Bytes, r: Reader, names: seq<Name>): (o: Option<AgentRead>)
    ensures o.Some? ==> |o.value.rest| < |b| && |o.value.r.agents| == |r.agents| + 1
  {
    match NextStr(b)
    case None => None
    case Some(s) =>
      if !GoodName(s.text) then None
      else
        match IndexOf(names, s.text)
        case Some(id) => Some(AgentRead(s.rest, r.(agents := r.agents + [Seen(id, 0)]), names, id))
        case None => Some(AgentRead(s.rest, r.(agents := r.agents + [Seen(|names|, 0)]), names + [s.text], |names|))
  }

  datatype SpanRead = SpanRead(rest: Bytes, r: Reader, names: seq<Name>, hasParents: bool, agent: nat, seqStart: nat, len: nat)

  /** The length of a run and where it starts, relative to the agent's last. */
  function ReadExtent(b: Bytes, r: Reader, names: seq<Name>, i: nat, hasParents: bool, hasJump: bool): (o: Option<SpanRead>)
    requires i < |r.agents|
    ensures o.Some? ==> |o.value.rest| < |b|
  {
    match NextNumber(b)
    case None => None
    case Some(len) =>
      match (if hasJump then NextNumber(len.rest) else Some(NumberRead(len.rest, 0)))
      case None => None
      case Some(jump) =>
        var start := r.agents[i].next + Unzigzag(jump.value);
        if start < 0 || start >= U64 || len.value == 0 then None
        else Some(SpanRead(jump.rest, r.(agents := r.agents[i := Seen(r.agents[i].agent, start + len.value)]), names,
                           hasParents, r.agents[i].agent, start, len.value))
  }

  function ReadSpan(b: Bytes, r: Reader, names: seq<Name>): (o: Option<SpanRead>)
    ensures o.Some? ==> |o.value.rest| < |b|
  {
    match NextNumber(b)
    case None => None
    case Some(n) =>
      var hasParents, isKnown, hasJump := n.value % 2 == 1, n.value / 2 % 2 == 1, n.value / 2 / 2 % 2 == 1;
      var mapped := n.value / 2 / 2 / 2;
      if isKnown then
        if mapped >= |r.agents| then None else ReadExtent(n.rest, r, names, mapped, hasParents, hasJump)
      else if mapped != 0 then None
      else
        match ReadName(n.rest, r, names)
        case None => None
        case Some(a) => ReadExtent(a.rest, a.r, a.names, |r.agents|, hasParents, hasJump)
  }

  datatype ParentsRead = ParentsRead(rest: Bytes, r: Reader, names: seq<Name>, parents: seq<nat>)

  /** A parent given by agent and sequence number. */
  function ReadForeign(a: AgentRead, ids: seq<AgentVersion>): (o: Option<ParentsRead>)
    ensures o.Some? ==> |o.value.rest| < |a.rest| && |o.value.parents| == 1
  {
    match NextNumber(a.rest)
    case None => None
    case Some(s) =>
      match IndexOf(ids, AgentVersion(a.agent, s.value))
      case None => None
      case Some(v) => Some(ParentsRead(s.rest, a.r, a.names, [v]))
  }

  /** The parent that the number `k` announces. */
  function ReadParent(b: Bytes, r: Reader, names: seq<Name>, ids: seq<AgentVersion>, k: nat, isForeign: bool): (o: Option<ParentsRead>)
    requires isForeign ==> k > 0
    ensures o.Some? ==> |o.value.rest| <= |b| && |o.value.parents| == 1
  {
    if !isForeign then
      if 0 < k <= |r.got| then Some(ParentsRead(b, r, names, [r.got[|r.got| - k]])) else None
    else if k == 1 then
      match ReadName(b, r, names)
      case None => None
      case Some(a) => ReadForeign(a, ids)
    else if k - 2 >= |r.agents| then None
    else ReadForeign(AgentRead(b, r, names, r.agents[k - 2].agent), ids)
  }

  function ReadParents(b: Bytes, r: Reader, names: seq<Name>, ids: seq<AgentVersion>): (o: Option<ParentsRead>)
    ensures o.Some? ==> |o.value.rest| < |b|
    decreases |b|
  {
    match NextNumber(b)
    case None => None
    case Some(n) =>
      var isForeign, hasMore := n.value % 2 == 1, n.value / 2 % 2 == 1;
      var k := n.value / 2 / 2;
      if isForeign && k == 0 then
        if hasMore then None else Some(ParentsRead(n.rest, r, names, []))
      else
        match ReadParent(n.rest, r, names, ids, k, isForeign)
        case None => None
        case Some(p) =>
          if !hasMore then Some(p)
          else
            match ReadParents(p.rest, p.r, p.names, ids)
            case None => None
            case Some(ps) => Some(ps.(parents := p.parents + ps.parents))
  }

  // ---- Merging ----

  /** Where the part of a run that is new begins: after the last sequence number that is known. */
  function NewFrom(ids: seq<AgentVersion>, agent: nat, seqStart: nat, seqEnd: nat): (k: nat)
    requires seqStart <= seqEnd
    ensures seqStart <= k <= seqEnd
    ensures k > seqStart ==> AgentVersion(agent, k - 1) in ids
    ensures forall s | k <= s < seqEnd :: AgentVersion(agent, s) !in ids
    decreases seqEnd
  {
    if seqEnd == seqStart || AgentVersion(agent, seqEnd - 1) in ids then seqEnd
    else NewFrom(ids, agent, seqStart, seqEnd - 1)
  }

  ghost function LvOf(ids: seq<AgentVersion>, id: AgentVersion): (v: nat)
    requires id in ids
    ensures v < |ids| && ids[v] == id
  {
    IndexOf(ids, id).value
  }

  function NewIds(agent: nat, from: nat, upTo: nat): (r: seq<AgentVersion>)
    requires from <= upTo
    ensures |r| == upTo - from && forall i | 0 <= i < |r| :: r[i] == AgentVersion(agent, from + i)
  {
    seq(upTo - from, i requires 0 <= i < upTo - from => AgentVersion(agent, from + i))
  }

  /** `merge_and_assign`: what is new of a run goes on top of its parents, or of what is known of it. */
  ghost function Merge(c: Cg, parents: seq<nat>, agent: nat, seqStart: nat, len: nat): Cg {
    var k := NewFrom(c.ids, agent, seqStart, seqStart + len);
    var ps := if k == seqStart then parents else [LvOf(c.ids, AgentVersion(agent, k - 1))];
    c.(ids := c.ids + NewIds(agent, k, seqStart + len),
       g := c.g + GrowingGraph.NewRun(|c.g|, seqStart + len - k, ps))
  }

  /** The versions of those sequence numbers that are known, in order. */
  ghost function SpanLvs(ids: seq<AgentVersion>, agent: nat, from: nat, upTo: nat): seq<nat>
    requires from <= upTo
    decreases upTo
  {
    if from == upTo then []
    else
      var before := SpanLvs(ids, agent, from, upTo - 1);
      if AgentVersion(agent, upTo - 1) in ids then before + [LvOf(ids, AgentVersion(agent, upTo - 1))] else before
  }

  datatype RawRead = RawRead(span: SpanRead, parents: seq<nat>)

  /** `read_raw`: a run and its parents; without parents it goes on top of what was read last. */
  ghost function ReadRaw(b: Bytes, r: Reader, names: seq<Name>, ids: seq<AgentVersion>): (o: Option<RawRead>)
    ensures o.Some? ==> |o.value.span.rest| < |b|
  {
    match ReadSpan(b, r, names)
    case None => None
    case Some(span) =>
      if span.hasParents then
        match ReadParents(span.rest, span.r, span.names, ids)
        case None => None
        case Some(ps) => Some(RawRead(span.(rest := ps.rest, r := ps.r, names := ps.names), GrowingGraph.SortUp(ps.parents)))
      else if r.got == [] then None
      else Some(RawRead(span, [r.got[|r.got| - 1]]))
  }

  datatype EntryRead = EntryRead(rest: Bytes, r: Reader, c: Cg)

  ghost function ReadEntry(b: Bytes, r: Reader, c: Cg): (o: Option<EntryRead>)
    ensures o.Some? ==> |o.value.rest| < |b|
  {
    match ReadRaw(b, r, c.names, c.ids)
    case None => None
    case Some(raw) =>
      var s := raw.span;
      var c' := Merge(c.(names := s.names), raw.parents, s.agent, s.seqStart, s.len);
      Some(EntryRead(s.rest, s.r.(got := s.r.got + SpanLvs(c'.ids, s.agent, s.seqStart, s.seqStart + s.len)), c'))
  }

  ghost function ReadAll(b: Bytes, r: Reader, c: Cg): Option<Cg>
    decreases |b|
  {
    if b == [] then Some(c)
    else
      match ReadEntry(b, r, c)
      case None => None
      case Some(e) => ReadAll(e.rest, e.r, e.c)
  }
}
