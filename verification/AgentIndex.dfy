/** The per-agent lists of `agentToVersion`: sorted, disjoint runs from sequence numbers to
    local versions, searched by bisection and extended at the end or in the middle. */
module AgentIndex {

  /** The IDs `[seqStart, seqEnd)` of one agent, at consecutive versions from `version` on. */
  datatype ClientEntry = ClientEntry(seqStart: nat, seqEnd: nat, version: nat)

  ghost predicate Sorted(av: seq<ClientEntry>) {
    && (forall i | 0 <= i < |av| :: av[i].seqStart < av[i].seqEnd)
    && (forall i, j | 0 <= i < j < |av| :: av[i].seqEnd <= av[j].seqStart)
  }

  /** The list maps sequence number `s` to version `v`. */
  ghost predicate Maps(av: seq<ClientEntry>, s: nat, v: nat) {
    exists i :: 0 <= i < |av| && EntryMaps(av[i], s, v)
  }

  ghost predicate EntryMaps(e: ClientEntry, s: nat, v: nat) {
    e.seqStart <= s < e.seqEnd && v == e.version + (s - e.seqStart)
  }

  lemma {:induction false} MapsOnce(av: seq<ClientEntry>, s: nat, v: nat, w: nat)
    requires Sorted(av) && Maps(av, s, v) && Maps(av, s, w)
    ensures v == w
  {
    var i :| 0 <= i < |av| && EntryMaps(av[i], s, v);
    var j :| 0 <= j < |av| && EntryMaps(av[j], s, w);
  }

  /** Where a search ends: in an entry, or in the gap before entry `idx`. */
  datatype Located = At(idx: nat) | Gap(idx: nat)

  /** Bisection for the entry that contains `s`, among those from `lo` up to `hi`. */
  function Locate(av: seq<ClientEntry>, s: nat, lo: nat, hi: nat): (r: Located)
    requires Sorted(av) && lo <= hi <= |av|
    requires (forall i | 0 <= i < lo :: av[i].seqEnd <= s) && (forall i | hi <= i < |av| :: s < av[i].seqStart)
    ensures r.At? ==> r.idx < |av| && av[r.idx].seqStart <= s < av[r.idx].seqEnd
    ensures r.Gap? ==> r.idx <= |av| && (forall i | 0 <= i < r.idx :: av[i].seqEnd <= s) && (forall i | r.idx <= i < |av| :: s < av[i].seqStart)
    decreases hi - lo
  {
    if lo == hi then Gap(lo)
    else
      var mid := (lo + hi) / 2;
      if s < av[mid].seqStart then Locate(av, s, lo, mid)
      else if s >= av[mid].seqEnd then Locate(av, s, mid + 1, hi)
      else At(mid)
  }

  lemma {:induction false} LocateMeans(av: seq<ClientEntry>, s: nat)
    requires Sorted(av)
    ensures var r := Locate(av, s, 0, |av|);
            && (r.At? ==> Maps(av, s, av[r.idx].version + (s - av[r.idx].seqStart)))
            && (r.Gap? ==> forall v: nat :: !Maps(av, s, v))
  {
    var r := Locate(av, s, 0, |av|);
    if r.At? {
      assert EntryMaps(av[r.idx], s, av[r.idx].version + (s - av[r.idx].seqStart));
    }
  }

  predicate CanAppend(a: ClientEntry, b: ClientEntry)
    requires a.seqStart <= a.seqEnd
  {
    b.seqStart == a.seqEnd && b.version == a.version + (a.seqEnd - a.seqStart)
  }

  /** Runs are joined exactly when a single one maps the same sequence numbers to the same versions. */
  lemma {:induction false} JoinsExactly(a: ClientEntry, b: ClientEntry)
    requires a.seqStart < a.seqEnd <= b.seqStart < b.seqEnd
    ensures CanAppend(a, b) <==> forall s: nat, v: nat :: EntryMaps(a.(seqEnd := b.seqEnd), s, v) <==> EntryMaps(a, s, v) || EntryMaps(b, s, v)
  {
    var c := a.(seqEnd := b.seqEnd);
    if forall s: nat, v: nat :: EntryMaps(c, s, v) <==> EntryMaps(a, s, v) || EntryMaps(b, s, v) {
      assert EntryMaps(c, a.seqEnd, c.version + (a.seqEnd - c.seqStart));
      assert EntryMaps(b, b.seqStart, b.version);
    }
  }

  ghost predicate PackedClient(av: seq<ClientEntry>)
    requires Sorted(av)
  {
    forall i | 0 < i < |av| :: !CanAppend(av[i - 1], av[i])
  }

  /** None of the new entry's IDs is in the list yet. */
  ghost predicate Apart(av: seq<ClientEntry>, e: ClientEntry) {
    forall i | 0 <= i < |av| :: e.seqEnd <= av[i].seqStart || av[i].seqEnd <= e.seqStart
  }

  ghost predicate Older(av: seq<ClientEntry>, e: ClientEntry)
    requires Sorted(av)
  {
    forall i | 0 <= i < |av| :: av[i].version + (av[i].seqEnd - av[i].seqStart) <= e.version
  }

  ghost function Spliced(av: seq<ClientEntry>, idx: nat, e: ClientEntry): seq<ClientEntry>
    requires idx <= |av|
  {
    av[..idx] + [e] + av[idx..]
  }

  lemma {:induction false} ExtendedSorted(av: seq<ClientEntry>, k: nat, e: ClientEntry)
    requires Sorted(av) && k < |av| && CanAppend(av[k], e) && e.seqStart < e.seqEnd && Apart(av, e) && Older(av, e) && PackedClient(av)
    ensures var r := av[k := av[k].(seqEnd := e.seqEnd)]; Sorted(r) && PackedClient(r)
  {
    var r := av[k := av[k].(seqEnd := e.seqEnd)];
    forall i, j | 0 <= i < j < |r|
      ensures r[i].seqEnd <= r[j].seqStart
    {
      assert av[i].seqEnd <= av[j].seqStart;
    }
    assert Sorted(r);
    forall i | 0 < i < |r|
      ensures !CanAppend(r[i - 1], r[i])
    {
      assert !CanAppend(av[i - 1], av[i]);
    }
  }

  lemma {:induction false} ExtendedMeans(av: seq<ClientEntry>, k: nat, e: ClientEntry)
    requires Sorted(av) && k < |av| && CanAppend(av[k], e) && e.seqStart < e.seqEnd && Apart(av, e) && Older(av, e) && PackedClient(av)
    ensures var r := av[k := av[k].(seqEnd := e.seqEnd)];
            Sorted(r) && PackedClient(r) && forall s: nat, v: nat :: Maps(r, s, v) <==> Maps(av, s, v) || EntryMaps(e, s, v)
  {
    ExtendedSorted(av, k, e);
    var r := av[k := av[k].(seqEnd := e.seqEnd)];
    assert av[k].seqStart < av[k].seqEnd;
    forall s: nat, v: nat
      ensures EntryMaps(r[k], s, v) <==> EntryMaps(av[k], s, v) || EntryMaps(e, s, v)
    {
    }
    ElementwiseMaps(av, k, e, r);
  }

  /** One entry takes in another, and the rest stay. */
  lemma {:induction false} ElementwiseMaps(av: seq<ClientEntry>, k: nat, e: ClientEntry, r: seq<ClientEntry>)
    requires k < |av| == |r| && forall i | 0 <= i < |av| && i != k :: r[i] == av[i]
    requires forall s: nat, v: nat :: EntryMaps(r[k], s, v) <==> EntryMaps(av[k], s, v) || EntryMaps(e, s, v)
    ensures forall s: nat, v: nat :: Maps(r, s, v) <==> Maps(av, s, v) || EntryMaps(e, s, v)
  {
    hide EntryMaps;
    forall s: nat, v: nat
      ensures Maps(r, s, v) <==> Maps(av, s, v) || EntryMaps(e, s, v)
    {
      if Maps(av, s, v) {
        var i :| 0 <= i < |av| && EntryMaps(av[i], s, v);
        assert EntryMaps(r[i], s, v);
      }
      if EntryMaps(e, s, v) { assert EntryMaps(r[k], s, v); }
      if Maps(r, s, v) {
        var i :| 0 <= i < |r| && EntryMaps(r[i], s, v);
        assert EntryMaps(av[i], s, v) || EntryMaps(e, s, v);
      }
    }
  }

  lemma {:induction false} SplicedElements(av: seq<ClientEntry>, idx: nat, e: ClientEntry)
    requires idx <= |av|
    ensures |Spliced(av, idx, e)| == |av| + 1 && Spliced(av, idx, e)[idx] == e
    ensures forall i | 0 <= i < idx :: Spliced(av, idx, e)[i] == av[i]
    ensures forall i | idx < i <= |av| :: Spliced(av, idx, e)[i] == av[i - 1]
    ensures forall i | idx <= i < |av| :: Spliced(av, idx, e)[i + 1] == av[i]
  {
  }

  lemma {:induction false} SplicedMaps(av: seq<ClientEntry>, idx: nat, e: ClientEntry, s: nat, v: nat)
    requires idx <= |av|
    ensures Maps(Spliced(av, idx, e), s, v) <==> Maps(av, s, v) || EntryMaps(e, s, v)
  {
    hide EntryMaps, Spliced;
    SplicedElements(av, idx, e);
    var r := Spliced(av, idx, e);
    if Maps(av, s, v) {
      var i :| 0 <= i < |av| && EntryMaps(av[i], s, v);
      assert EntryMaps(r[if i < idx then i else i + 1], s, v);
    }
    if EntryMaps(e, s, v) { assert EntryMaps(r[idx], s, v); }
    if Maps(r, s, v) {
      var i :| 0 <= i < |r| && EntryMaps(r[i], s, v);
      if i < idx { assert EntryMaps(av[i], s, v); }
      if i > idx { assert EntryMaps(av[i - 1], s, v); }
    }
  }

  lemma {:induction false} SplicedSorted(av: seq<ClientEntry>, idx: nat, e: ClientEntry)
    requires Sorted(av) && idx <= |av| && e.seqStart < e.seqEnd && Older(av, e) && PackedClient(av)
    requires (forall i | 0 <= i < idx :: av[i].seqEnd <= e.seqStart) && (forall i | idx <= i < |av| :: e.seqEnd <= av[i].seqStart)
    requires idx > 0 ==> !CanAppend(av[idx - 1], e)
    ensures Sorted(Spliced(av, idx, e)) && PackedClient(Spliced(av, idx, e))
  {
    SplicedAscends(av, idx, e);
    hide Spliced, Older, Sorted;
    SplicedElements(av, idx, e);
    var r := Spliced(av, idx, e);
    forall i | 0 < i < |r|
      ensures !CanAppend(r[i - 1], r[i])
    {
      if i == idx + 1 {
        NotBefore(av, idx, e);
      } else if i != idx {
        var i0 := if i < idx then i else i - 1;
        assert !CanAppend(av[i0 - 1], av[i0]);
      }
    }
  }

  /** The newest run is not continued by an older one. */
  lemma {:induction false} NotBefore(av: seq<ClientEntry>, idx: nat, e: ClientEntry)
    requires Sorted(av) && Older(av, e) && e.seqStart < e.seqEnd && idx < |av|
    ensures !CanAppend(e, av[idx])
  {
    assert av[idx].seqStart < av[idx].seqEnd;
  }

  lemma {:induction false} SplicedAscends(av: seq<ClientEntry>, idx: nat, e: ClientEntry)
    requires Sorted(av) && idx <= |av| && e.seqStart < e.seqEnd
    requires (forall i | 0 <= i < idx :: av[i].seqEnd <= e.seqStart) && (forall i | idx <= i < |av| :: e.seqEnd <= av[i].seqStart)
    ensures Sorted(Spliced(av, idx, e))
  {
    hide Spliced;
    SplicedElements(av, idx, e);
    var r := Spliced(av, idx, e);
    forall i, j | 0 <= i < j < |r|
      ensures r[i].seqEnd <= r[j].seqStart
    {
      if i != idx && j != idx {
        var i0, j0 := if i < idx then i else i - 1, if j < idx then j else j - 1;
        assert av[i0].seqEnd <= av[j0].seqStart;
      }
    }
  }

  lemma {:induction false} SplicedMeans(av: seq<ClientEntry>, idx: nat, e: ClientEntry)
    requires Sorted(av) && idx <= |av| && e.seqStart < e.seqEnd && Older(av, e) && PackedClient(av)
    requires (forall i | 0 <= i < idx :: av[i].seqEnd <= e.seqStart) && (forall i | idx <= i < |av| :: e.seqEnd <= av[i].seqStart)
    requires idx > 0 ==> !CanAppend(av[idx - 1], e)
    ensures var r := Spliced(av, idx, e);
            Sorted(r) && PackedClient(r) && forall s: nat, v: nat :: Maps(r, s, v) <==> Maps(av, s, v) || EntryMaps(e, s, v)
  {
    hide Spliced, Maps, EntryMaps, Sorted, PackedClient, Older;
    SplicedSorted(av, idx, e);
    forall s: nat, v: nat
      ensures Maps(Spliced(av, idx, e), s, v) <==> Maps(av, s, v) || EntryMaps(e, s, v)
    {
      SplicedMaps(av, idx, e, s, v);
    }
  }

  /** `insertRLEList`: puts a new entry where it belongs, joining it to the one before if they
      run on. The list cannot already hold an entry with the new one's key. */
  method InsertRleList(list: seq<ClientEntry>, newItem: ClientEntry) returns (r: seq<ClientEntry>)
    requires Sorted(list) && PackedClient(list) && newItem.seqStart < newItem.seqEnd && Apart(list, newItem) && Older(list, newItem)
    ensures Sorted(r) && PackedClient(r)
    ensures forall s: nat, v: nat :: Maps(r, s, v) <==> Maps(list, s, v) || EntryMaps(newItem, s, v)
  {
    hide Maps, EntryMaps, PackedClient, Sorted, Spliced, Older, Apart, Locate;
    SortedFacts(list, newItem);
    if |list| == 0 || newItem.seqStart >= list[|list| - 1].seqStart {
      AfterAll(list, newItem);
      if |list| == 0 || !CanAppend(list[|list| - 1], newItem) {
        SplicedMeans(list, |list|, newItem);
        SplicedAtEnd(list, newItem);
        r := list + [newItem];
      } else {
        ExtendedMeans(list, |list| - 1, newItem);
        r := list[|list| - 1 := list[|list| - 1].(seqEnd := newItem.seqEnd)];
      }
    } else {
      match Locate(list, newItem.seqStart, 0, |list|)
      case At(idx) =>
        assert false;
      case Gap(idx) =>
        InGap(list, newItem, idx);
        if idx == 0 || !CanAppend(list[idx - 1], newItem) {
          SplicedMeans(list, idx, newItem);
          SplicedIs(list, idx, newItem);
          r := list[..idx] + [newItem] + list[idx..];
        } else {
          ExtendedMeans(list, idx - 1, newItem);
          r := list[idx - 1 := list[idx - 1].(seqEnd := newItem.seqEnd)];
        }
    }
  }

  lemma {:induction false} SortedFacts(list: seq<ClientEntry>, e: ClientEntry)
    requires Sorted(list) && Apart(list, e)
    ensures forall i | 0 <= i < |list| :: list[i].seqStart < list[i].seqEnd
    ensures forall i | 0 <= i < |list| :: e.seqEnd <= list[i].seqStart || list[i].seqEnd <= e.seqStart
  {
  }

  lemma {:induction false} AfterAll(list: seq<ClientEntry>, e: ClientEntry)
    requires Sorted(list) && Apart(list, e) && e.seqStart < e.seqEnd && (list == [] || e.seqStart >= list[|list| - 1].seqStart)
    ensures forall i | 0 <= i < |list| :: list[i].seqEnd <= e.seqStart
  {
    if list != [] {
      var k := |list| - 1;
      assert list[k].seqEnd <= e.seqStart;
    }
  }

  lemma {:induction false} InGap(list: seq<ClientEntry>, e: ClientEntry, idx: nat)
    requires Sorted(list) && Apart(list, e) && e.seqStart < e.seqEnd && idx <= |list|
    requires forall i | idx <= i < |list| :: e.seqStart < list[i].seqStart
    ensures forall i | idx <= i < |list| :: e.seqEnd <= list[i].seqStart
  {
  }

  lemma {:induction false} SplicedAtEnd(list: seq<ClientEntry>, e: ClientEntry)
    ensures Spliced(list, |list|, e) == list + [e]
  {
  }

  lemma {:induction false} SplicedIs(list: seq<ClientEntry>, idx: nat, e: ClientEntry)
    requires idx <= |list|
    ensures Spliced(list, idx, e) == list[..idx] + [e] + list[idx..]
  {
  }
}
