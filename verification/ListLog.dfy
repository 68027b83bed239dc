/** The operation log: positional edits, one per version, over a causal graph with raw IDs. */
module ListLog {
  import opened Dag
  import opened RleGraph

  datatype Option<+T> = None | Some(value: T)

  /** An edit, at a position in the document as it was at the operation's parents. */
  datatype ListOp<T> = Ins(pos: nat, content: T) | Del(pos: nat)

  datatype Log<T> = Log(ops: seq<ListOp<T>>, g: Graph, ids: seq<RawVersion>)

  /** IDs from here on stand for document content that was there before a replay started. */
  const PLACEHOLDER_BASE: nat := 1_000_000_000_000

  ghost predicate ValidLog<T>(log: Log<T>) {
    && |log.ops| == |log.g| == |log.ids| <= PLACEHOLDER_BASE
    && WellFormed(log.g)
  }

  /** No two operations share an ID. */
  ghost predicate UniqueIds<T>(log: Log<T>) {
    forall v, w | 0 <= v < w < |log.ids| :: log.ids[v] != log.ids[w]
  }

  /** `<` on strings, by character code. */
  predicate StringLess(a: string, b: string) {
    if b == "" then false
    else if a == "" then true
    else a[0] < b[0] || (a[0] == b[0] && StringLess(a[1..], b[1..]))
  }

  /** `rawVersionCmp(a, b) < 0`: by agent, then by sequence number. */
  predicate RawLess(a: RawVersion, b: RawVersion) {
    StringLess(a.agent, b.agent) || (a.agent == b.agent && a.seqNo < b.seqNo)
  }

  lemma {:induction false} StringLessTotal(a: string, b: string)
    ensures StringLess(a, b) || a == b || StringLess(b, a)
    ensures !(StringLess(a, b) && StringLess(b, a)) && !StringLess(a, a)
  {
    if a != "" {
      StringLessTotal(a[1..], a[1..]);
    }
    if a != "" && b != "" && a[0] == b[0] {
      StringLessTotal(a[1..], b[1..]);
      assert a == [a[0]] + a[1..] && b == [b[0]] + b[1..];
    }
  }

  lemma {:induction false} StringLessTransitive(a: string, b: string, c: string)
    requires StringLess(a, b) && StringLess(b, c)
    ensures StringLess(a, c)
  {
    if a != "" && a[0] == b[0] == c[0] {
      StringLessTransitive(a[1..], b[1..], c[1..]);
    }
  }

  lemma {:induction false} RawLessTransitive(a: RawVersion, b: RawVersion, c: RawVersion)
    requires RawLess(a, b) && RawLess(b, c)
    ensures RawLess(a, c)
  {
    if StringLess(a.agent, b.agent) && StringLess(b.agent, c.agent) {
      StringLessTransitive(a.agent, b.agent, c.agent);
    }
  }

  lemma {:induction false} RawLessTotal(a: RawVersion, b: RawVersion)
    ensures RawLess(a, b) || a == b || RawLess(b, a)
    ensures !(RawLess(a, b) && RawLess(b, a)) && !RawLess(a, a)
  {
    StringLessTotal(a.agent, b.agent);
    StringLessTotal(a.agent, a.agent);
  }

  /** Up to character `k` the strings are the same, and there `a` ends or has the smaller character. */
  ghost predicate SmallerAt(a: string, b: string, k: nat) {
    k <= |a| && k < |b| && a[..k] == b[..k] && (k == |a| || a[k] < b[k])
  }

  /** The first character in which the strings differ decides, and a proper prefix is smaller. */
  ghost predicate Smaller(a: string, b: string) {
    exists k: nat :: SmallerAt(a, b, k)
  }

  lemma {:induction false} StringLessMeans(a: string, b: string)
    ensures StringLess(a, b) <==> Smaller(a, b)
  {
    if a == "" {
      assert b != "" ==> SmallerAt(a, b, 0);
    } else if b != "" {
      StringLessMeans(a[1..], b[1..]);
      if a[0] < b[0] { assert SmallerAt(a, b, 0); }
      if a[0] == b[0] && Smaller(a[1..], b[1..]) {
        var k: nat :| SmallerAt(a[1..], b[1..], k);
        FirstSame(a, b, k);
      }
      if k: nat :| SmallerAt(a, b, k) && k > 0 {
        FirstSame(a, b, k - 1);
      }
    }
  }

  lemma {:induction false} SameHead(x: char, s: string, y: char, t: string)
    ensures [x] + s == [y] + t <==> x == y && s == t
  {
    assert ([x] + s)[0] == x && ([y] + t)[0] == y && ([x] + s)[1..] == s && ([y] + t)[1..] == t;
  }

  lemma {:induction false} FirstSame(a: string, b: string, k: nat)
    requires a != "" && b != ""
    ensures SmallerAt(a, b, k + 1) <==> a[0] == b[0] && SmallerAt(a[1..], b[1..], k)
  {
    if k + 1 <= |a| && k + 1 <= |b| {
      assert a[..k + 1] == [a[0]] + a[1..][..k] && b[..k + 1] == [b[0]] + b[1..][..k];
      SameHead(a[0], a[1..][..k], b[0], b[1..][..k]);
    }
  }

  /** IDs of one agent compare by sequence number. Otherwise the agents do: the first character in which
      they differ decides, and a proper prefix is smaller. */
  lemma {:induction false} RawLessMeans(a: RawVersion, b: RawVersion)
    ensures RawLess(a, b) <==> if a.agent == b.agent then a.seqNo < b.seqNo else Smaller(a.agent, b.agent)
  {
    hide StringLess, Smaller;
    if a.agent == b.agent {
      StringLessTotal(a.agent, a.agent);
    } else {
      StringLessMeans(a.agent, b.agent);
    }
  }
}
