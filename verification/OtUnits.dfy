/** Text operations character by character: what one does to a document, how it is rewritten to
    follow a concurrent one, and how two in sequence make one. */
module OtUnits {

  /** One step over a document: keep the next character, drop it, or put in a new one. After the
      last unit everything left is kept. */
  datatype Unit = Keep | Drop | New(ch: char)

  function Consumes(u: Unit): nat {
    if u.New? then 0 else 1
  }

  /** How many characters of the document the units pass over. */
  function PreLen(units: seq<Unit>): nat {
    if units == [] then 0 else Consumes(units[0]) + PreLen(units[1..])
  }

  predicate Fits(units: seq<Unit>, doc: string) {
    PreLen(units) <= |doc|
  }

  function Apply(units: seq<Unit>, doc: string): string
    requires Fits(units, doc)
    decreases |units|
  {
    if units == [] then doc
    else
      match units[0]
      case New(ch) => [ch] + Apply(units[1..], doc)
      case Keep => [doc[0]] + Apply(units[1..], doc[1..])
      case Drop => Apply(units[1..], doc[1..])
  }

  // ---- Rewriting ----

  /** `a` rewritten to apply after the concurrent `b`; the left one's inserts go first. */
  function Rewrite(a: seq<Unit>, b: seq<Unit>, aIsLeft: bool): seq<Unit>
    decreases |a| + |b|
  {
    if b == [] then a
    else if b[0].New? then
      if aIsLeft && a != [] && a[0].New? then [a[0]] + Rewrite(a[1..], b, aIsLeft)
      else [Keep] + Rewrite(a, b[1..], aIsLeft)
    else if a != [] && a[0].New? then [a[0]] + Rewrite(a[1..], b, aIsLeft)
    else
      var rest := Rewrite(if a == [] then [] else a[1..], b[1..], aIsLeft);
      if b[0] == Drop then rest else [if a == [] then Keep else a[0]] + rest
  }

  lemma {:induction false} NothingRewritten(b: seq<Unit>, doc: string, aIsLeft: bool)
    requires Fits(b, doc)
    ensures Fits(Rewrite([], b, aIsLeft), Apply(b, doc))
    ensures Apply(Rewrite([], b, aIsLeft), Apply(b, doc)) == Apply(b, doc)
    decreases |b|
  {
    if b != [] {
      NothingRewritten(b[1..], if b[0].New? then doc else doc[1..], aIsLeft);
    }
  }

  /** TP1: two concurrent operations, each followed by the other rewritten, give the same document. */
  lemma {:induction false} Converges(a: seq<Unit>, b: seq<Unit>, doc: string, aIsLeft: bool)
    requires Fits(a, doc) && Fits(b, doc)
    ensures Fits(Rewrite(a, b, aIsLeft), Apply(b, doc)) && Fits(Rewrite(b, a, !aIsLeft), Apply(a, doc))
    ensures Apply(Rewrite(a, b, aIsLeft), Apply(b, doc)) == Apply(Rewrite(b, a, !aIsLeft), Apply(a, doc))
    decreases |a| + |b|
  {
    if a == [] {
      NothingRewritten(b, doc, aIsLeft);
    } else if b == [] {
      NothingRewritten(a, doc, !aIsLeft);
    } else if a[0].New? && (aIsLeft || !b[0].New?) {
      Converges(a[1..], b, doc, aIsLeft);
      FirstInserts(a, b, doc, aIsLeft);
    } else if b[0].New? {
      Converges(a, b[1..], doc, aIsLeft);
      FirstInserts(b, a, doc, !aIsLeft);
    } else {
      Converges(a[1..], b[1..], doc[1..], aIsLeft);
    }
  }

  /** An insert that goes first: one more unit on both sides. */
  lemma {:induction false} FirstInserts(a: seq<Unit>, b: seq<Unit>, doc: string, aIsLeft: bool)
    requires Fits(a, doc) && Fits(b, doc) && a != [] && b != [] && a[0].New? && (aIsLeft || !b[0].New?)
    requires Fits(Rewrite(a[1..], b, aIsLeft), Apply(b, doc)) && Fits(Rewrite(b, a[1..], !aIsLeft), Apply(a[1..], doc))
    ensures Rewrite(a, b, aIsLeft) == [a[0]] + Rewrite(a[1..], b, aIsLeft)
    ensures Rewrite(b, a, !aIsLeft) == [Keep] + Rewrite(b, a[1..], !aIsLeft)
    ensures Fits(Rewrite(a, b, aIsLeft), Apply(b, doc)) && Fits(Rewrite(b, a, !aIsLeft), Apply(a, doc))
    ensures Apply(Rewrite(a, b, aIsLeft), Apply(b, doc)) == [a[0].ch] + Apply(Rewrite(a[1..], b, aIsLeft), Apply(b, doc))
    ensures Apply(Rewrite(b, a, !aIsLeft), Apply(a, doc)) == [a[0].ch] + Apply(Rewrite(b, a[1..], !aIsLeft), Apply(a[1..], doc))
  {
    var doc' := Apply(a, doc);
    assert doc' == [a[0].ch] + Apply(a[1..], doc);
    assert doc'[1..] == Apply(a[1..], doc);
  }

  // ---- Composing ----

  /** `a` and then `b` as one operation. */
  ghost function Compose(a: seq<Unit>, b: seq<Unit>): seq<Unit>
    decreases |a| + |b|
  {
    if b == [] then a
    else if b[0].New? then [b[0]] + Compose(a, b[1..])
    else if a == [] then [b[0]] + Compose(a, b[1..])
    else if a[0] == Drop then [Drop] + Compose(a[1..], b)
    else if b[0] == Keep then [a[0]] + Compose(a[1..], b[1..])
    else if a[0] == Keep then [Drop] + Compose(a[1..], b[1..])
    else Compose(a[1..], b[1..])
  }

  lemma {:induction false} ComposeMeans(a: seq<Unit>, b: seq<Unit>, doc: string)
    requires Fits(a, doc) && Fits(b, Apply(a, doc))
    ensures Fits(Compose(a, b), doc)
    ensures Apply(Compose(a, b), doc) == Apply(b, Apply(a, doc))
    decreases |a| + |b|
  {
    if b == [] {
    } else if b[0].New? {
      ComposeMeans(a, b[1..], doc);
    } else if a == [] {
      ComposeMeans(a, b[1..], doc[1..]);
    } else if a[0] == Drop {
      ComposeMeans(a[1..], b, doc[1..]);
    } else {
      var doc' := if a[0] == Keep then doc[1..] else doc;
      assert Apply(a, doc)[1..] == Apply(a[1..], doc');
      ComposeMeans(a[1..], b[1..], doc');
    }
  }

  // ---- Trailing keeps say nothing ----

  function Trimmed(units: seq<Unit>): (r: seq<Unit>)
    ensures r <= units
    ensures r != [] ==> r[|r| - 1] != Keep
    ensures forall i | |r| <= i < |units| :: units[i] == Keep
  {
    if units != [] && units[|units| - 1] == Keep then Trimmed(units[..|units| - 1]) else units
  }

  lemma {:induction false} PreLenConcat(a: seq<Unit>, b: seq<Unit>)
    ensures PreLen(a + b) == PreLen(a) + PreLen(b)
  {
    if a == [] {
      assert a + b == b;
    } else {
      assert (a + b)[1..] == a[1..] + b;
      PreLenConcat(a[1..], b);
    }
  }

  lemma {:induction false} LastKeep(units: seq<Unit>, doc: string)
    requires Fits(units + [Keep], doc)
    ensures Fits(units, doc) && Apply(units + [Keep], doc) == Apply(units, doc)
  {
    PreLenConcat(units, [Keep]);
    if units == [] {
      assert Apply([Keep], doc) == [doc[0]] + Apply([], doc[1..]);
    } else {
      assert (units + [Keep])[1..] == units[1..] + [Keep];
      LastKeep(units[1..], if units[0].New? then doc else doc[1..]);
    }
  }

  lemma {:induction false} TrimmedMeans(units: seq<Unit>, doc: string)
    requires Fits(units, doc)
    ensures Fits(Trimmed(units), doc) && Apply(Trimmed(units), doc) == Apply(units, doc)
  {
    if units != [] && units[|units| - 1] == Keep {
      var k := |units| - 1;
      assert units == units[..k] + [Keep];
      LastKeep(units[..k], doc);
      TrimmedMeans(units[..k], doc);
    }
  }

  /** An operation rewritten and trimmed, as `transform1` leaves it. */
  function Transformed(a: seq<Unit>, b: seq<Unit>, aIsLeft: bool): seq<Unit> {
    Trimmed(Rewrite(a, b, aIsLeft))
  }

  /** TP1 for operations as `transform2` returns them. */
  lemma {:induction false} TransformedConverges(a: seq<Unit>, b: seq<Unit>, doc: string, aIsLeft: bool)
    requires Fits(a, doc) && Fits(b, doc)
    ensures Fits(Transformed(a, b, aIsLeft), Apply(b, doc)) && Fits(Transformed(b, a, !aIsLeft), Apply(a, doc))
    ensures Apply(Transformed(a, b, aIsLeft), Apply(b, doc)) == Apply(Transformed(b, a, !aIsLeft), Apply(a, doc))
  {
    Converges(a, b, doc, aIsLeft);
    TrimmedMeans(Rewrite(a, b, aIsLeft), Apply(b, doc));
    TrimmedMeans(Rewrite(b, a, !aIsLeft), Apply(a, doc));
  }

  // ---- The merged document, place by place ----

  /** What the units put in right before character `k` of the document. */
  function TextAt(units: seq<Unit>, k: nat): string {
    if units == [] then ""
    else if units[0].New? then (if k == 0 then [units[0].ch] else "") + TextAt(units[1..], k)
    else if k == 0 then ""
    else TextAt(units[1..], k - 1)
  }

  /** The units leave character `k` of the document where it is. */
  predicate KeepsAt(units: seq<Unit>, k: nat) {
    if units == [] then true
    else if units[0].New? then KeepsAt(units[1..], k)
    else if k == 0 then units[0] == Keep
    else KeepsAt(units[1..], k - 1)
  }

  /** Two concurrent operations merged, from character `k` of the document on: at each place the left
      one's text, then the right one's, then the character, if both leave it there. */
  function BothFrom(left: seq<Unit>, right: seq<Unit>, doc: string, k: nat): string
    requires k <= |doc|
    decreases |doc| - k
  {
    TextAt(left, k) + TextAt(right, k) +
    (if k == |doc| then ""
     else (if KeepsAt(left, k) && KeepsAt(right, k) then [doc[k]] else "") + BothFrom(left, right, doc, k + 1))
  }

  lemma {:induction false} SameFrom(a: seq<Unit>, b: seq<Unit>, a': seq<Unit>, b': seq<Unit>, doc: string, k: nat)
    requires k <= |doc|
    requires forall j: nat | k <= j :: TextAt(a, j) == TextAt(a', j) && TextAt(b, j) == TextAt(b', j)
    requires forall j: nat | k <= j :: KeepsAt(a, j) == KeepsAt(a', j) && KeepsAt(b, j) == KeepsAt(b', j)
    ensures BothFrom(a, b, doc, k) == BothFrom(a', b', doc, k)
    decreases |doc| - k
  {
    hide TextAt, KeepsAt;
    if k < |doc| { SameFrom(a, b, a', b', doc, k + 1); }
  }

  /** One character further on, on both sides. */
  lemma {:induction false} ShiftFrom(a: seq<Unit>, b: seq<Unit>, a': seq<Unit>, b': seq<Unit>, doc: string, k: nat)
    requires doc != [] && k < |doc|
    requires forall j: nat :: TextAt(a, j + 1) == TextAt(a', j) && TextAt(b, j + 1) == TextAt(b', j)
    requires forall j: nat :: KeepsAt(a, j + 1) == KeepsAt(a', j) && KeepsAt(b, j + 1) == KeepsAt(b', j)
    ensures BothFrom(a, b, doc, k + 1) == BothFrom(a', b', doc[1..], k)
    decreases |doc| - k
  {
    hide TextAt, KeepsAt;
    if k + 1 < |doc| { ShiftFrom(a, b, a', b', doc, k + 1); }
  }

  lemma {:induction false} NewFirst(units: seq<Unit>)
    requires units != [] && units[0].New?
    ensures TextAt(units, 0) == [units[0].ch] + TextAt(units[1..], 0)
    ensures forall k: nat | 0 < k :: TextAt(units, k) == TextAt(units[1..], k)
    ensures forall k: nat :: KeepsAt(units, k) == KeepsAt(units[1..], k)
  {
  }

  /** Taking an insert off the front of the left operation, or of the right one where the left has none. */
  lemma {:induction false} BothInsert(a: seq<Unit>, b: seq<Unit>, doc: string, fromA: bool)
    requires if fromA then a != [] && a[0].New? else b != [] && b[0].New? && (a == [] || !a[0].New?)
    ensures BothFrom(a, b, doc, 0) == if fromA then [a[0].ch] + BothFrom(a[1..], b, doc, 0) else [b[0].ch] + BothFrom(a, b[1..], doc, 0)
  {
    hide TextAt, KeepsAt;
    var a', b' := if fromA then a[1..] else a, if fromA then b else b[1..];
    if fromA {
      NewFirst(a);
      OneFirst(a[0].ch, TextAt(a', 0), TextAt(b, 0), AfterGap(a, b, doc));
    } else {
      NewFirst(b);
      PassFirst(a);
      OneFirst(b[0].ch, "", TextAt(b', 0), AfterGap(a, b, doc));
      assert "" + TextAt(b, 0) == TextAt(b, 0) && "" + TextAt(b', 0) == TextAt(b', 0);
    }
    if doc != [] { SameFrom(a, b, a', b', doc, 1); }
  }

  /** Everything but what goes in at the very start. */
  function AfterGap(a: seq<Unit>, b: seq<Unit>, doc: string): string {
    if doc == [] then "" else (if KeepsAt(a, 0) && KeepsAt(b, 0) then [doc[0]] else "") + BothFrom(a, b, doc, 1)
  }

  lemma {:induction false} OneFirst(ch: char, s: string, t: string, rest: string)
    ensures ([ch] + s) + t + rest == [ch] + (s + t + rest)
    ensures s + ([ch] + t) + rest == s + [ch] + t + rest
  {
  }

  /** The rest of the units, once the first character has been passed over. */
  function Past(units: seq<Unit>): seq<Unit> {
    if units == [] then [] else units[1..]
  }

  lemma {:induction false} BothPass(a: seq<Unit>, b: seq<Unit>, doc: string)
    requires (a == [] || !a[0].New?) && (b == [] || !b[0].New?)
    ensures doc == [] ==> BothFrom(a, b, doc, 0) == ""
    ensures doc != [] ==> BothFrom(a, b, doc, 0) ==
                          (if (a == [] || a[0] == Keep) && (b == [] || b[0] == Keep) then [doc[0]] else "") + BothFrom(Past(a), Past(b), doc[1..], 0)
  {
    hide TextAt, KeepsAt, Past;
    PassFirst(a);
    PassFirst(b);
    if doc != [] { ShiftFrom(a, b, Past(a), Past(b), doc, 0); }
  }

  lemma {:induction false} PassFirst(units: seq<Unit>)
    requires units == [] || !units[0].New?
    ensures TextAt(units, 0) == "" && (KeepsAt(units, 0) <==> units == [] || units[0] == Keep)
    ensures forall k: nat :: TextAt(units, k + 1) == TextAt(Past(units), k) && KeepsAt(units, k + 1) == KeepsAt(Past(units), k)
  {
  }

  /** What a single operation makes of a document, place by place. */
  lemma {:induction false} AppliedPlaces(a: seq<Unit>, doc: string)
    requires Fits(a, doc)
    ensures Apply(a, doc) == BothFrom(a, [], doc, 0)
    decreases |a| + |doc|
  {
    hide BothFrom;
    if a != [] && a[0].New? {
      BothInsert(a, [], doc, true);
      AppliedPlaces(a[1..], doc);
    } else {
      BothPass(a, [], doc);
      if doc != [] { AppliedPlaces(Past(a), doc[1..]); }
    }
  }

  lemma {:induction false} RewrittenPlaces(a: seq<Unit>, b: seq<Unit>, doc: string)
    requires Fits(a, doc) && Fits(b, doc)
    ensures Fits(Rewrite(a, b, true), Apply(b, doc)) && Apply(Rewrite(a, b, true), Apply(b, doc)) == BothFrom(a, b, doc, 0)
    decreases |a| + |b|
  {
    hide BothFrom;
    Converges(a, b, doc, true);
    if b == [] {
      AppliedPlaces(a, doc);
    } else if a != [] && a[0].New? {
      BothInsert(a, b, doc, true);
      RewrittenPlaces(a[1..], b, doc);
    } else if b[0].New? {
      BothInsert(a, b, doc, false);
      RewrittenPlaces(a, b[1..], doc);
      assert Apply(b, doc)[1..] == Apply(b[1..], doc);
    } else {
      BothPass(a, b, doc);
      RewrittenPlaces(Past(a), b[1..], doc[1..]);
      if b[0] == Keep { assert Apply(b, doc)[1..] == Apply(b[1..], doc[1..]); }
    }
  }

  /** Two operations merged by `transform1`: at every place of the document the text of the left one
      comes first, whichever of them is rewritten, and a character goes if either deletes it. */
  lemma {:induction false} LeftGoesFirst(a: seq<Unit>, b: seq<Unit>, doc: string, aIsLeft: bool)
    requires Fits(a, doc) && Fits(b, doc)
    ensures Fits(Transformed(a, b, aIsLeft), Apply(b, doc))
    ensures Apply(Transformed(a, b, aIsLeft), Apply(b, doc)) == if aIsLeft then BothFrom(a, b, doc, 0) else BothFrom(b, a, doc, 0)
  {
    hide BothFrom;
    TransformedConverges(a, b, doc, aIsLeft);
    if aIsLeft {
      RewrittenPlaces(a, b, doc);
      TrimmedMeans(Rewrite(a, b, true), Apply(b, doc));
    } else {
      RewrittenPlaces(b, a, doc);
      TrimmedMeans(Rewrite(b, a, true), Apply(a, doc));
    }
  }

  /** Typing `s` in front of character `k`. */
  function Typing(k: nat, s: string): seq<Unit>
    decreases k, |s|
  {
    if k > 0 then [Keep] + Typing(k - 1, s)
    else if s == "" then []
    else [New(s[0])] + Typing(0, s[1..])
  }

  lemma {:induction false} TypingAt(k: nat, s: string, j: nat)
    ensures TextAt(Typing(k, s), j) == (if j == k then s else "") && KeepsAt(Typing(k, s), j) && PreLen(Typing(k, s)) == k
    decreases k, |s|
  {
    var units := Typing(k, s);
    if k > 0 {
      assert units[1..] == Typing(k - 1, s);
      TypingAt(k - 1, s, if j == 0 then k else j - 1);
    } else if s != "" {
      assert units[1..] == Typing(0, s[1..]);
      TypingAt(0, s[1..], j);
    }
  }

  lemma {:induction false} TypedFrom(k: nat, s: string, t: string, doc: string, j: nat)
    requires j <= |doc| && k <= |doc|
    ensures BothFrom(Typing(k, s), Typing(k, t), doc, j) == if j <= k then doc[j..k] + s + t + doc[k..] else doc[j..]
    decreases |doc| - j
  {
    hide TextAt, KeepsAt, Typing, BothFrom;
    TypingAt(k, s, j);
    TypingAt(k, t, j);
    BothNext(Typing(k, s), Typing(k, t), doc, j);
    if j < |doc| {
      TypedFrom(k, s, t, doc, j + 1);
      NextPlace(k, s, t, doc, j);
    }
  }

  lemma {:induction false} BothNext(a: seq<Unit>, b: seq<Unit>, doc: string, j: nat)
    requires j <= |doc|
    ensures BothFrom(a, b, doc, j) == TextAt(a, j) + TextAt(b, j) +
            (if j == |doc| then "" else (if KeepsAt(a, j) && KeepsAt(b, j) then [doc[j]] else "") + BothFrom(a, b, doc, j + 1))
  {
  }

  lemma {:induction false} NextPlace(k: nat, s: string, t: string, doc: string, j: nat)
    requires j < |doc| && k <= |doc|
    ensures j < k ==> "" + "" + ([doc[j]] + (doc[j + 1..k] + s + t + doc[k..])) == doc[j..k] + s + t + doc[k..]
    ensures j == k ==> s + t + ([doc[j]] + doc[j + 1..]) == doc[j..k] + s + t + doc[k..]
    ensures j > k ==> "" + "" + ([doc[j]] + doc[j + 1..]) == doc[j..]
  {
    assert doc[j..] == [doc[j]] + doc[j + 1..];
    if j < k {
      assert doc[j..k] == [doc[j]] + doc[j + 1..k];
      FourParts([doc[j]], doc[j + 1..k], s + t, doc[k..]);
    }
  }

  lemma {:induction false} FourParts(a: string, b: string, c: string, d: string)
    ensures a + (b + c + d) == (a + b) + c + d
  {
  }

  /** Two authors who type at one place: the left one's text ends up directly before the other's. */
  lemma {:induction false} TypedTogether(k: nat, s: string, t: string, doc: string)
    requires k <= |doc|
    ensures Fits(Typing(k, t), doc) && Fits(Transformed(Typing(k, s), Typing(k, t), true), Apply(Typing(k, t), doc))
    ensures Apply(Transformed(Typing(k, s), Typing(k, t), true), Apply(Typing(k, t), doc)) == doc[..k] + s + t + doc[k..]
  {
    hide BothFrom;
    TypingAt(k, s, 0);
    TypingAt(k, t, 0);
    LeftGoesFirst(Typing(k, s), Typing(k, t), doc, true);
    TypedFrom(k, s, t, doc, 0);
  }
}
