/** `transform_list` and `compose`, and that an operation's components are settled by its meaning. */
module OtOps {
  import opened OtUnits
  import opened OtLists
  import opened OtText

  // ---- Lists ----

  ghost function Meanings(ops: seq<TextOp>): (r: seq<Op>)
    reads ops
    ensures |r| == |ops|
    ensures forall i | 0 <= i < |ops| :: r[i] == ops[i].Meaning()
  {
    if ops == [] then [] else Meanings(ops[..|ops| - 1]) + [ops[|ops| - 1].Meaning()]
  }

  ghost predicate AllPacked(ops: seq<TextOp>)
    reads ops
  {
    forall i | 0 <= i < |ops| :: Packed(ops[i].comps)
  }

  lemma {:induction false} AllPackedAt(ops: seq<TextOp>, i: nat)
    requires AllPacked(ops) && i < |ops|
    ensures Packed(ops[i].comps)
  {
  }

  /** A row is the first step and then the rest of the row. */
  lemma {:induction false} RowStep(ops: seq<Op>, i: nat, other: Op, isLeft: bool)
    requires i < |ops|
    ensures RowOps(ops[i..], other, isLeft) ==
            [Transformed(ops[i], other, isLeft)] + RowOps(ops[i + 1..], Transformed(other, ops[i], !isLeft), isLeft)
    ensures RowOut(ops[i..], other, isLeft) == RowOut(ops[i + 1..], Transformed(other, ops[i], !isLeft), isLeft)
  {
    hide Transformed;
    assert ops[i..][1..] == ops[i + 1..];
  }

  /** Carries one other operation through the list, rewriting each in place. */
  method TransformRow(ops: array<TextOp>, other: TextOp, isLeft: bool)
    requires AllPacked(ops[..]) && Packed(other.comps)
    modifies ops
    ensures AllPacked(ops[..]) && Meanings(ops[..]) == RowOps(old(Meanings(ops[..])), other.Meaning(), isLeft)
  {
    hide Transformed, Packed, RowOps, RowOut, Units, UnitsOf, Meanings, Canonical;
    ghost var start := Meanings(ops[..]);
    ghost var row := RowOps(start, other.Meaning(), isLeft);
    var o2 := other;
    ghost var done: seq<Op> := [];
    assert start[0..] == start;
    assert [] + row == row;
    for i := 0 to ops.Length
      invariant Packed(o2.comps) && |done| == i && |start| == ops.Length
      invariant forall k | 0 <= k < ops.Length :: Packed(ops[k].comps) && ops[k].Meaning() == if k < i then done[k] else start[k]
      invariant done + RowOps(start[i..], o2.Meaning(), isLeft) == row
    {
      RowStep(start, i, o2.Meaning(), isLeft);
      var a, b := Transform2(ops[i], o2, isLeft);
      CanonicalPacked(a.comps);
      CanonicalPacked(b.comps);
      ops[i] := a;
      ghost var rest := RowOps(start[i + 1..], b.Meaning(), isLeft);
      assert done + ([a.Meaning()] + rest) == (done + [a.Meaning()]) + rest;
      done := done + [a.Meaning()];
      o2 := b;
    }
    NoMore(start, o2.Meaning(), isLeft);
    assert Meanings(ops[..]) == done;
  }

  lemma {:induction false} NoMore(start: seq<Op>, other: Op, isLeft: bool)
    ensures start[|start|..] == [] && RowOps([], other, isLeft) == []
  {
  }

  lemma {:induction false} CanonicalPacked(comps: seq<OpComponent>)
    requires Canonical(comps)
    ensures Packed(comps)
  {
  }

  /** Rewrites every operation of the list, in place, to apply after all of `otherOps`. */
  method TransformList(ops: array<TextOp>, otherOps: seq<TextOp>, isLeft: bool)
    requires AllPacked(ops[..]) && AllPacked(otherOps)
    modifies ops
    ensures AllPacked(ops[..]) && Meanings(ops[..]) == ListRewritten(old(Meanings(ops[..])), Meanings(otherOps), isLeft)
  {
    hide RowOps, ListRewritten, Packed, AllPacked, Meanings, Units;
    ghost var others := Meanings(otherOps);
    assert others[0..] == others;
    for j := 0 to |otherOps|
      invariant AllPacked(ops[..]) && Meanings(otherOps) == others && AllPacked(otherOps)
      invariant ListRewritten(Meanings(ops[..]), others[j..], isLeft) == ListRewritten(old(Meanings(ops[..])), others, isLeft)
    {
      ListStep(Meanings(ops[..]), others, j, isLeft);
      AllPackedAt(otherOps, j);
      TransformRow(ops, otherOps[j], isLeft);
    }
    assert others[|otherOps|..] == [];
    ListDone(Meanings(ops[..]), isLeft);
  }

  lemma {:induction false} ListStep(ops: seq<Op>, others: seq<Op>, j: nat, isLeft: bool)
    requires j < |others|
    ensures ListRewritten(ops, others[j..], isLeft) == ListRewritten(RowOps(ops, others[j], isLeft), others[j + 1..], isLeft)
  {
    hide RowOps;
    assert others[j..][1..] == others[j + 1..];
  }

  lemma {:induction false} ListDone(ops: seq<Op>, isLeft: bool)
    ensures ListRewritten(ops, [], isLeft) == ops
  {
  }

  // ---- Composing ----

  /** One step of a composition, case by case. */
  lemma {:induction false} ComposeHead(a: seq<Unit>, b: seq<Unit>)
    requires b != []
    ensures b[0].New? ==> OtUnits.Compose(a, b) == [b[0]] + OtUnits.Compose(a, b[1..])
    ensures !b[0].New? && a == [] ==> OtUnits.Compose(a, b) == [b[0]] + OtUnits.Compose(a, b[1..])
    ensures !b[0].New? && a != [] && a[0] == Drop ==> OtUnits.Compose(a, b) == [Drop] + OtUnits.Compose(a[1..], b)
    ensures b[0] == Keep && a != [] && a[0] != Drop ==> OtUnits.Compose(a, b) == [a[0]] + OtUnits.Compose(a[1..], b[1..])
    ensures b[0] == Drop && a != [] && a[0] == Keep ==> OtUnits.Compose(a, b) == [Drop] + OtUnits.Compose(a[1..], b[1..])
    ensures b[0] == Drop && a != [] && a[0].New? ==> OtUnits.Compose(a, b) == OtUnits.Compose(a[1..], b[1..])
  {
  }

  /** One chunk of the first operation under a run the second one keeps. */
  lemma {:induction false} ComposeKept(chunk: OpComponent, after: seq<Unit>, len: nat, rest: seq<Unit>)
    requires chunk.PostSize() <= len && (chunk.Del? ==> len > 0)
    ensures OtUnits.Compose(UnitsOf(chunk) + after, UnitsOf(Skip(len)) + rest) ==
            UnitsOf(chunk) + OtUnits.Compose(after, UnitsOf(Skip(len - chunk.PostSize())) + rest)
    decreases chunk.Count()
  {
    hide UnitsOf, OtUnits.Compose;
    var b := UnitsOf(Skip(len)) + rest;
    if chunk.Count() == 0 {
      UnitsNone(chunk, after);
      UnitsNone(chunk, OtUnits.Compose(after, b));
    } else {
      var chunk', len' := From(chunk, 1), if chunk.Del? then len else len - 1;
      UnitsHead(chunk, after);
      UnitsHead(Skip(len), rest);
      ComposeHead(UnitsOf(chunk) + after, b);
      ComposeKept(chunk', after, len', rest);
      Assoc([HeadUnit(chunk)], UnitsOf(chunk'), OtUnits.Compose(after, UnitsOf(Skip(len - chunk.PostSize())) + rest));
    }
  }

  /** What is left of a chunk under a run the second operation deletes. */
  function Deleted(chunk: OpComponent): OpComponent {
    if chunk.Ins? then Skip(0) else Del(chunk.Count())
  }

  lemma {:induction false} ComposeDropped(chunk: OpComponent, after: seq<Unit>, len: nat, rest: seq<Unit>)
    requires chunk.PostSize() <= len && (chunk.Del? ==> len > 0)
    ensures OtUnits.Compose(UnitsOf(chunk) + after, UnitsOf(Del(len)) + rest) ==
            UnitsOf(Deleted(chunk)) + OtUnits.Compose(after, UnitsOf(Del(len - chunk.PostSize())) + rest)
    decreases chunk.Count()
  {
    hide UnitsOf, OtUnits.Compose;
    var b := UnitsOf(Del(len)) + rest;
    if chunk.Count() == 0 {
      UnitsNone(chunk, after);
      UnitsNone(Deleted(chunk), OtUnits.Compose(after, b));
    } else {
      var chunk', len' := From(chunk, 1), if chunk.Del? then len else len - 1;
      UnitsHead(chunk, after);
      UnitsHead(Del(len), rest);
      ComposeHead(UnitsOf(chunk) + after, b);
      ComposeDropped(chunk', after, len', rest);
      var more := OtUnits.Compose(after, UnitsOf(Del(len - chunk.PostSize())) + rest);
      if chunk.Ins? {
        UnitsNone(Skip(0), more);
      } else {
        UnitsHead(Del(chunk.Count()), []);
        assert From(Del(chunk.Count()), 1) == Deleted(chunk');
        Assoc([Drop], UnitsOf(Deleted(chunk')), more);
      }
    }
  }

  /** Past its end the first operation keeps whatever the second one finds there. */
  lemma {:induction false} ComposePastEnd(c: OpComponent, rest: seq<Unit>)
    requires !c.Ins?
    ensures OtUnits.Compose([], UnitsOf(c) + rest) == UnitsOf(c) + OtUnits.Compose([], rest)
    decreases c.Count()
  {
    hide UnitsOf, OtUnits.Compose;
    if c.Count() == 0 {
      UnitsNone(c, rest);
      UnitsNone(c, OtUnits.Compose([], rest));
    } else {
      UnitsHead(c, rest);
      ComposeHead([], UnitsOf(c) + rest);
      ComposePastEnd(From(c, 1), rest);
      Assoc([HeadUnit(c)], UnitsOf(From(c, 1)), OtUnits.Compose([], rest));
    }
  }

  lemma {:induction false} ComposeInsert(a: seq<Unit>, s: string, rest: seq<Unit>)
    ensures OtUnits.Compose(a, UnitsOf(Ins(s)) + rest) == UnitsOf(Ins(s)) + OtUnits.Compose(a, rest)
    decreases |s|
  {
    hide UnitsOf, OtUnits.Compose;
    if s == "" {
      UnitsNone(Ins(s), rest);
      UnitsNone(Ins(s), OtUnits.Compose(a, rest));
    } else {
      UnitsHead(Ins(s), rest);
      assert From(Ins(s), 1) == Ins(s[1..]);
      ComposeHead(a, UnitsOf(Ins(s)) + rest);
      ComposeInsert(a, s[1..], rest);
      Assoc([HeadUnit(Ins(s))], UnitsOf(Ins(s[1..])), OtUnits.Compose(a, rest));
    }
  }

  /** Copies the first operation under a run the second one keeps. */
  method ComposeSkip(iter: TextOpIterator, result: TextOp, len0: nat, ghost rest: seq<Unit>, ghost total: seq<Unit>)
    requires iter.Valid() && iter.ctx == Post && Packed(result.comps)
    requires result.Meaning() + OtUnits.Compose(iter.Rest(), UnitsOf(Skip(len0)) + rest) == total
    modifies iter, result
    ensures iter.Valid() && Packed(result.comps)
    ensures result.Meaning() + OtUnits.Compose(iter.Rest(), rest) == total
  {
    hide Packed, Units, UnitsOf, OtUnits.Compose;
    var len: nat := len0;
    while len > 0
      invariant iter.Valid() && Packed(result.comps)
      invariant result.Meaning() + OtUnits.Compose(iter.Rest(), UnitsOf(Skip(len)) + rest) == total
      decreases len, |iter.op| - iter.idx
    {
      ghost var before, units := iter.Rest(), result.Meaning();
      var chunk := iter.Next(len);
      if before == [] { ComposePastEnd(Skip(len), rest); }
      ComposeKept(chunk, iter.Rest(), len, rest);
      UnitsNone(Skip(0), rest);
      len := len - chunk.PostSize();
      result.Append(chunk);
      Assoc(units, UnitsOf(chunk), OtUnits.Compose(iter.Rest(), UnitsOf(Skip(len)) + rest));
    }
    UnitsNone(Skip(0), rest);
  }

  /** Deletes what the first operation kept under the run, and cancels what it inserted there. */
  method ComposeDel(iter: TextOpIterator, result: TextOp, len0: nat, ghost rest: seq<Unit>, ghost total: seq<Unit>)
    requires iter.Valid() && iter.ctx == Post && Packed(result.comps)
    requires result.Meaning() + OtUnits.Compose(iter.Rest(), UnitsOf(Del(len0)) + rest) == total
    modifies iter, result
    ensures iter.Valid() && Packed(result.comps)
    ensures result.Meaning() + OtUnits.Compose(iter.Rest(), rest) == total
  {
    hide Packed, Units, UnitsOf, OtUnits.Compose;
    var len: nat := len0;
    while len > 0
      invariant iter.Valid() && Packed(result.comps)
      invariant result.Meaning() + OtUnits.Compose(iter.Rest(), UnitsOf(Del(len)) + rest) == total
      decreases len, |iter.op| - iter.idx
    {
      ghost var before, units := iter.Rest(), result.Meaning();
      var chunk := iter.Next(len);
      if before == [] { ComposePastEnd(Del(len), rest); }
      ComposeDropped(chunk, iter.Rest(), len, rest);
      UnitsNone(Del(0), rest);
      len := len - chunk.PostSize();
      ghost var more := OtUnits.Compose(iter.Rest(), UnitsOf(Del(len)) + rest);
      match chunk {
        case Ins(_) => UnitsNone(Skip(0), more);
        case Skip(n) => result.Append(Del(n));
        case Del(n) => result.Append(Del(n));
      }
      Assoc(units, UnitsOf(Deleted(chunk)), more);
    }
    UnitsNone(Del(0), rest);
  }

  /** One operation that does what `a` and then `b` do. */
  method Compose(a: TextOp, b: TextOp) returns (result: TextOp)
    ensures fresh(result) && Canonical(result.comps)
    ensures result.Meaning() == Trimmed(OtUnits.Compose(a.Meaning(), b.Meaning()))
  {
    hide OtUnits.Compose, Trimmed, UnitsOf;
    result := new TextOp();
    var iter := new TextOpIterator(a.comps, Post);
    ghost var total := OtUnits.Compose(a.Meaning(), b.Meaning());
    assert b.comps[0..] == b.comps;
    assert [] + total == total;
    for j := 0 to |b.comps|
      invariant fresh(result) && fresh(iter) && iter.Valid() && iter.ctx == Post && Packed(result.comps)
      invariant result.Meaning() + OtUnits.Compose(iter.Rest(), Units(b.comps[j..])) == total
    {
      ghost var rest := Units(b.comps[j + 1..]);
      assert b.comps[j..][1..] == b.comps[j + 1..];
      match b.comps[j] {
        case Skip(len) => ComposeSkip(iter, result, len, rest, total);
        case Del(len) => ComposeDel(iter, result, len, rest, total);
        case Ins(s) =>
          ComposeInsert(iter.Rest(), s, rest);
          Assoc(result.Meaning(), UnitsOf(Ins(s)), OtUnits.Compose(iter.Rest(), rest));
          result.Append(Ins(s));
      }
    }
    ComposeNothing(iter.Rest());
    result.AppendRemainder(iter);
    result.Trim();
  }

  lemma {:induction false} ComposeNothing(a: seq<Unit>)
    ensures OtUnits.Compose(a, []) == a
  {
  }

  /** The composed operation fits wherever the two in turn do, and makes the same document. */
  lemma {:induction false} ComposedMeans(a: Op, b: Op, doc: string)
    requires Fits(a, doc) && Fits(b, Apply(a, doc))
    ensures Fits(Trimmed(OtUnits.Compose(a, b)), doc)
    ensures Apply(Trimmed(OtUnits.Compose(a, b)), doc) == Apply(b, Apply(a, doc))
  {
    ComposeMeans(a, b, doc);
    TrimmedMeans(OtUnits.Compose(a, b), doc);
  }

  // ---- Canonical components ----

  ghost predicate UnitOfKind(u: Unit, c: OpComponent) {
    (u == Keep && c.Skip?) || (u == Drop && c.Del?) || (u.New? && c.Ins?)
  }

  /** Where the first component ends shows in the units: the next one is of another kind. */
  lemma {:induction false} FirstRun(comps: seq<OpComponent>)
    requires Packed(comps) && comps != []
    ensures |Units(comps)| >= comps[0].Count() > 0 && Units(comps)[..comps[0].Count()] == UnitsOf(comps[0])
    ensures Units(comps)[comps[0].Count()..] == Units(comps[1..])
    ensures forall i | 0 <= i < comps[0].Count() :: UnitOfKind(Units(comps)[i], comps[0])
    ensures |Units(comps)| > comps[0].Count() ==> !UnitOfKind(Units(comps)[comps[0].Count()], comps[0])
    ensures Packed(comps[1..])
  {
    if |comps| > 1 {
      UnitsHead(comps[1], Units(comps[2..]));
      assert comps[1..][1..] == comps[2..];
    }
  }

  lemma {:induction false} SameUnits(c: OpComponent, d: OpComponent)
    requires UnitsOf(c) == UnitsOf(d) && c.SameKind(d)
    ensures c == d
  {
    if c.Ins? {
      forall i | 0 <= i < |c.s|
        ensures c.s[i] == d.s[i]
      {
        assert UnitsOf(c)[i] == UnitsOf(d)[i];
      }
    }
  }

  /** A packed operation is determined by what it means. */
  lemma {:induction false} PackedUnique(a: seq<OpComponent>, b: seq<OpComponent>)
    requires Packed(a) && Packed(b) && Units(a) == Units(b)
    ensures a == b
    decreases |a|
  {
    hide UnitsOf, Units, Packed;
    NoUnits(a);
    NoUnits(b);
    if a != [] {
      FirstRun(a);
      FirstRun(b);
      var m, n := a[0].Count(), b[0].Count();
      assert UnitOfKind(Units(a)[0], a[0]) && UnitOfKind(Units(b)[0], b[0]);
      SameUnits(a[0], b[0]);
      PackedUnique(a[1..], b[1..]);
      assert a == [a[0]] + a[1..] && b == [b[0]] + b[1..];
    }
  }

  lemma {:induction false} NoUnits(comps: seq<OpComponent>)
    requires Packed(comps)
    ensures comps == [] <==> Units(comps) == []
  {
    if comps != [] { FirstRun(comps); }
  }
}
