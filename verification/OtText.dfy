/** The text operations of ot_text.rs: run-length components, built up in place, and the loops
    that rewrite, compose and apply them. Each is proved against its meaning unit by unit. */
module OtText {
  import opened OtUnits
  import opened OtLists

  datatype OpComponent = Skip(n: nat) | Del(n: nat) | Ins(s: string) {
    function Count(): nat {
      match this
      case Skip(n) => n
      case Del(n) => n
      case Ins(s) => |s|
    }

    predicate IsNoop() {
      Count() == 0
    }

    function Slice(offset: nat, len: nat): OpComponent
      requires offset + len <= Count()
    {
      match this
      case Skip(_) => Skip(len)
      case Del(_) => Del(len)
      case Ins(s) => Ins(s[offset..offset + len])
    }

    function PreSize(): nat {
      if Ins? then 0 else Count()
    }

    function PostSize(): nat {
      if Del? then 0 else Count()
    }

    function CtxLen(ctx: Context): nat {
      if ctx == Pre then PreSize() else PostSize()
    }

    predicate SameKind(other: OpComponent) {
      (Skip? && other.Skip?) || (Del? && other.Del?) || (Ins? && other.Ins?)
    }
  }

  /** Which document lengths are measured in: the one before the operation or the one after. */
  datatype Context = Pre | Post

  // ---- What components mean ----

  ghost function UnitsOf(c: OpComponent): (r: seq<Unit>)
    ensures |r| == c.Count()
  {
    match c
    case Skip(n) => seq(n, i => Keep)
    case Del(n) => seq(n, i => Drop)
    case Ins(s) => seq(|s|, i requires 0 <= i < |s| => New(s[i]))
  }

  ghost function Units(comps: seq<OpComponent>): seq<Unit> {
    if comps == [] then [] else UnitsOf(comps[0]) + Units(comps[1..])
  }

  /** As `append` builds them: nothing empty, and no two neighbours of one kind. */
  ghost predicate Packed(comps: seq<OpComponent>) {
    && (forall i | 0 <= i < |comps| :: !comps[i].IsNoop())
    && (forall i | 0 < i < |comps| :: !comps[i].SameKind(comps[i - 1]))
  }

  /** Packed, and without a useless trailing skip. */
  ghost predicate Canonical(comps: seq<OpComponent>) {
    Packed(comps) && (comps != [] ==> !comps[|comps| - 1].Skip?)
  }

  lemma {:induction false} PackedNext(comps: seq<OpComponent>, i: nat)
    requires Packed(comps) && i < |comps|
    ensures !comps[i].IsNoop()
    ensures i + 1 < |comps| && comps[i].Ins? ==> !comps[i + 1].Ins?
  {
  }

  lemma {:induction false} UnitsConcat(a: seq<OpComponent>, b: seq<OpComponent>)
    ensures Units(a + b) == Units(a) + Units(b)
  {
    if a == [] {
      assert a + b == b;
    } else {
      assert (a + b)[1..] == a[1..] + b;
      UnitsConcat(a[1..], b);
    }
  }

  lemma {:induction false} UnitsLast(comps: seq<OpComponent>, c: OpComponent)
    ensures Units(comps + [c]) == Units(comps) + UnitsOf(c)
  {
    UnitsConcat(comps, [c]);
    assert Units([c]) == UnitsOf(c) + Units([]);
  }

  ghost function HeadUnit(c: OpComponent): Unit
    requires !c.IsNoop()
  {
    match c
    case Skip(_) => Keep
    case Del(_) => Drop
    case Ins(s) => New(s[0])
  }

  /** What is left of a component after its first `k` units. */
  function From(c: OpComponent, k: nat): OpComponent
    requires k <= c.Count()
  {
    c.Slice(k, c.Count() - k)
  }

  lemma {:induction false} UnitsHead(c: OpComponent, rest: seq<Unit>)
    requires !c.IsNoop()
    ensures UnitsOf(c) == [HeadUnit(c)] + UnitsOf(From(c, 1))
    ensures UnitsOf(c) + rest != [] && (UnitsOf(c) + rest)[0] == HeadUnit(c)
    ensures (UnitsOf(c) + rest)[1..] == UnitsOf(From(c, 1)) + rest
    ensures c.SameKind(From(c, 1)) && From(c, 1).Count() == c.Count() - 1
  {
    assert UnitsOf(c) == [HeadUnit(c)] + UnitsOf(From(c, 1));
  }

  lemma {:induction false} UnitsNone(c: OpComponent, rest: seq<Unit>)
    requires c.IsNoop()
    ensures UnitsOf(c) == [] && UnitsOf(c) + rest == rest
  {
  }

  lemma {:induction false} UnitsSplit(c: OpComponent, from: nat, len: nat)
    requires from + len <= c.Count()
    ensures UnitsOf(From(c, from)) == UnitsOf(c.Slice(from, len)) + UnitsOf(From(c, from + len))
    ensures c.SameKind(c.Slice(from, len)) && c.Slice(from, len).Count() == len && From(c, 0) == c
  {
  }

  function Joined(c: OpComponent, d: OpComponent): OpComponent
    requires c.SameKind(d)
  {
    match c
    case Skip(n) => Skip(n + d.n)
    case Del(n) => Del(n + d.n)
    case Ins(s) => Ins(s + d.s)
  }

  lemma {:induction false} UnitsJoined(c: OpComponent, d: OpComponent)
    requires c.SameKind(d)
    ensures UnitsOf(Joined(c, d)) == UnitsOf(c) + UnitsOf(d)
    ensures Joined(c, d).SameKind(c) && Joined(c, d).Count() == c.Count() + d.Count()
  {
  }

  lemma {:induction false} Assoc(a: seq<Unit>, b: seq<Unit>, c: seq<Unit>)
    ensures (a + b) + c == a + (b + c)
  {
  }

  // ---- Operations ----

  class TextOp {
    var comps: seq<OpComponent>

    constructor ()
      ensures comps == [] && Meaning() == []
    {
      comps := [];
    }

    ghost function Meaning(): Op
      reads this
    {
      Units(comps)
    }

    /** Adds a component at the end, joining it to the last one when they are of one kind. */
    method Append(c: OpComponent)
      modifies this
      ensures Meaning() == old(Meaning()) + UnitsOf(c)
      ensures old(Packed(comps)) ==> Packed(comps)
    {
      hide Units, UnitsOf;
      if c.IsNoop() {
        UnitsNone(c, []);
        return;
      }
      ghost var before := comps;
      if comps != [] && comps[|comps| - 1].SameKind(c) {
        var k := |comps| - 1;
        ghost var joined := Joined(comps[k], c);
        comps := comps[k := match comps[k]
          case Skip(n) => Skip(n + c.n)
          case Del(n) => Del(n + c.n)
          case Ins(s) => Ins(s + c.s)];
        assert before == before[..k] + [before[k]] && comps == before[..k] + [joined];
        UnitsLast(before[..k], before[k]);
        UnitsLast(before[..k], joined);
        UnitsJoined(before[k], c);
        Assoc(Units(before[..k]), UnitsOf(before[k]), UnitsOf(c));
      } else {
        UnitsLast(comps, c);
        comps := comps + [c];
      }
    }

    /** Drops the trailing skips, and nothing else. */
    method Trim()
      modifies this
      ensures comps <= old(comps) && (forall i | |comps| <= i < |old(comps)| :: old(comps)[i].Skip?)
      ensures comps != [] ==> !comps[|comps| - 1].Skip?
      ensures Packed(old(comps)) ==> Canonical(comps) && Meaning() == Trimmed(old(Meaning()))
    {
      hide Units, UnitsOf, Trimmed;
      while comps != [] && comps[|comps| - 1].Skip?
        invariant comps <= old(comps) && forall i | |comps| <= i < |old(comps)| :: old(comps)[i].Skip?
        invariant Packed(old(comps)) ==> Packed(comps)
        invariant Trimmed(Meaning()) == Trimmed(old(Meaning()))
        decreases |comps|
      {
        var k := |comps| - 1;
        assert comps == comps[..k] + [comps[k]];
        UnitsLast(comps[..k], comps[k]);
        TrimKeeps(Units(comps[..k]), comps[k].n);
        comps := comps[..k];
      }
      if Packed(comps) { NoTrailingKeep(comps); }
    }

    /** Adds everything the iterator has not yielded yet. */
    method AppendRemainder(iter: TextOpIterator)
      requires iter.Valid() && Packed(comps)
      modifies this, iter
      ensures Packed(comps) && Meaning() == old(Meaning()) + old(iter.Rest())
    {
      hide Packed, Units, UnitsOf;
      while iter.idx < |iter.op|
        invariant iter.Valid() && Packed(comps)
        invariant Meaning() + iter.Rest() == old(Meaning()) + old(iter.Rest())
        decreases |iter.op| - iter.idx
      {
        ghost var before := Meaning();
        var chunk := iter.Next(iter.op[iter.idx].Count());
        Append(chunk);
        Assoc(before, UnitsOf(chunk), iter.Rest());
      }
    }
  }

  lemma {:induction false} NoTrailingKeep(comps: seq<OpComponent>)
    requires Packed(comps) && (comps != [] ==> !comps[|comps| - 1].Skip?)
    ensures Trimmed(Units(comps)) == Units(comps)
  {
    hide UnitsOf;
    if comps != [] {
      var k := |comps| - 1;
      var c := comps[k];
      assert comps == comps[..k] + [c];
      UnitsLast(comps[..k], c);
      LastUnit(c);
    }
  }

  lemma {:induction false} LastUnit(c: OpComponent)
    requires !c.IsNoop() && !c.Skip?
    ensures UnitsOf(c) != [] && UnitsOf(c)[|UnitsOf(c)| - 1] != Keep
  {
  }

  lemma {:induction false} TrimKeeps(units: seq<Unit>, n: nat)
    ensures Trimmed(units + UnitsOf(Skip(n))) == Trimmed(units)
  {
    var all := units + UnitsOf(Skip(n));
    if n == 0 {
      assert all == units;
    } else {
      assert all[|all| - 1] == Keep;
      assert all[..|all| - 1] == units + UnitsOf(Skip(n - 1));
      TrimKeeps(units, n - 1);
    }
  }

  /** What is left of an operation from a place inside component `idx`. */
  ghost function RestAt(op: seq<OpComponent>, idx: nat, offset: nat): seq<Unit>
    requires idx <= |op| && (idx < |op| ==> offset <= op[idx].Count())
  {
    if idx == |op| then [] else UnitsOf(From(op[idx], offset)) + Units(op[idx + 1..])
  }

  lemma {:induction false} TakeWhole(op: seq<OpComponent>, idx: nat, offset: nat)
    requires idx < |op| && offset <= op[idx].Count()
    ensures RestAt(op, idx, offset) == UnitsOf(From(op[idx], offset)) + RestAt(op, idx + 1, 0)
    ensures op[idx].SameKind(From(op[idx], offset)) && From(op[idx], offset).Count() == op[idx].Count() - offset
    ensures From(op[idx], 0) == op[idx]
  {
    hide UnitsOf;
    if idx + 1 < |op| {
      assert op[idx + 1..][1..] == op[idx + 2..];
      UnitsSplit(op[idx + 1], 0, 0);
    }
    UnitsSplit(op[idx], offset, op[idx].Count() - offset);
  }

  lemma {:induction false} NoRest(op: seq<OpComponent>)
    ensures RestAt(op, |op|, 0) == []
  {
  }

  lemma {:induction false} SliceIsFrom(c: OpComponent, offset: nat)
    requires offset <= c.Count()
    ensures From(c, offset) == c.Slice(offset, c.Count() - offset)
  {
  }

  lemma {:induction false} TakePart(op: seq<OpComponent>, idx: nat, offset: nat, len: nat)
    requires idx < |op| && offset + len <= op[idx].Count()
    ensures RestAt(op, idx, offset) == UnitsOf(op[idx].Slice(offset, len)) + RestAt(op, idx, offset + len)
    ensures op[idx].SameKind(op[idx].Slice(offset, len)) && op[idx].Slice(offset, len).Count() == len
  {
    hide UnitsOf;
    UnitsSplit(op[idx], offset, len);
    Assoc(UnitsOf(op[idx].Slice(offset, len)), UnitsOf(From(op[idx], offset + len)), Units(op[idx + 1..]));
  }

  /** Yields an operation piece by piece, in portions no larger than asked for. */
  class TextOpIterator {
    const op: seq<OpComponent>
    const ctx: Context
    var idx: nat
    var offset: nat

    constructor (op: seq<OpComponent>, ctx: Context)
      ensures this.op == op && this.ctx == ctx && idx == 0 && offset == 0
      ensures Valid() && Rest() == Units(op)
    {
      this.op, this.ctx, idx, offset := op, ctx, 0, 0;
      new;
      assert op[0..] == op;
      if op != [] { UnitsSplit(op[0], 0, 0); }
    }

    ghost predicate Valid()
      reads this
    {
      && idx <= |op|
      && (offset > 0 ==> idx < |op| && offset < op[idx].CtxLen(ctx))
    }

    /** What is still to come, before the skip that never ends. */
    ghost function Rest(): seq<Unit>
      requires Valid()
      reads this
    {
      RestAt(op, idx, offset)
    }

    method Next(maxSize: nat) returns (chunk: OpComponent)
      requires Valid()
      modifies this
      ensures Valid() && idx >= old(idx)
      ensures old(idx) == |op| ==> chunk == Skip(maxSize) && idx == old(idx) && old(Rest()) == Rest() == []
      ensures old(idx) < |op| ==> old(Rest()) == UnitsOf(chunk) + Rest() && chunk.SameKind(op[old(idx)]) && chunk.CtxLen(ctx) <= maxSize
      ensures idx == old(idx) ==> chunk.CtxLen(ctx) == maxSize
      ensures old(idx) < |op| && op[old(idx)].CtxLen(ctx) == 0 ==> idx == old(idx) + 1
      ensures old(idx) < |op| && op[old(idx)].CtxLen(ctx) > 0 && maxSize == 0 ==> idx == old(idx)
    {
      hide UnitsOf, RestAt, From;
      if idx == |op| {
        NoRest(op);
        return Skip(maxSize);
      }
      var c := op[idx];
      var clen := c.CtxLen(ctx);
      if clen == 0 {
        TakeWhole(op, idx, offset);
        idx := idx + 1;
        chunk := c;
      } else if clen - offset <= maxSize {
        TakeWhole(op, idx, offset);
        chunk := c.Slice(offset, clen - offset);
        SliceIsFrom(c, offset);
        idx, offset := idx + 1, 0;
      } else {
        TakePart(op, idx, offset, maxSize);
        chunk := c.Slice(offset, maxSize);
        offset := offset + maxSize;
      }
    }

    /** What comes next is of the kind of the current component. */
    lemma {:induction false} HeadKind()
      requires Valid() && Packed(op)
      ensures Rest() == [] <==> idx == |op|
      ensures idx < |op| ==> Rest()[0].New? == op[idx].Ins?
    {
      hide UnitsOf;
      if idx < |op| {
        UnitsHead(From(op[idx], offset), Units(op[idx + 1..]));
      }
    }
  }

  // ---- Applying ----

  lemma {:induction false} ApplyHead(units: seq<Unit>, doc: string)
    requires Fits(units, doc)
    ensures units == [] ==> Apply(units, doc) == doc
    ensures units != [] && units[0].New? ==> Fits(units[1..], doc) && Apply(units, doc) == [units[0].ch] + Apply(units[1..], doc)
    ensures units != [] && !units[0].New? ==>
              && doc != [] && Fits(units[1..], doc[1..])
              && Apply(units, doc) == (if units[0] == Keep then [doc[0]] else []) + Apply(units[1..], doc[1..])
  {
  }

  /** What a component puts into the new document. */
  ghost function Shown(c: OpComponent, doc: string): string
    requires c.PreSize() <= |doc|
  {
    match c
    case Skip(n) => doc[..n]
    case Del(_) => []
    case Ins(s) => s
  }

  lemma {:induction false} ApplyPiece(c: OpComponent, rest: seq<Unit>, doc: string)
    requires Fits(UnitsOf(c) + rest, doc)
    ensures c.PreSize() <= |doc| && Fits(rest, doc[c.PreSize()..])
    ensures Apply(UnitsOf(c) + rest, doc) == Shown(c, doc) + Apply(rest, doc[c.PreSize()..])
    decreases c.Count()
  {
    hide UnitsOf, Apply, Fits;
    if c.Count() == 0 {
      UnitsNone(c, rest);
      assert doc[0..] == doc;
    } else {
      var c' := From(c, 1);
      UnitsHead(c, rest);
      ApplyHead(UnitsOf(c) + rest, doc);
      var doc' := if c.Ins? then doc else doc[1..];
      ApplyPiece(c', rest, doc');
      assert doc'[c'.PreSize()..] == doc[c.PreSize()..];
      assert Shown(c, doc) == (if c.Ins? then [c.s[0]] else if c.Skip? then [doc[0]] else []) + Shown(c', doc');
    }
  }

  /** One component's edit at `pos`: the text up to the new position is done, the rest untouched. */
  lemma {:induction false} EditAt(c: OpComponent, doc: string, pos: nat, doc': string, pos': nat)
    requires pos <= |doc| && c.PreSize() <= |doc| - pos
    requires match c
             case Skip(n) => doc' == doc && pos' == pos + n
             case Del(n) => doc' == doc[..pos] + doc[pos + n..] && pos' == pos
             case Ins(s) => doc' == doc[..pos] + s + doc[pos..] && pos' == pos + |s|
    ensures pos' <= |doc'| && doc'[..pos'] == doc[..pos] + Shown(c, doc[pos..]) && doc'[pos'..] == doc[pos..][c.PreSize()..]
  {
  }

  /** Edits the document component by component, at a moving position. */
  method ApplyTo(op: TextOp, doc0: string) returns (doc: string)
    requires Fits(op.Meaning(), doc0)
    ensures doc == Apply(op.Meaning(), doc0)
  {
    hide UnitsOf, Apply, Fits, Shown;
    var pos: nat := 0;
    doc := doc0;
    assert op.comps[0..] == op.comps && doc[0..] == doc;
    for j := 0 to |op.comps|
      invariant pos <= |doc| && Fits(Units(op.comps[j..]), doc[pos..])
      invariant Apply(op.Meaning(), doc0) == doc[..pos] + Apply(Units(op.comps[j..]), doc[pos..])
    {
      var c := op.comps[j];
      ghost var before, at := doc, pos;
      assert op.comps[j..][1..] == op.comps[j + 1..];
      ApplyPiece(c, Units(op.comps[j + 1..]), doc[pos..]);
      match c {
        case Skip(n) => pos := pos + n;
        case Del(n) => doc := doc[..pos] + doc[pos + n..];
        case Ins(s) => doc := doc[..pos] + s + doc[pos..]; pos := pos + |s|;
      }
      EditAt(c, before, at, doc, pos);
      assert before[..at] + (Shown(c, before[at..]) + Apply(Units(op.comps[j + 1..]), doc[pos..])) ==
             doc[..pos] + Apply(Units(op.comps[j + 1..]), doc[pos..]);
    }
    ApplyHead([], doc[pos..]);
    assert doc[..pos] + doc[pos..] == doc;
  }

  // ---- Rewriting ----

  /** One step of a rewrite, case by case. */
  lemma {:induction false} RewriteHead(a: seq<Unit>, b: seq<Unit>, isLeft: bool)
    requires b != []
    ensures a != [] && a[0].New? && (isLeft || !b[0].New?) ==> Rewrite(a, b, isLeft) == [a[0]] + Rewrite(a[1..], b, isLeft)
    ensures b[0].New? && (!isLeft || a == [] || !a[0].New?) ==> Rewrite(a, b, isLeft) == [Keep] + Rewrite(a, b[1..], isLeft)
    ensures b[0] == Keep && a == [] ==> Rewrite(a, b, isLeft) == [Keep] + Rewrite(a, b[1..], isLeft)
    ensures b[0] == Drop && a == [] ==> Rewrite(a, b, isLeft) == Rewrite(a, b[1..], isLeft)
    ensures b[0] == Keep && a != [] && !a[0].New? ==> Rewrite(a, b, isLeft) == [a[0]] + Rewrite(a[1..], b[1..], isLeft)
    ensures b[0] == Drop && a != [] && !a[0].New? ==> Rewrite(a, b, isLeft) == Rewrite(a[1..], b[1..], isLeft)
  {
  }

  /** One chunk against a run the other operation keeps. */
  lemma {:induction false} KeptChunk(chunk: OpComponent, after: seq<Unit>, len: nat, rest: seq<Unit>, isLeft: bool)
    requires chunk.PreSize() <= len && (chunk.Ins? ==> len > 0)
    ensures Rewrite(UnitsOf(chunk) + after, UnitsOf(Skip(len)) + rest, isLeft) ==
            UnitsOf(chunk) + Rewrite(after, UnitsOf(Skip(len - chunk.PreSize())) + rest, isLeft)
    decreases chunk.Count()
  {
    hide UnitsOf, Rewrite;
    var b := UnitsOf(Skip(len)) + rest;
    if chunk.Count() == 0 {
      UnitsNone(chunk, after);
      UnitsNone(chunk, Rewrite(after, b, isLeft));
    } else {
      var chunk', len' := From(chunk, 1), if chunk.Ins? then len else len - 1;
      UnitsHead(chunk, after);
      UnitsHead(Skip(len), rest);
      RewriteHead(UnitsOf(chunk) + after, b, isLeft);
      KeptChunk(chunk', after, len', rest, isLeft);
      Assoc([HeadUnit(chunk)], UnitsOf(chunk'), Rewrite(after, UnitsOf(Skip(len - chunk.PreSize())) + rest, isLeft));
    }
  }

  /** One chunk against a run the other operation deletes: only inserts survive. */
  lemma {:induction false} DroppedChunk(chunk: OpComponent, after: seq<Unit>, len: nat, rest: seq<Unit>, isLeft: bool)
    requires chunk.PreSize() <= len && (chunk.Ins? ==> len > 0)
    ensures Rewrite(UnitsOf(chunk) + after, UnitsOf(Del(len)) + rest, isLeft) ==
            (if chunk.Ins? then UnitsOf(chunk) else []) + Rewrite(after, UnitsOf(Del(len - chunk.PreSize())) + rest, isLeft)
    decreases chunk.Count()
  {
    hide UnitsOf, Rewrite;
    var b := UnitsOf(Del(len)) + rest;
    if chunk.Count() == 0 {
      UnitsNone(chunk, after);
      UnitsNone(chunk, Rewrite(after, b, isLeft));
      assert [] + Rewrite(after, b, isLeft) == Rewrite(after, b, isLeft);
    } else {
      var chunk', len' := From(chunk, 1), if chunk.Ins? then len else len - 1;
      UnitsHead(chunk, after);
      UnitsHead(Del(len), rest);
      RewriteHead(UnitsOf(chunk) + after, b, isLeft);
      DroppedChunk(chunk', after, len', rest, isLeft);
      if chunk.Ins? {
        Assoc([HeadUnit(chunk)], UnitsOf(chunk'), Rewrite(after, b, isLeft));
      }
    }
  }

  /** Past its end an operation keeps whatever is there. */
  lemma {:induction false} PastEnd(len: nat, rest: seq<Unit>, isLeft: bool)
    ensures Rewrite([], UnitsOf(Skip(len)) + rest, isLeft) == UnitsOf(Skip(len)) + Rewrite([], rest, isLeft)
    ensures Rewrite([], UnitsOf(Del(len)) + rest, isLeft) == Rewrite([], rest, isLeft)
    decreases len
  {
    hide UnitsOf, Rewrite;
    if len == 0 {
      UnitsNone(Skip(0), rest);
      UnitsNone(Skip(0), Rewrite([], rest, isLeft));
      UnitsNone(Del(0), rest);
    } else {
      UnitsHead(Skip(len), rest);
      UnitsHead(Del(len), rest);
      RewriteHead([], UnitsOf(Skip(len)) + rest, isLeft);
      RewriteHead([], UnitsOf(Del(len)) + rest, isLeft);
      PastEnd(len - 1, rest, isLeft);
      Assoc([Keep], UnitsOf(Skip(len - 1)), Rewrite([], rest, isLeft));
    }
  }

  /** Text the other operation inserted is skipped, unless inserts of the left one come first. */
  lemma {:induction false} InsertedText(a: seq<Unit>, s: string, rest: seq<Unit>, isLeft: bool)
    requires !isLeft || a == [] || !a[0].New?
    ensures Rewrite(a, UnitsOf(Ins(s)) + rest, isLeft) == UnitsOf(Skip(|s|)) + Rewrite(a, rest, isLeft)
    decreases |s|
  {
    hide UnitsOf, Rewrite;
    if s == "" {
      UnitsNone(Ins(s), rest);
      UnitsNone(Skip(0), Rewrite(a, rest, isLeft));
    } else {
      UnitsHead(Ins(s), rest);
      UnitsHead(Skip(|s|), rest);
      assert From(Ins(s), 1) == Ins(s[1..]) && From(Skip(|s|), 1) == Skip(|s| - 1);
      RewriteHead(a, UnitsOf(Ins(s)) + rest, isLeft);
      InsertedText(a, s[1..], rest, isLeft);
      Assoc([Keep], UnitsOf(Skip(|s| - 1)), Rewrite(a, rest, isLeft));
    }
  }

  /** The left operation's inserts go before text inserted in the same place. */
  lemma {:induction false} LeftFirst(s: string, after: seq<Unit>, b: seq<Unit>)
    requires b != [] && b[0].New?
    ensures Rewrite(UnitsOf(Ins(s)) + after, b, true) == UnitsOf(Ins(s)) + Rewrite(after, b, true)
    decreases |s|
  {
    hide UnitsOf, Rewrite;
    if s == "" {
      UnitsNone(Ins(s), after);
      UnitsNone(Ins(s), Rewrite(after, b, true));
    } else {
      UnitsHead(Ins(s), after);
      assert From(Ins(s), 1) == Ins(s[1..]);
      RewriteHead(UnitsOf(Ins(s)) + after, b, true);
      LeftFirst(s[1..], after, b);
      Assoc([HeadUnit(Ins(s))], UnitsOf(Ins(s[1..])), Rewrite(after, b, true));
    }
  }

  /** Copies the operation over a run the other one keeps. */
  method RewriteOverSkip(iter: TextOpIterator, result: TextOp, len0: nat, ghost rest: seq<Unit>, ghost isLeft: bool, ghost total: seq<Unit>)
    requires iter.Valid() && iter.ctx == Pre && Packed(result.comps)
    requires result.Meaning() + Rewrite(iter.Rest(), UnitsOf(Skip(len0)) + rest, isLeft) == total
    modifies iter, result
    ensures iter.Valid() && Packed(result.comps)
    ensures result.Meaning() + Rewrite(iter.Rest(), rest, isLeft) == total
  {
    hide Packed, Units, UnitsOf, Rewrite;
    var len: nat := len0;
    while len > 0
      invariant iter.Valid() && Packed(result.comps)
      invariant result.Meaning() + Rewrite(iter.Rest(), UnitsOf(Skip(len)) + rest, isLeft) == total
      decreases len, |iter.op| - iter.idx
    {
      ghost var before, units := iter.Rest(), result.Meaning();
      var chunk := iter.Next(len);
      if before == [] { PastEnd(len, rest, isLeft); }
      KeptChunk(chunk, iter.Rest(), len, rest, isLeft);
      UnitsNone(Skip(0), rest);
      len := len - chunk.PreSize();
      result.Append(chunk);
      Assoc(units, UnitsOf(chunk), Rewrite(iter.Rest(), UnitsOf(Skip(len)) + rest, isLeft));
    }
    UnitsNone(Skip(0), rest);
  }

  /** Drops the operation over a run the other one deletes, except for its inserts. */
  method RewriteOverDel(iter: TextOpIterator, result: TextOp, len0: nat, ghost rest: seq<Unit>, ghost isLeft: bool, ghost total: seq<Unit>)
    requires iter.Valid() && iter.ctx == Pre && Packed(result.comps)
    requires result.Meaning() + Rewrite(iter.Rest(), UnitsOf(Del(len0)) + rest, isLeft) == total
    modifies iter, result
    ensures iter.Valid() && Packed(result.comps)
    ensures result.Meaning() + Rewrite(iter.Rest(), rest, isLeft) == total
  {
    hide Packed, Units, UnitsOf, Rewrite;
    var len: nat := len0;
    while len > 0
      invariant iter.Valid() && Packed(result.comps)
      invariant result.Meaning() + Rewrite(iter.Rest(), UnitsOf(Del(len)) + rest, isLeft) == total
      decreases len, |iter.op| - iter.idx
    {
      ghost var before, units := iter.Rest(), result.Meaning();
      var chunk := iter.Next(len);
      if before == [] { PastEnd(len, rest, isLeft); }
      DroppedChunk(chunk, iter.Rest(), len, rest, isLeft);
      UnitsNone(Del(0), rest);
      len := len - chunk.PreSize();
      if chunk.Ins? {
        result.Append(chunk);
        Assoc(units, UnitsOf(chunk), Rewrite(iter.Rest(), UnitsOf(Del(len)) + rest, isLeft));
      } else {
        assert [] + Rewrite(iter.Rest(), UnitsOf(Del(len)) + rest, isLeft) == Rewrite(iter.Rest(), UnitsOf(Del(len)) + rest, isLeft);
      }
    }
    UnitsNone(Del(0), rest);
  }

  /** Writes a skip over text the other operation inserted, after the left one's own insert. */
  method RewriteOverIns(iter: TextOpIterator, result: TextOp, s: string, ghost rest: seq<Unit>, isLeft: bool, ghost total: seq<Unit>)
    requires iter.Valid() && iter.ctx == Pre && Packed(iter.op) && Packed(result.comps) && s != ""
    requires result.Meaning() + Rewrite(iter.Rest(), UnitsOf(Ins(s)) + rest, isLeft) == total
    modifies iter, result
    ensures iter.Valid() && Packed(result.comps)
    ensures result.Meaning() + Rewrite(iter.Rest(), rest, isLeft) == total
  {
    hide Packed, Units, UnitsOf, Rewrite;
    UnitsHead(Ins(s), rest);
    ghost var units, b := result.Meaning(), UnitsOf(Ins(s)) + rest;
    if isLeft {
      ghost var before, at := iter.Rest(), iter.idx;
      iter.HeadKind();
      var chunk := iter.Next(0);
      iter.HeadKind();
      if at < |iter.op| { PackedNext(iter.op, at); }
      if chunk.Ins? {
        LeftFirst(chunk.s, iter.Rest(), b);
      } else {
        UnitsNone(chunk, iter.Rest());
        UnitsNone(chunk, Rewrite(iter.Rest(), b, isLeft));
      }
      assert Rewrite(before, b, isLeft) == UnitsOf(chunk) + Rewrite(iter.Rest(), b, isLeft);
      result.Append(chunk);
      Assoc(units, UnitsOf(chunk), Rewrite(iter.Rest(), b, isLeft));
    }
    units := result.Meaning();
    InsertedText(iter.Rest(), s, rest, isLeft);
    result.Append(Skip(|s|));
    Assoc(units, UnitsOf(Skip(|s|)), Rewrite(iter.Rest(), rest, isLeft));
  }

  method Transform1(op: TextOp, other: TextOp, isLeft: bool) returns (result: TextOp)
    requires Packed(op.comps) && Packed(other.comps)
    ensures fresh(result) && Canonical(result.comps)
    ensures result.Meaning() == Transformed(op.Meaning(), other.Meaning(), isLeft)
  {
    hide Rewrite, Trimmed, UnitsOf;
    result := new TextOp();
    var iter := new TextOpIterator(op.comps, Pre);
    ghost var total := Rewrite(op.Meaning(), other.Meaning(), isLeft);
    assert other.comps[0..] == other.comps;
    assert [] + total == total;
    for j := 0 to |other.comps|
      invariant fresh(result) && fresh(iter) && iter.Valid() && iter.ctx == Pre && iter.op == op.comps && Packed(result.comps)
      invariant result.Meaning() + Rewrite(iter.Rest(), Units(other.comps[j..]), isLeft) == total
    {
      ghost var rest := Units(other.comps[j + 1..]);
      assert other.comps[j..][1..] == other.comps[j + 1..];
      match other.comps[j]
      case Skip(len) => RewriteOverSkip(iter, result, len, rest, isLeft, total);
      case Del(len) => RewriteOverDel(iter, result, len, rest, isLeft, total);
      case Ins(s) => RewriteOverIns(iter, result, s, rest, isLeft, total);
    }
    NothingLeft(iter.Rest(), isLeft);
    result.AppendRemainder(iter);
    result.Trim();
  }

  lemma {:induction false} NothingLeft(a: seq<Unit>, isLeft: bool)
    ensures Rewrite(a, [], isLeft) == a
  {
  }

  method Transform2(a: TextOp, b: TextOp, isLeft: bool) returns (a': TextOp, b': TextOp)
    requires Packed(a.comps) && Packed(b.comps)
    ensures fresh(a') && fresh(b') && Canonical(a'.comps) && Canonical(b'.comps)
    ensures a'.Meaning() == Transformed(a.Meaning(), b.Meaning(), isLeft)
    ensures b'.Meaning() == Transformed(b.Meaning(), a.Meaning(), !isLeft)
  {
    a' := Transform1(a, b, isLeft);
    b' := Transform1(b, a, !isLeft);
  }
}
