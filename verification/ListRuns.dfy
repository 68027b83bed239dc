/** Run-length list operations: a run of inserts or deletes, typed forwards or backwards, stands for
    a list of single-character operations, however it is split and joined. */
module ListRuns {
  import opened ListLog
  import opened Ranges

  datatype OpKind = InsKind | DelKind

  /** A `RangeRev`: the characters a run inserts or deletes, and the direction it goes in. */
  datatype Run = Run(start: nat, end: nat, fwd: bool) {
    ghost predicate Valid() {
      start <= end
    }

    function Len(): nat
      requires Valid()
    {
      end - start
    }
  }

  /** Where the k-th operation of a run takes place, in the document as it is by then. */
  function PosAt(kind: OpKind, r: Run, k: nat): int {
    if kind.InsKind? && r.fwd then r.start + k
    else if kind.DelKind? && !r.fwd then r.end - 1 - k
    else r.start
  }

  ghost function Positions(kind: OpKind, r: Run): (s: seq<int>)
    requires r.Valid()
    ensures |s| == r.Len() && forall k | 0 <= k < |s| :: s[k] == PosAt(kind, r, k)
  {
    seq(r.Len(), k requires k >= 0 => PosAt(kind, r, k))
  }

  // ---- What a run does to a document ----

  ghost function Edited<T>(text: seq<T>, op: ListOp<T>): Option<seq<T>> {
    match op
    case Ins(pos, c) => if pos <= |text| then Some(text[..pos] + [c] + text[pos..]) else None
    case Del(pos) => if pos < |text| then Some(text[..pos] + text[pos + 1..]) else None
  }

  ghost function EditedAll<T>(text: seq<T>, ops: seq<ListOp<T>>): Option<seq<T>>
    decreases |ops|
  {
    if ops == [] then Some(text)
    else
      match Edited(text, ops[0])
      case None => None
      case Some(t) => EditedAll(t, ops[1..])
  }

  /** The single-character operations a run stands for; `content` is in the order of typing. */
  ghost function Ops<T>(kind: OpKind, r: Run, content: seq<T>): (s: seq<ListOp<T>>)
    requires r.Valid() && (kind.InsKind? ==> |content| == r.Len())
    ensures |s| == r.Len()
    ensures forall k | 0 <= k < |s| :: s[k] == if kind.InsKind? then Ins(PosAt(kind, r, k), content[k]) else Del(PosAt(kind, r, k))
  {
    seq(r.Len(), k requires 0 <= k < r.Len() => if kind.InsKind? then Ins(PosAt(kind, r, k), content[k]) else Del(PosAt(kind, r, k)))
  }

  ghost function Backwards<T>(s: seq<T>): (r: seq<T>)
    ensures |r| == |s|
  {
    if s == [] then [] else Backwards(s[1..]) + [s[0]]
  }

  /** A run of inserts puts its whole content at its start, turned round if it goes backwards; a run
      of deletes removes its whole span. */
  ghost function Whole<T>(text: seq<T>, kind: OpKind, r: Run, content: seq<T>): Option<seq<T>>
    requires r.Valid() && (kind.InsKind? ==> |content| == r.Len())
  {
    if r.Len() == 0 then Some(text)
    else if kind.InsKind? then
      if r.start <= |text| then Some(text[..r.start] + (if r.fwd then content else Backwards(content)) + text[r.start..]) else None
    else
      if r.end <= |text| then Some(text[..r.start] + text[r.end..]) else None
  }

  /** The first operation of a run, and the run that is left. */
  ghost function Rest(kind: OpKind, r: Run): Run
    requires r.Valid() && 0 < r.Len()
  {
    if kind.InsKind? && r.fwd then r.(start := r.start + 1) else r.(end := r.end - 1)
  }

  lemma {:induction false} FirstOp<T>(kind: OpKind, r: Run, content: seq<T>)
    requires r.Valid() && 0 < r.Len() && (kind.InsKind? ==> |content| == r.Len())
    ensures Rest(kind, r).Valid() && Rest(kind, r).Len() == r.Len() - 1
    ensures var rest := if kind.InsKind? then content[1..] else content; Ops(kind, r, content)[1..] == Ops(kind, Rest(kind, r), rest)
  {
  }

  /** Doing the operations of a run one by one is doing the run as a whole. */
  lemma {:induction false} RunIsSplice<T>(text: seq<T>, kind: OpKind, r: Run, content: seq<T>)
    requires r.Valid() && (kind.InsKind? ==> |content| == r.Len())
    ensures EditedAll(text, Ops(kind, r, content)) == Whole(text, kind, r, content)
    decreases r.Len()
  {
    if r.Len() > 0 {
      FirstOp(kind, r, content);
      var op := Ops(kind, r, content)[0];
      var rest := if kind.InsKind? then content[1..] else content;
      if Edited(text, op).Some? {
        RunIsSplice(Edited(text, op).value, kind, Rest(kind, r), rest);
        WholeStep(text, kind, r, content);
      }
    }
  }

  lemma {:induction false} WholeStep<T>(text: seq<T>, kind: OpKind, r: Run, content: seq<T>)
    requires r.Valid() && 0 < r.Len() && (kind.InsKind? ==> |content| == r.Len())
    requires Edited(text, Ops(kind, r, content)[0]).Some?
    ensures Rest(kind, r).Valid() && Rest(kind, r).Len() == r.Len() - 1
    ensures Whole(Edited(text, Ops(kind, r, content)[0]).value, kind, Rest(kind, r), if kind.InsKind? then content[1..] else content) == Whole(text, kind, r, content)
  {
    if kind.InsKind? {
      InsertStep(text[..r.start], content, text[r.start..], r.fwd);
      assert text[..r.start] + text[r.start..] == text;
      assert r.Len() == 1 ==> content[1..] == [];
    } else {
      var t := Edited(text, Ops(kind, r, content)[0]).value;
      var pos := PosAt(kind, r, 0);
      assert t == text[..pos] + text[pos + 1..];
      if r.end <= |text| {
        assert t[..r.start] == text[..r.start] && t[r.end - 1..] == text[r.end..];
      }
    }
  }

  /** The first character of a run, and where the others go. */
  lemma {:induction false} InsertStep<T>(before: seq<T>, content: seq<T>, after: seq<T>, fwd: bool)
    requires content != []
    ensures var t := before + [content[0]] + after;
            if fwd then
              && t[..|before| + 1] == before + [content[0]] && t[|before| + 1..] == after
              && before + [content[0]] + content[1..] + after == before + content + after
              && (|content| == 1 ==> t == before + content + after)
            else
              && t[..|before|] == before && t[|before|..] == [content[0]] + after
              && before + Backwards(content[1..]) + ([content[0]] + after) == before + Backwards(content) + after
              && (|content| == 1 ==> t == before + Backwards(content) + after)
  {
    assert content == [content[0]] + content[1..];
    assert |content| == 1 ==> content[1..] == [];
    assert Backwards(content) == Backwards(content[1..]) + [content[0]];
  }

  // ---- Splitting ----

  /** `split_op_span`: the first `at` operations of a run, and the others. */
  function SplitOpSpan(kind: OpKind, r: Run, at: nat): (p: (Run, Run))
    requires r.Valid() && at <= r.Len()
  {
    var (start1, start2) :=
      if r.fwd && kind.InsKind? then (r.start, r.start + at)
      else if !r.fwd && kind.DelKind? then (r.end - at, r.start)
      else (r.start, r.start);
    (Run(start1, start1 + at, r.fwd), Run(start2, start2 + r.Len() - at, r.fwd))
  }

  /** A run that is split says the same as before. */
  lemma {:induction false} SplitMeans<T>(kind: OpKind, r: Run, at: nat, content: seq<T>, x: seq<T>, y: seq<T>)
    requires r.Valid() && at <= r.Len() && content == x + y && (kind.InsKind? ==> |x| == at && |y| == r.Len() - at)
    ensures var (a, b) := SplitOpSpan(kind, r, at);
            && a.Valid() && b.Valid() && a.Len() == at && b.Len() == r.Len() - at
            && Ops(kind, r, content) == Ops(kind, a, x) + Ops(kind, b, y)
  {
  }

  // ---- Joining ----

  predicate CanAppendOps(kind: OpKind, a: Run, b: Run)
    requires a.Valid() && b.Valid()
  {
    || ((a.Len() == 1 || a.fwd) && (b.Len() == 1 || b.fwd)
        && ((kind.InsKind? && b.start == a.end) || (kind.DelKind? && b.start == a.start)))
    || (kind.DelKind? && (a.Len() == 1 || !a.fwd) && (b.Len() == 1 || !b.fwd) && b.end == a.start)
  }

  function AppendOps(kind: OpKind, a: Run, b: Run): (r: Run)
    requires a.Valid() && b.Valid()
  {
    var fwd := b.start >= a.start && (b.start != a.start || kind.DelKind?);
    if kind.DelKind? && !fwd then Run(b.start, a.end, fwd) else Run(a.start, a.end + b.Len(), fwd)
  }

  /** Joined runs say what the two said one after the other. */
  lemma {:induction false} AppendMeans<T>(kind: OpKind, a: Run, b: Run, x: seq<T>, y: seq<T>)
    requires a.Valid() && b.Valid() && 0 < a.Len() && 0 < b.Len() && CanAppendOps(kind, a, b)
    requires kind.InsKind? ==> |x| == a.Len() && |y| == b.Len()
    ensures AppendOps(kind, a, b).Valid() && AppendOps(kind, a, b).Len() == a.Len() + b.Len()
    ensures Ops(kind, AppendOps(kind, a, b), x + y) == Ops(kind, a, x) + Ops(kind, b, y)
  {
  }

  /** Two runs say what some single run says. */
  ghost predicate Joins(kind: OpKind, a: Run, b: Run, r: Run)
    requires a.Valid() && b.Valid()
  {
    r.Valid() && Positions(kind, r) == Positions(kind, a) + Positions(kind, b)
  }

  /** Runs of deletes can be joined exactly when a single run says the same, and runs of inserts
      exactly when a forward run does. */
  lemma {:induction false} CanAppendExactly(kind: OpKind, a: Run, b: Run)
    requires a.Valid() && b.Valid() && 0 < a.Len() && 0 < b.Len()
    ensures CanAppendOps(kind, a, b) <==> exists r :: Joins(kind, a, b, r) && (kind.InsKind? ==> r.fwd)
  {
    if CanAppendOps(kind, a, b) {
      var r := AppendOps(kind, a, b);
      assert Positions(kind, r) == Positions(kind, a) + Positions(kind, b);
      assert Joins(kind, a, b, r);
    }
    if r :| Joins(kind, a, b, r) && (kind.InsKind? ==> r.fwd) {
      JoinedPositions(kind, a, b, r);
    }
  }

  /** What the positions next to the seam and at the ends say. */
  lemma {:induction false} JoinedPositions(kind: OpKind, a: Run, b: Run, r: Run)
    requires a.Valid() && b.Valid() && 0 < a.Len() && 0 < b.Len() && Joins(kind, a, b, r) && (kind.InsKind? ==> r.fwd)
    ensures CanAppendOps(kind, a, b)
  {
    var n := a.Len();
    var both := Positions(kind, a) + Positions(kind, b);
    assert r.Len() == |both|;
    assert both[0] == PosAt(kind, a, 0) == PosAt(kind, r, 0);
    assert both[n - 1] == PosAt(kind, a, n - 1) == PosAt(kind, r, n - 1);
    assert both[n] == PosAt(kind, b, 0) == PosAt(kind, r, n);
    assert both[|both| - 1] == PosAt(kind, b, b.Len() - 1) == PosAt(kind, r, |both| - 1);
  }

  /** Splitting a run and joining the parts gives the run back, but for backward inserts. */
  lemma {:induction false} SplitThenAppend(kind: OpKind, r: Run, at: nat)
    requires r.Valid() && 0 < at < r.Len()
    ensures var (a, b) := SplitOpSpan(kind, r, at);
            && (CanAppendOps(kind, a, b) <==> kind.DelKind? || r.fwd)
            && (CanAppendOps(kind, a, b) ==> AppendOps(kind, a, b) == r)
  {
  }

  // ---- Operations with their content ----

  /** The stores that operations point into, character by character. */
  datatype ListOperationCtx<T> = ListOperationCtx(insContent: seq<T>, delContent: seq<T>) {
    function Switch(kind: OpKind): seq<T> {
      if kind.InsKind? then insContent else delContent
    }
  }

  /** Inserts have content; content has one character per operation. */
  ghost predicate HasContent<T>(ctx: ListOperationCtx<T>, kind: OpKind, loc: Run, pos: Option<LVRange>) {
    && loc.Valid() && (kind.InsKind? ==> pos.Some?)
    && (pos.Some? ==> pos.value.start <= pos.value.end <= |ctx.Switch(kind)| && pos.value.end - pos.value.start == loc.Len())
  }

  ghost function ContentAt<T>(ctx: ListOperationCtx<T>, kind: OpKind, loc: Run, pos: Option<LVRange>): (r: seq<T>)
    requires HasContent(ctx, kind, loc, pos)
    ensures kind.InsKind? ==> |r| == loc.Len()
  {
    if pos.None? then [] else ctx.Switch(kind)[pos.value.start..pos.value.end]
  }

  /** Where the content of the first `at` operations is, and that of the others. */
  function SplitContent(pos: Option<LVRange>, at: nat): (Option<LVRange>, Option<LVRange>) {
    if pos.None? then (None, None)
    else (Some(LVRange(pos.value.start, pos.value.start + at)), Some(LVRange(pos.value.start + at, pos.value.end)))
  }

  lemma {:induction false} SplitContentMeans<T>(ctx: ListOperationCtx<T>, kind: OpKind, loc: Run, pos: Option<LVRange>, at: nat)
    requires HasContent(ctx, kind, loc, pos) && at <= loc.Len()
    ensures var (a, b) := SplitOpSpan(kind, loc, at); var (p, q) := SplitContent(pos, at);
            && HasContent(ctx, kind, a, p) && HasContent(ctx, kind, b, q) && a.Len() == at
            && ContentAt(ctx, kind, a, p) + ContentAt(ctx, kind, b, q) == ContentAt(ctx, kind, loc, pos)
            && Ops(kind, a, ContentAt(ctx, kind, a, p)) + Ops(kind, b, ContentAt(ctx, kind, b, q)) == Ops(kind, loc, ContentAt(ctx, kind, loc, pos))
  {
    hide Ops;
    var (a, b) := SplitOpSpan(kind, loc, at);
    var (p, q) := SplitContent(pos, at);
    assert ContentAt(ctx, kind, a, p) + ContentAt(ctx, kind, b, q) == ContentAt(ctx, kind, loc, pos);
    SplitMeans(kind, loc, at, ContentAt(ctx, kind, loc, pos), ContentAt(ctx, kind, a, p), ContentAt(ctx, kind, b, q));
  }

  /** The two pieces of content lie next to each other, or neither has any. */
  ghost predicate JoinsContent(a: Option<LVRange>, b: Option<LVRange>) {
    (a.None? && b.None?) || (a.Some? && b.Some? && b.value.start == a.value.end)
  }

  function JoinedContent(a: Option<LVRange>, b: Option<LVRange>): Option<LVRange>
    requires JoinsContent(a, b)
  {
    if a.None? then None else Some(LVRange(a.value.start, b.value.end))
  }

  lemma {:induction false} JoinedContentMeans<T>(ctx: ListOperationCtx<T>, kind: OpKind, a: Run, p: Option<LVRange>, b: Run, q: Option<LVRange>)
    requires HasContent(ctx, kind, a, p) && HasContent(ctx, kind, b, q) && 0 < a.Len() && 0 < b.Len()
    requires CanAppendOps(kind, a, b) && JoinsContent(p, q)
    ensures var r, pq := AppendOps(kind, a, b), JoinedContent(p, q);
            && HasContent(ctx, kind, r, pq)
            && ContentAt(ctx, kind, r, pq) == ContentAt(ctx, kind, a, p) + ContentAt(ctx, kind, b, q)
            && Ops(kind, r, ContentAt(ctx, kind, r, pq)) == Ops(kind, a, ContentAt(ctx, kind, a, p)) + Ops(kind, b, ContentAt(ctx, kind, b, q))
  {
    hide Ops, CanAppendOps, AppendOps;
    AppendMeans(kind, a, b, ContentAt(ctx, kind, a, p), ContentAt(ctx, kind, b, q));
    var r, pq := AppendOps(kind, a, b), JoinedContent(p, q);
    assert ContentAt(ctx, kind, r, pq) == ContentAt(ctx, kind, a, p) + ContentAt(ctx, kind, b, q);
  }

  class ListOpMetrics {
    var loc: Run
    var kind: OpKind
    var contentPos: Option<LVRange>

    constructor (loc: Run, kind: OpKind, contentPos: Option<LVRange>)
      ensures this.loc == loc && this.kind == kind && this.contentPos == contentPos
    {
      this.loc, this.kind, this.contentPos := loc, kind, contentPos;
    }

    ghost predicate Valid<T>(ctx: ListOperationCtx<T>)
      reads this
    {
      HasContent(ctx, kind, loc, contentPos)
    }

    ghost function Content<T>(ctx: ListOperationCtx<T>): seq<T>
      requires Valid(ctx)
      reads this
    {
      ContentAt(ctx, kind, loc, contentPos)
    }

    /** The single-character operations. */
    ghost function Meaning<T>(ctx: ListOperationCtx<T>): seq<ListOp<T>>
      requires Valid(ctx)
      reads this
    {
      Ops(kind, loc, Content(ctx))
    }

    /** `truncate_tagged_span` agrees with `split_op_span`. */
    method TruncateTaggedSpan(at: nat) returns (rest: Run)
      requires loc.Valid() && at <= loc.Len()
      modifies this`loc
      ensures (loc, rest) == SplitOpSpan(kind, old(loc), at)
    {
      var len := loc.Len();
      var start2 := if loc.fwd && kind.InsKind? then loc.start + at else loc.start;
      if !loc.fwd && kind.DelKind? {
        loc := loc.(start := loc.end - at);
      }
      loc := loc.(end := loc.start + at);
      rest := Run(start2, start2 + len - at, loc.fwd);
    }

    /** Keeps the first `at` operations and returns the others. */
    method TruncateCtx<T>(at: nat, ghost ctx: ListOperationCtx<T>) returns (rest: ListOpMetrics)
      requires Valid(ctx) && at <= loc.Len()
      modifies this
      ensures fresh(rest) && Valid(ctx) && rest.Valid(ctx) && kind == rest.kind == old(kind)
      ensures loc.Len() == at && Meaning(ctx) + rest.Meaning(ctx) == old(Meaning(ctx))
      ensures Content(ctx) + rest.Content(ctx) == old(Content(ctx))
    {
      hide Ops, SplitOpSpan, ContentAt, HasContent;
      SplitContentMeans(ctx, kind, loc, contentPos, at);
      var restPos := None;
      if contentPos.Some? {
        var p := contentPos.value;
        restPos := Some(LVRange(p.start + at, p.end));
        contentPos := Some(LVRange(p.start, p.start + at));
      }
      ValidLoc(ctx, kind, loc, old(contentPos));
      var restLoc := TruncateTaggedSpan(at);
      rest := new ListOpMetrics(restLoc, kind, restPos);
    }

    method CanAppend(other: ListOpMetrics) returns (r: bool)
      requires loc.Valid() && other.loc.Valid()
      ensures r <==> kind == other.kind && CanAppendOps(kind, loc, other.loc) && JoinsContent(contentPos, other.contentPos)
    {
      var content := match (contentPos, other.contentPos)
        case (Some(a), Some(b)) => b.start == a.end
        case (None, None) => true
        case (Some(_), None) => false
        case (None, Some(_)) => false;
      r := kind == other.kind && content && CanAppendOps(kind, loc, other.loc);
    }

    /** Takes in an operation that goes on from this one. */
    method Append<T>(other: ListOpMetrics, ghost ctx: ListOperationCtx<T>)
      requires Valid(ctx) && other.Valid(ctx) && other != this && 0 < loc.Len() && 0 < other.loc.Len()
      requires kind == other.kind && CanAppendOps(kind, loc, other.loc) && JoinsContent(contentPos, other.contentPos)
      modifies this
      ensures Valid(ctx) && kind == old(kind)
      ensures Meaning(ctx) == old(Meaning(ctx)) + other.Meaning(ctx) && Content(ctx) == old(Content(ctx)) + other.Content(ctx)
    {
      hide Ops, AppendOps, CanAppendOps, ContentAt, HasContent;
      JoinedContentMeans(ctx, kind, loc, contentPos, other.loc, other.contentPos);
      ValidLoc(ctx, kind, loc, contentPos);
      ValidLoc(ctx, kind, other.loc, other.contentPos);
      loc := AppendOps(kind, loc, other.loc);
      if contentPos.Some? {
        contentPos := Some(LVRange(contentPos.value.start, other.contentPos.value.end));
      }
    }
  }

  lemma {:induction false} ValidLoc<T>(ctx: ListOperationCtx<T>, kind: OpKind, loc: Run, pos: Option<LVRange>)
    requires HasContent(ctx, kind, loc, pos)
    ensures loc.Valid()
  {
  }
}
