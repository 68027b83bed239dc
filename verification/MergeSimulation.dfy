/** Placeholders do the work of the document they stand for: a replay on top of a base and the same
    replay on placeholders go hand in hand, deleted items of the base or not. */
module MergeSimulation {
  import opened Dag
  import opened ListLog
  import opened Items
  import opened Replay
  import opened Intent

  // ---- Two orders side by side ----

  /** An item of the base that is deleted there, one that is not, or one made since. */
  datatype Kind = Gone | Kept | Made

  /** An item of the full document, and what stands for it on the placeholders; nothing does for one
      that is gone. */
  datatype Cell = Cell(kind: Kind, full: Placed, held: Placed)

  ghost function FullOrder(cells: seq<Cell>): (r: seq<Placed>)
    ensures |r| == |cells| && forall i | 0 <= i < |r| :: r[i] == cells[i].full
  {
    seq(|cells|, i requires 0 <= i < |cells| => cells[i].full)
  }

  ghost function HeldOrder(cells: seq<Cell>): (r: seq<Placed>)
    ensures |r| <= |cells|
  {
    if cells == [] then []
    else
      var k := |cells| - 1;
      HeldOrder(cells[..k]) + (if cells[k].kind.Gone? then [] else [cells[k].held])
  }

  /** Where cell `c` is, or would be, among the placeholders. */
  ghost function HeldIdx(cells: seq<Cell>, c: nat): nat
    requires c <= |cells|
  {
    |HeldOrder(cells[..c])|
  }

  lemma {:induction false} HeldConcat(a: seq<Cell>, b: seq<Cell>)
    ensures HeldOrder(a + b) == HeldOrder(a) + HeldOrder(b)
  {
    if b == [] {
      assert a + b == a;
    } else {
      var k := |b| - 1;
      assert (a + b)[..|a + b| - 1] == a + b[..k];
      HeldConcat(a, b[..k]);
    }
  }

  lemma {:induction false} HeldNext(cells: seq<Cell>, c: nat)
    requires c < |cells|
    ensures HeldIdx(cells, c + 1) == HeldIdx(cells, c) + (if cells[c].kind.Gone? then 0 else 1)
    ensures !cells[c].kind.Gone? ==> HeldIdx(cells, c) < |HeldOrder(cells)| && HeldOrder(cells)[HeldIdx(cells, c)] == cells[c].held
    ensures HeldIdx(cells, c) <= |HeldOrder(cells)|
  {
    assert cells[..c + 1][..c] == cells[..c];
    assert cells == cells[..c + 1] + cells[c + 1..];
    HeldConcat(cells[..c + 1], cells[c + 1..]);
  }

  lemma {:induction false} HeldEnds(cells: seq<Cell>)
    ensures HeldIdx(cells, 0) == 0 && HeldIdx(cells, |cells|) == |HeldOrder(cells)|
  {
    assert cells[..|cells|] == cells;
  }

  lemma {:induction false} HeldMonotone(cells: seq<Cell>, i: nat, j: nat)
    requires i <= j <= |cells|
    ensures HeldIdx(cells, i) <= HeldIdx(cells, j)
    ensures i < j && !cells[i].kind.Gone? ==> HeldIdx(cells, i) < HeldIdx(cells, j)
    decreases j
  {
    if i < j {
      HeldNext(cells, j - 1);
      HeldMonotone(cells, i, j - 1);
    }
  }

  // ---- The relation ----

  /** The replay on the base `b`, and the one on placeholders; `cells` ties their items together, and
      `ballast` is the placeholders that stand for nothing. */
  datatype Sides = Sides(b: set<nat>, cells: seq<Cell>, ballast: seq<Placed>, full: Doc, held: Doc)

  /** All cells after `i` up to `j` have been made since: they lie in one gap between items of the base. */
  ghost predicate SameGap(cells: seq<Cell>, i: int, j: int) {
    forall x | i < x <= j && 0 <= x < |cells| :: cells[x].kind.Made?
  }

  /** The next item of the base from cell `c` on. */
  function NextBase(cells: seq<Cell>, c: nat): (x: nat)
    requires c <= |cells|
    ensures c <= x <= |cells| && forall y | c <= y < x :: cells[y].kind.Made?
    ensures x < |cells| ==> !cells[x].kind.Made?
    decreases |cells| - c
  {
    if c == |cells| || !cells[c].kind.Made? then c else NextBase(cells, c + 1)
  }

  /** The next item of the base from cell `c` on that is still there. */
  function NextKept(cells: seq<Cell>, c: nat): (x: nat)
    requires c <= |cells|
    ensures c <= x <= |cells| && forall y | c <= y < x :: !cells[y].kind.Kept?
    ensures x < |cells| ==> cells[x].kind.Kept?
    decreases |cells| - c
  {
    if c == |cells| || cells[c].kind.Kept? then c else NextKept(cells, c + 1)
  }

  /** The left origin of an item made since: `o` is its cell, or -1 for the start of the document. */
  ghost predicate OriginAt<T>(log: Log<T>, cells: seq<Cell>, c: nat, o: int)
    requires c < |cells| && ValidLog(log)
  {
    && -1 <= o < c && SameGap(cells, o, c)
    && (o == -1 ==> cells[c].full.originLeft == -1 && cells[c].held.originLeft == -1)
    && (o >= 0 ==>
          && !cells[o].kind.Gone? && cells[c].full.originLeft == cells[o].full.opId && cells[c].held.originLeft == cells[o].held.opId
          && (cells[o].kind.Made? ==>
                var lv := cells[c].full.opId;
                lv < |log.g| && InGraph(log.g, log.g[lv]) && cells[o].full.opId in Hist(log.g, log.g[lv])))
  }

  ghost predicate HasOrigin<T>(log: Log<T>, cells: seq<Cell>, c: nat)
    requires c < |cells| && ValidLog(log)
  {
    exists o :: OriginAt(log, cells, c, o)
  }

  /** The right parent that the item of the base after a gap makes, if it has the left origin asked for. */
  ghost function BaseRight(cells: seq<Cell>, x: nat, originLeft: int): int
    requires x <= |cells|
  {
    if x < |cells| && cells[x].full.originLeft == originLeft then cells[x].full.opId else -1
  }

  /** The first placeholder. */
  ghost function FirstHolder(cells: seq<Cell>, ballast: seq<Placed>): int {
    var x := NextKept(cells, 0);
    if x < |cells| then cells[x].held.opId
    else if ballast == [] then -1
    else ballast[0].opId
  }

  /** The right parent that the placeholder after a gap makes. */
  ghost function HeldRight(cells: seq<Cell>, ballast: seq<Placed>, originLeft: int): int {
    if originLeft == -1 then FirstHolder(cells, ballast) else -1
  }

  /** A right parent in a gap that ends before cell `e`: another item of the gap, cell `r`, or what the
      end of the gap makes it. */
  ghost predicate RightAt(cells: seq<Cell>, ballast: seq<Placed>, e: nat, left: int, heldLeft: int, right: int, heldRight: int, r: nat)
    requires e <= |cells|
  {
    && r <= e
    && (r < e ==> right == cells[r].full.opId && heldRight == cells[r].held.opId)
    && (r == e ==> right == BaseRight(cells, e, left) && heldRight == HeldRight(cells, ballast, heldLeft))
  }

  ghost predicate RightOf(cells: seq<Cell>, ballast: seq<Placed>, c: nat, r: nat)
    requires c < |cells|
  {
    RightAt(cells, ballast, NextBase(cells, c + 1), cells[c].full.originLeft, cells[c].held.originLeft,
            cells[c].full.rightParent, cells[c].held.rightParent, r)
  }

  ghost predicate HasRight(cells: seq<Cell>, ballast: seq<Placed>, c: nat)
    requires c < |cells|
  {
    exists r: nat :: c < r && RightOf(cells, ballast, c, r)
  }

  ghost predicate CellOk<T>(log: Log<T>, b: set<nat>, cells: seq<Cell>, ballast: seq<Placed>, c: nat)
    requires c < |cells| && ValidLog(log)
  {
    var cell := cells[c];
    if cell.kind.Made? then
      && cell.full.opId !in b && cell.full.opId == cell.held.opId < |log.g|
      && HasOrigin(log, cells, c) && HasRight(cells, ballast, c)
    else
      && cell.full.opId in b && (cell.full.originLeft == -1 || (cell.full.originLeft >= 0 && cell.full.originLeft in b))
      && (cell.kind.Kept? ==> cell.held.opId >= PLACEHOLDER_BASE && cell.held.originLeft == -1)
  }

  ghost predicate CellsOk<T>(log: Log<T>, b: set<nat>, cells: seq<Cell>, ballast: seq<Placed>)
    requires ValidLog(log)
  {
    forall c | 0 <= c < |cells| :: CellOk(log, b, cells, ballast, c)
  }

  /** A delete that was replayed on both sides hit the same cell. */
  ghost predicate HitSame(cells: seq<Cell>, full: nat, held: nat) {
    exists c :: 0 <= c < |cells| && !cells[c].kind.Gone? && cells[c].full.opId == full && cells[c].held.opId == held
  }

  ghost predicate DeletedIn(b: set<nat>, targets: map<nat, nat>, id: nat) {
    exists d :: d in targets && d in b && targets[d] == id
  }

  ghost predicate TargetsSame(b: set<nat>, cells: seq<Cell>, full: map<nat, nat>, held: map<nat, nat>) {
    && (forall d :: d in held <==> d in full && d !in b)
    && (forall d | d in held && d in full :: HitSame(cells, full[d], held[d]))
    && (forall c | 0 <= c < |cells| :: cells[c].kind.Gone? <==> DeletedIn(b, full, cells[c].full.opId))
  }

  ghost predicate BallastOk(ballast: seq<Placed>) {
    forall i | 0 <= i < |ballast| :: ballast[i].opId >= PLACEHOLDER_BASE && ballast[i].originLeft == -1
  }

  ghost predicate Orders(s: Sides) {
    && s.full.order == FullOrder(s.cells) && s.held.order == HeldOrder(s.cells) + s.ballast
    && DistinctOrder(s.full.order) && DistinctOrder(s.held.order)
  }

  /** The full document and the one on placeholders, cell by cell. */
  ghost predicate Linked<T>(log: Log<T>, s: Sides) {
    && ValidLog(log) && Orders(s)
    && CellsOk(log, s.b, s.cells, s.ballast) && BallastOk(s.ballast)
    && TargetsSame(s.b, s.cells, s.full.targets, s.held.targets)
  }

  // ---- Two views side by side ----

  lemma {:induction false} HeldAt(s: Sides, c: nat)
    requires Orders(s) && c < |s.cells|
    ensures |s.full.order| == |s.cells| && s.full.order[c] == s.cells[c].full && HeldIdx(s.cells, c) <= |s.held.order|
    ensures !s.cells[c].kind.Gone? ==> HeldIdx(s.cells, c) < |s.held.order| && s.held.order[HeldIdx(s.cells, c)] == s.cells[c].held
  {
    hide DistinctOrder, HeldIdx;
    HeldNext(s.cells, c);
  }

  /** The cells are told apart by either ID. */
  lemma {:induction false} CellsApart(s: Sides, i: nat, j: nat)
    requires Orders(s) && i < |s.cells| && j < |s.cells| && i != j
    ensures s.cells[i].full.opId != s.cells[j].full.opId
    ensures !s.cells[i].kind.Gone? && !s.cells[j].kind.Gone? ==> s.cells[i].held.opId != s.cells[j].held.opId
  {
    hide HeldOrder, FullOrder, HeldIdx;
    HeldAt(s, i);
    HeldAt(s, j);
    HeldMonotone(s.cells, if i < j then i else j, if i < j then j else i);
  }

  lemma {:induction false} HitCell(s: Sides, c: nat, full: nat, held: nat)
    requires Orders(s) && c < |s.cells| && !s.cells[c].kind.Gone? && HitSame(s.cells, full, held)
    ensures held == s.cells[c].held.opId <==> full == s.cells[c].full.opId
  {
    hide Orders;
    var x :| 0 <= x < |s.cells| && !s.cells[x].kind.Gone? && s.cells[x].full.opId == full && s.cells[x].held.opId == held;
    if x != c { CellsApart(s, x, c); }
  }

  lemma {:induction false} NotDeletedIn(b: set<nat>, targets: map<nat, nat>, id: nat, d: nat)
    requires !DeletedIn(b, targets, id) && d in targets && d in b
    ensures targets[d] != id
  {
  }

  /** On both sides the same deletes hit an item. */
  lemma {:induction false} SameDeletes<T>(log: Log<T>, s: Sides, v: set<nat>, c: nat)
    requires Linked(log, s) && c < |s.cells| && !s.cells[c].kind.Gone?
    ensures DeletesOf(s.full.targets, v, s.cells[c].full.opId) == DeletesOf(s.held.targets, v, s.cells[c].held.opId)
  {
    hide CellsOk, BallastOk, Orders, HitSame, DeletedIn;
    var full, held, cell := s.full.targets, s.held.targets, s.cells[c];
    forall d | d in held
      ensures held[d] == cell.held.opId <==> full[d] == cell.full.opId
    {
      HitCell(s, c, full[d], held[d]);
    }
    forall d | d in full && d in s.b
      ensures full[d] != cell.full.opId
    {
      NotDeletedIn(s.b, full, cell.full.opId, d);
    }
  }

  lemma {:induction false} EndDeletes(targets: map<nat, nat>, all: set<nat>, id: nat)
    requires targets.Keys <= all
    ensures EndState(targets, id) == if DeletesOf(targets, all, id) != {} then DELETED else INSERTED
  {
    if exists d :: d in targets && targets[d] == id {
      var d :| d in targets && targets[d] == id;
      assert d in DeletesOf(targets, all, id);
    }
  }

  lemma {:induction false} SameEnd<T>(log: Log<T>, s: Sides, c: nat)
    requires Linked(log, s) && c < |s.cells| && !s.cells[c].kind.Gone?
    ensures EndState(s.full.targets, s.cells[c].full.opId) == EndState(s.held.targets, s.cells[c].held.opId)
  {
    hide Linked, EndState;
    var all := s.full.targets.Keys + s.held.targets.Keys;
    SameDeletes(log, s, all, c);
    EndDeletes(s.full.targets, all, s.cells[c].full.opId);
    EndDeletes(s.held.targets, all, s.cells[c].held.opId);
  }

  lemma {:induction false} SameState<T>(log: Log<T>, s: Sides, v: set<nat>, c: nat)
    requires Linked(log, s) && s.b <= v && c < |s.cells| && !s.cells[c].kind.Gone?
    ensures StateAt(s.full.targets, v, s.cells[c].full.opId) == StateAt(s.held.targets, v, s.cells[c].held.opId)
    ensures s.cells[c].kind.Kept? ==> StateAt(s.full.targets, v, s.cells[c].full.opId) != NOT_YET_INSERTED
  {
    hide Orders, TargetsSame, BallastOk, DeletesOf, HasOrigin, HasRight;
    SameDeletes(log, s, v, c);
    assert CellOk(log, s.b, s.cells, s.ballast, c);
  }

  /** An item and what stands for it are in the same state, now and in the end. */
  lemma {:induction false} SameItem<T>(log: Log<T>, s: Sides, v: set<nat>, c: nat)
    requires Linked(log, s) && s.b <= v && c < |s.cells| && !s.cells[c].kind.Gone?
    ensures c < |s.full.order| && HeldIdx(s.cells, c) < |s.held.order|
    ensures var x, y := ViewAt(s.full, v)[c], ViewAt(s.held, v)[HeldIdx(s.cells, c)];
            && x.curState == y.curState && x.endState == y.endState
            && Placed(x.opId, x.originLeft, x.rightParent) == s.cells[c].full && Placed(y.opId, y.originLeft, y.rightParent) == s.cells[c].held
            && (s.cells[c].kind.Kept? ==> x.curState != NOT_YET_INSERTED)
  {
    hide CellsOk, TargetsSame, BallastOk, StateAt, EndState, HeldIdx, DistinctOrder;
    HeldAt(s, c);
    SameState(log, s, v, c);
    SameEnd(log, s, c);
  }

  /** What is gone stays so at every version above the base. */
  lemma {:induction false} GoneItem<T>(log: Log<T>, s: Sides, v: set<nat>, c: nat)
    requires Linked(log, s) && s.b <= v && c < |s.cells| && s.cells[c].kind.Gone?
    ensures c < |s.full.order| && ViewAt(s.full, v)[c].curState >= DELETED && ViewAt(s.full, v)[c].endState == DELETED
  {
    hide HasOrigin, HasRight, DistinctOrder;
    assert CellOk(log, s.b, s.cells, s.ballast, c);
    HeldAt(s, c);
    var id := s.cells[c].full.opId;
    var d :| d in s.full.targets && d in s.b && s.full.targets[d] == id;
    assert d in DeletesOf(s.full.targets, v, id);
  }

  /** Only an item made since can be missing at a version above the base. */
  lemma {:induction false} BaseSettled<T>(log: Log<T>, s: Sides, v: set<nat>, c: nat)
    requires Linked(log, s) && s.b <= v && c < |s.cells| && !s.cells[c].kind.Made?
    ensures c < |s.full.order| && ViewAt(s.full, v)[c].curState != NOT_YET_INSERTED
  {
    hide Linked, ViewAt, HeldIdx;
    if s.cells[c].kind.Gone? {
      GoneItem(log, s, v, c);
    } else {
      SameItem(log, s, v, c);
    }
  }

  /** As much is visible, and survives, before a cell on one side as on the other. */
  lemma {:induction false} SameVisible<T>(log: Log<T>, s: Sides, v: set<nat>, c: nat)
    requires Linked(log, s) && s.b <= v && c <= |s.cells| == |s.full.order|
    ensures HeldIdx(s.cells, c) <= |s.held.order|
    ensures |Visible(ViewAt(s.held, v)[..HeldIdx(s.cells, c)])| == |Visible(ViewAt(s.full, v)[..c])|
    ensures |EndVisible(ViewAt(s.held, v)[..HeldIdx(s.cells, c)])| == |EndVisible(ViewAt(s.full, v)[..c])|
  {
    hide Linked, ViewAt, Visible, EndVisible, HeldIdx;
    var f, h := ViewAt(s.full, v), ViewAt(s.held, v);
    if c == 0 {
      HeldEnds(s.cells);
      VisibleEmpty(f);
      VisibleEmpty(h);
    } else {
      SameVisible(log, s, v, c - 1);
      HeldNext(s.cells, c - 1);
      VisiblePrefix(f, c - 1);
      if s.cells[c - 1].kind.Gone? {
        GoneItem(log, s, v, c - 1);
      } else {
        SameItem(log, s, v, c - 1);
        VisiblePrefix(h, HeldIdx(s.cells, c - 1));
      }
    }
  }

  // ---- Positions ----

  /** A position falls behind the same cell on both sides. */
  lemma {:induction false} SameCursor<T>(log: Log<T>, s: Sides, v: set<nat>, pos: nat)
    requires Linked(log, s) && s.b <= v && |s.cells| == |s.full.order|
    requires CursorAt(ViewAt(s.full, v), pos).Some?
    ensures var c := CursorAt(ViewAt(s.full, v), pos).value;
            && CursorAt(ViewAt(s.held, v), pos) == Some(HeldIdx(s.cells, c))
            && (c > 0 ==> !s.cells[c - 1].kind.Gone? && HeldIdx(s.cells, c - 1) == HeldIdx(s.cells, c) - 1)
            && (c == 0 ==> HeldIdx(s.cells, c) == 0)
  {
    hide Linked, ViewAt, Visible, EndVisible, HeldIdx, CursorAt;
    var f, h := ViewAt(s.full, v), ViewAt(s.held, v);
    var c := CursorAt(f, pos).value;
    SameVisible(log, s, v, c);
    if c > 0 {
      HeldNext(s.cells, c - 1);
      if s.cells[c - 1].kind.Gone? {
        GoneItem(log, s, v, c - 1);
      } else {
        SameItem(log, s, v, c - 1);
      }
    } else {
      HeldEnds(s.cells);
    }
    CursorIs(h, pos, HeldIdx(s.cells, c));
  }

  lemma {:induction false} SameTarget<T>(log: Log<T>, s: Sides, v: set<nat>, pos: nat)
    requires Linked(log, s) && s.b <= v && |s.cells| == |s.full.order|
    requires TargetAt(ViewAt(s.full, v), pos).Some?
    ensures var c := TargetAt(ViewAt(s.full, v), pos).value;
            !s.cells[c].kind.Gone? && TargetAt(ViewAt(s.held, v), pos) == Some(HeldIdx(s.cells, c))
  {
    hide Linked, ViewAt, Visible, EndVisible, HeldIdx, TargetAt;
    var f, h := ViewAt(s.full, v), ViewAt(s.held, v);
    var c := TargetAt(f, pos).value;
    SameVisible(log, s, v, c);
    if s.cells[c].kind.Gone? {
      GoneItem(log, s, v, c);
    } else {
      SameItem(log, s, v, c);
    }
    TargetIs(h, pos, HeldIdx(s.cells, c));
  }

  // ---- The ends of gaps ----

  /** Nothing made since follows directly on an item that is gone: it has a left origin that is not. */
  lemma {:induction false} NotAfterGone<T>(log: Log<T>, s: Sides, c: nat)
    requires Linked(log, s) && c + 1 < |s.cells| && s.cells[c + 1].kind.Made?
    ensures !s.cells[c].kind.Gone?
  {
    hide Orders, TargetsSame, BallastOk, HasRight;
    assert CellOk(log, s.b, s.cells, s.ballast, c + 1);
    var o :| OriginAt(log, s.cells, c + 1, o);
    assert o < c ==> s.cells[c].kind.Made?;
  }

  /** From the end of a gap to the next placeholder everything is gone. */
  lemma {:induction false} GoneUntil<T>(log: Log<T>, s: Sides, x: nat)
    requires Linked(log, s) && x <= |s.cells| && (x < |s.cells| ==> !s.cells[x].kind.Made?)
    ensures HeldIdx(s.cells, NextKept(s.cells, x)) == HeldIdx(s.cells, x)
    decreases |s.cells| - x
  {
    hide Linked, HeldIdx;
    if x < |s.cells| && s.cells[x].kind.Gone? {
      HeldNext(s.cells, x);
      if x + 1 < |s.cells| && s.cells[x + 1].kind.Made? { NotAfterGone(log, s, x); }
      GoneUntil(log, s, x + 1);
    }
  }

  lemma {:induction false} NextKeptFrom(cells: seq<Cell>, x: nat)
    requires x <= |cells| && forall y | 0 <= y < x :: !cells[y].kind.Kept?
    ensures NextKept(cells, 0) == NextKept(cells, x)
    decreases x
  {
    if x > 0 { NextKeptFrom(cells, x - 1); }
  }

  /** What stands at index `i` on the placeholder side after a gap: a settled placeholder, or the end. */
  ghost predicate AfterGap(h: seq<Item>, i: nat) {
    i <= |h| && (i < |h| ==> h[i].curState != NOT_YET_INSERTED && h[i].originLeft == -1)
  }

  ghost function IdAt(h: seq<Item>, i: nat): int {
    if i < |h| then h[i].opId else -1
  }

  /** Where a gap ends there is a settled placeholder, the first one if nothing kept comes before. */
  lemma {:induction false} HeldGapEnd<T>(log: Log<T>, s: Sides, v: set<nat>, x: nat)
    requires Linked(log, s) && s.b <= v && x <= |s.cells| && (x < |s.cells| ==> !s.cells[x].kind.Made?)
    ensures AfterGap(ViewAt(s.held, v), HeldIdx(s.cells, x))
    ensures (forall y | 0 <= y < x :: !s.cells[y].kind.Kept?) ==>
              IdAt(ViewAt(s.held, v), HeldIdx(s.cells, x)) == FirstHolder(s.cells, s.ballast)
  {
    hide CellsOk, TargetsSame, HeldIdx, HeldOrder, FullOrder, DistinctOrder;
    var h := ViewAt(s.held, v);
    var k := NextKept(s.cells, x);
    GoneUntil(log, s, x);
    if forall y | 0 <= y < x :: !s.cells[y].kind.Kept? { NextKeptFrom(s.cells, x); }
    if k < |s.cells| {
      KeptOrigin(log, s, k);
      SameItem(log, s, v, k);
    } else {
      HeldEnds(s.cells);
    }
  }

  lemma {:induction false} KeptOrigin<T>(log: Log<T>, s: Sides, c: nat)
    requires Linked(log, s) && c < |s.cells| && s.cells[c].kind.Kept?
    ensures s.cells[c].held.originLeft == -1 && s.cells[c].held.opId >= PLACEHOLDER_BASE
  {
    assert CellOk(log, s.b, s.cells, s.ballast, c);
  }

  // ---- Right parents ----

  ghost function LeftOf(cells: seq<Cell>, c: nat): int
    requires c <= |cells|
  {
    if c == 0 then -1 else cells[c - 1].full.opId
  }

  ghost function HeldLeftOf(cells: seq<Cell>, c: nat): int
    requires c <= |cells|
  {
    if c == 0 then -1 else cells[c - 1].held.opId
  }

  /** Cell `c` has the left origin `o`, in either of its two forms. */
  lemma {:induction false} SameOrigin<T>(log: Log<T>, s: Sides, c: nat, o: int, p: nat)
    requires Linked(log, s) && c < |s.cells| && OriginAt(log, s.cells, c, o)
    requires p <= |s.cells| && (p > 0 ==> !s.cells[p - 1].kind.Gone?)
    ensures s.cells[c].full.originLeft == LeftOf(s.cells, p) <==> o == p - 1
    ensures s.cells[c].held.originLeft == HeldLeftOf(s.cells, p) <==> o == p - 1
  {
    hide CellsOk, TargetsSame, BallastOk, Orders, SameGap;
    if o >= 0 && p > 0 && o != p - 1 { CellsApart(s, o, p - 1); }
  }

  /** The left origin of an item that is present is present. */
  lemma {:induction false} OriginSettled<T>(log: Log<T>, s: Sides, v: set<nat>, c: nat, o: nat)
    requires Linked(log, s) && s.b <= v && Closed(log.g, v) && c < |s.cells| == |s.full.order| && OriginAt(log, s.cells, c, o)
    requires s.cells[c].kind.Made? && ViewAt(s.full, v)[c].curState != NOT_YET_INSERTED
    ensures o < |s.cells| && ViewAt(s.full, v)[o].curState != NOT_YET_INSERTED
  {
    hide TargetsSame, BallastOk, DistinctOrder, HeldOrder, SameGap, HasOrigin, HasRight, Hist, DeletesOf;
    if s.cells[o].kind.Made? {
      assert CellOk(log, s.b, s.cells, s.ballast, c);
      var lv := s.cells[c].full.opId;
      assert s.full.order[c].opId == lv && s.full.order[o].opId == s.cells[o].full.opId;
      assert lv in v;
      HistLeast(log.g, log.g[lv], v);
    } else {
      BaseSettled(log, s, v, o);
    }
  }

  /** The cell of the left origin of an item made since. */
  lemma {:induction false} OriginOf<T>(log: Log<T>, s: Sides, c: nat) returns (o: int)
    requires Linked(log, s) && c < |s.cells| && s.cells[c].kind.Made?
    ensures OriginAt(log, s.cells, c, o)
  {
    assert CellOk(log, s.b, s.cells, s.ballast, c);
    o :| OriginAt(log, s.cells, c, o);
  }

  /** The next present item of a gap has the origin of an insert there, unless that comes after another
      item made since. */
  lemma {:induction false} NextOrigin<T>(log: Log<T>, s: Sides, v: set<nat>, c: nat, x: nat, o: int)
    requires Linked(log, s) && s.b <= v && Closed(log.g, v) && c <= x < |s.cells| == |s.full.order|
    requires x == NextSettled(ViewAt(s.full, v), c) && s.cells[x].kind.Made? && OriginAt(log, s.cells, x, o)
    ensures o == c - 1 || (0 < c && s.cells[c - 1].kind.Made?)
  {
    hide Linked, ViewAt, Hist, Closed;
    if o >= 0 { OriginSettled(log, s, v, x, o); }
  }

  /** The item of the base after a gap has nothing made since as its left origin. */
  lemma {:induction false} NoBaseRight<T>(log: Log<T>, s: Sides, c: nat)
    requires Linked(log, s) && 0 < c <= |s.cells| && s.cells[c - 1].kind.Made?
    ensures BaseRight(s.cells, NextBase(s.cells, c), LeftOf(s.cells, c)) == -1
  {
    hide Orders, TargetsSame, BallastOk, HasOrigin, HasRight;
    assert CellOk(log, s.b, s.cells, s.ballast, c - 1);
    var e := NextBase(s.cells, c);
    if e < |s.cells| {
      assert CellOk(log, s.b, s.cells, s.ballast, e);
    }
  }

  lemma {:induction false} HeldIdxStep(cells: seq<Cell>, c: nat, x: nat)
    requires c <= x <= |cells| && forall y | c <= y < x :: cells[y].kind.Made?
    ensures HeldIdx(cells, x) == HeldIdx(cells, c) + x - c
    decreases x
  {
    hide HeldIdx;
    if c < x {
      HeldIdxStep(cells, c, x - 1);
      HeldNext(cells, x - 1);
    }
  }

  /** Items made since that are missing on one side are missing on the other. */
  lemma {:induction false} SameMissing<T>(log: Log<T>, s: Sides, v: set<nat>, c: nat, x: nat)
    requires Linked(log, s) && s.b <= v && c <= x <= |s.cells| == |s.full.order|
    requires forall y | c <= y < x :: ViewAt(s.full, v)[y].curState == NOT_YET_INSERTED
    ensures HeldIdx(s.cells, x) == HeldIdx(s.cells, c) + x - c <= |s.held.order|
    ensures forall y | c <= y < x :: s.cells[y].kind.Made?
    ensures forall i | HeldIdx(s.cells, c) <= i < HeldIdx(s.cells, x) :: ViewAt(s.held, v)[i].curState == NOT_YET_INSERTED
    decreases x
  {
    hide Linked, ViewAt, HeldIdx;
    SameVisible(log, s, v, x);
    if c < x {
      SameMissing(log, s, v, c, x - 1);
      HeldNext(s.cells, x - 1);
      if !s.cells[x - 1].kind.Made? {
        BaseSettled(log, s, v, x - 1);
      } else {
        SameItem(log, s, v, x - 1);
      }
    }
  }

  /** An insert after cell `c - 1` gets the same right parent on both sides: an item made since, or what
      the end of the gap makes it. */
  lemma {:induction false} SameRight<T>(log: Log<T>, s: Sides, v: set<nat>, c: nat) returns (r: nat)
    requires Linked(log, s) && s.b <= v && Closed(log.g, v) && c <= |s.cells| == |s.full.order| && HeldIdx(s.cells, c) <= |s.held.order|
    requires c > 0 ==> !s.cells[c - 1].kind.Gone?
    ensures NextSettled(ViewAt(s.full, v), c) <= r
    ensures RightAt(s.cells, s.ballast, NextBase(s.cells, c), LeftOf(s.cells, c), HeldLeftOf(s.cells, c),
                    RightParentAt(ViewAt(s.full, v), c, LeftOf(s.cells, c)),
                    RightParentAt(ViewAt(s.held, v), HeldIdx(s.cells, c), HeldLeftOf(s.cells, c)), r)
  {
    hide Linked, ViewAt, HeldIdx, Closed, Hist, OriginAt;
    var f, h, e := ViewAt(s.full, v), ViewAt(s.held, v), NextBase(s.cells, c);
    var x := NextSettled(f, c);
    SameMissing(log, s, v, c, x);
    NextBaseFrom(s.cells, c, x);
    if x < |s.cells| && s.cells[x].kind.Made? {
      SameItem(log, s, v, x);
      NextSettledIs(h, HeldIdx(s.cells, c), HeldIdx(s.cells, x));
      r := SameRightMade(log, s, v, c, x);
    } else {
      r := x;
      SameRightEnd(log, s, v, c, x);
    }
  }

  lemma {:induction false} NextBaseFrom(cells: seq<Cell>, c: nat, x: nat)
    requires c <= x <= |cells| && forall y | c <= y < x :: cells[y].kind.Made?
    ensures NextBase(cells, c) == NextBase(cells, x) && (x < |cells| && !cells[x].kind.Made? ==> NextBase(cells, x) == x)
    ensures x <= NextBase(cells, c)
    decreases x - c
  {
    if c < x { NextBaseFrom(cells, c + 1, x); }
  }

  lemma {:induction false} SameRightMade<T>(log: Log<T>, s: Sides, v: set<nat>, c: nat, x: nat) returns (r: nat)
    requires Linked(log, s) && s.b <= v && Closed(log.g, v) && c <= x < |s.cells| == |s.full.order|
    requires HeldIdx(s.cells, c) <= |s.held.order| && (c > 0 ==> !s.cells[c - 1].kind.Gone?)
    requires x == NextSettled(ViewAt(s.full, v), c) && s.cells[x].kind.Made? && x <= NextBase(s.cells, c)
    requires NextSettled(ViewAt(s.held, v), HeldIdx(s.cells, c)) == HeldIdx(s.cells, x)
    ensures x <= r
    ensures RightAt(s.cells, s.ballast, NextBase(s.cells, c), LeftOf(s.cells, c), HeldLeftOf(s.cells, c),
                    RightParentAt(ViewAt(s.full, v), c, LeftOf(s.cells, c)),
                    RightParentAt(ViewAt(s.held, v), HeldIdx(s.cells, c), HeldLeftOf(s.cells, c)), r)
  {
    hide Linked, ViewAt, HeldIdx, Closed, Hist, OriginAt, BaseRight, FirstHolder;
    SameItem(log, s, v, x);
    var o := OriginOf(log, s, x);
    SameOrigin(log, s, x, o, c);
    NextOrigin(log, s, v, c, x, o);
    if o == c - 1 {
      r := x;
    } else {
      r := NextBase(s.cells, c);
      NoBaseRight(log, s, c);
    }
  }

  lemma {:induction false} SameRightEnd<T>(log: Log<T>, s: Sides, v: set<nat>, c: nat, x: nat)
    requires Linked(log, s) && s.b <= v && c <= x <= |s.cells| == |s.full.order|
    requires x == NextSettled(ViewAt(s.full, v), c) == NextBase(s.cells, c)
    requires HeldIdx(s.cells, c) <= HeldIdx(s.cells, x) <= |s.held.order|
    requires forall i | HeldIdx(s.cells, c) <= i < HeldIdx(s.cells, x) :: ViewAt(s.held, v)[i].curState == NOT_YET_INSERTED
    ensures RightAt(s.cells, s.ballast, NextBase(s.cells, c), LeftOf(s.cells, c), HeldLeftOf(s.cells, c),
                    RightParentAt(ViewAt(s.full, v), c, LeftOf(s.cells, c)),
                    RightParentAt(ViewAt(s.held, v), HeldIdx(s.cells, c), HeldLeftOf(s.cells, c)), x)
  {
    hide CellsOk, TargetsSame, BallastOk, HeldIdx, FirstHolder, StateAt, EndState, DistinctOrder, HeldOrder;
    var f, h := ViewAt(s.full, v), ViewAt(s.held, v);
    HeldGapEnd(log, s, v, x);
    NextSettledIs(h, HeldIdx(s.cells, c), HeldIdx(s.cells, x));
  }

  // ---- The scan ----

  /** Where `integrate` finds a right parent; -1 stands for the end. */
  ghost function RightIdx(items: seq<Item>, right: int): nat {
    if right == -1 then |items| else FindIdx(items, right)
  }

  /** The item of a cell is found where it stands. */
  lemma {:induction false} FoundCell(s: Sides, v: set<nat>, c: nat)
    requires Orders(s) && c < |s.cells|
    ensures FindIdx(ViewAt(s.full, v), s.cells[c].full.opId) == c < |s.full.order|
    ensures !s.cells[c].kind.Gone? ==> FindIdx(ViewAt(s.held, v), s.cells[c].held.opId) == HeldIdx(s.cells, c) < |s.held.order|
  {
    hide HeldIdx, FullOrder, HeldOrder, DistinctOrder, StateAt, EndState;
    HeldAt(s, c);
    ViewDistinct(s.full, v);
    ViewDistinct(s.held, v);
    FoundAt(ViewAt(s.full, v), s.cells[c].full.opId, c);
    if !s.cells[c].kind.Gone? {
      FoundAt(ViewAt(s.held, v), s.cells[c].held.opId, HeldIdx(s.cells, c));
    }
  }

  /** A right parent inside a gap that ends before `e` is found inside it on both sides, and one at its end beyond it. */
  lemma {:induction false} RightFound<T>(log: Log<T>, s: Sides, v: set<nat>, c: nat, e: nat, left: int, heldLeft: int, right: int, heldRight: int, r: nat)
    requires Linked(log, s) && s.b <= v && c <= |s.cells| && c <= r <= e == NextBase(s.cells, c)
    requires RightAt(s.cells, s.ballast, e, left, heldLeft, right, heldRight, r)
    requires heldLeft == -1 ==> forall y | 0 <= y < e :: !s.cells[y].kind.Kept?
    ensures var i, j := RightIdx(ViewAt(s.full, v), right), RightIdx(ViewAt(s.held, v), heldRight);
            && (right != -1 ==> i < |s.full.order|) && (heldRight != -1 ==> j < |s.held.order|)
            && HeldIdx(s.cells, e) <= |s.held.order| == |ViewAt(s.held, v)| && |s.full.order| == |s.cells|
            && if r < e then i == r && j == HeldIdx(s.cells, r) else i >= e && j >= HeldIdx(s.cells, e)
  {
    hide CellsOk, TargetsSame, BallastOk, HeldIdx, FullOrder, HeldOrder, DistinctOrder, FirstHolder, StateAt, EndState;
    HeldGapEnd(log, s, v, e);
    if r < e {
      FoundCell(s, v, r);
    } else {
      var h, y := ViewAt(s.held, v), HeldIdx(s.cells, e);
      assert |s.full.order| == |s.cells|;
      if e < |s.cells| { FoundCell(s, v, e); }
      if heldRight != -1 {
        ViewDistinct(s.held, v);
        FoundAt(h, heldRight, y);
      }
    }
  }

  /** Two right parents of one gap compare alike on both sides. */
  lemma {:induction false} RightsCompare<T>(log: Log<T>, s: Sides, v: set<nat>, c: nat, e: nat, left: int, heldLeft: int,
                                            right: int, heldRight: int, r: nat, right': int, heldRight': int, r': nat)
    requires Linked(log, s) && s.b <= v && c <= |s.cells| && c <= r <= e == NextBase(s.cells, c) && c <= r' <= e
    requires RightAt(s.cells, s.ballast, e, left, heldLeft, right, heldRight, r)
    requires RightAt(s.cells, s.ballast, e, left, heldLeft, right', heldRight', r')
    requires heldLeft == -1 ==> forall y | 0 <= y < e :: !s.cells[y].kind.Kept?
    ensures var i, j := RightIdx(ViewAt(s.full, v), right), RightIdx(ViewAt(s.held, v), heldRight);
            var i', j' := RightIdx(ViewAt(s.full, v), right'), RightIdx(ViewAt(s.held, v), heldRight');
            && (right != -1 ==> i < |s.full.order|) && (heldRight != -1 ==> j < |s.held.order|)
            && (i < i' <==> j < j') && (i == i' <==> j == j')
  {
    hide Linked, ViewAt, HeldIdx, RightIdx, FirstHolder, BaseRight, HeldRight;
    RightFound(log, s, v, c, e, left, heldLeft, right, heldRight, r);
    RightFound(log, s, v, c, e, left, heldLeft, right', heldRight', r');
    HeldMonotone(s.cells, r, e);
    HeldMonotone(s.cells, r', e);
    if r <= r' { HeldMonotone(s.cells, r, r'); } else { HeldMonotone(s.cells, r', r); }
  }

  /** Left origins compare with an insert's own alike on both sides. */
  lemma {:induction false} LeftsCompare<T>(log: Log<T>, s: Sides, v: set<nat>, at: nat, o: int, c: nat)
    requires Linked(log, s) && at < |s.cells| && OriginAt(log, s.cells, at, o) && c <= |s.cells|
    requires c > 0 ==> !s.cells[c - 1].kind.Gone?
    ensures var i := if s.cells[at].full.originLeft == -1 then -1 else FindIdx(ViewAt(s.full, v), s.cells[at].full.originLeft);
            var j := if s.cells[at].held.originLeft == -1 then -1 else FindIdx(ViewAt(s.held, v), s.cells[at].held.originLeft);
            && i == o && i < |ViewAt(s.full, v)| && j < |ViewAt(s.held, v)|
            && (i < c - 1 <==> j < HeldIdx(s.cells, c) - 1) && (i == c - 1 <==> j == HeldIdx(s.cells, c) - 1)
  {
    hide CellsOk, TargetsSame, BallastOk, HeldIdx, Orders, SameGap, ViewAt;
    if o >= 0 { FoundCell(s, v, o); }
    if c > 0 { HeldNext(s.cells, c - 1); } else { HeldEnds(s.cells); }
    if o >= 0 && c > 0 {
      if o < c - 1 { HeldMonotone(s.cells, o, c - 1); }
      if c - 1 < o { HeldMonotone(s.cells, c - 1, o); }
    }
  }

  /** A gap between items of the base with an insert after cell `c - 1` in it, its right parents given. */
  ghost predicate Placing<T>(log: Log<T>, s: Sides, v: set<nat>, lv: nat, c: nat, right: int, heldRight: int, r: nat) {
    && Linked(log, s) && s.b <= v && c <= r && c <= |s.cells| && lv < |log.ids|
    && (c > 0 ==> !s.cells[c - 1].kind.Gone?)
    && RightAt(s.cells, s.ballast, NextBase(s.cells, c), LeftOf(s.cells, c), HeldLeftOf(s.cells, c), right, heldRight, r)
  }

  /** The cells whose right parents the scan compares with that of the new item have the same left origin. */
  lemma {:induction false} OtherRight<T>(log: Log<T>, s: Sides, v: set<nat>, lv: nat, c: nat, right: int, heldRight: int, r: nat, at: nat)
    requires Placing(log, s, v, lv, c, right, heldRight, r) && c <= at < NextBase(s.cells, c) && OriginAt(log, s.cells, at, c - 1)
    ensures var f, h, other := ViewAt(s.full, v), ViewAt(s.held, v), s.cells[at];
            var i, j := RightIdx(f, other.full.rightParent), RightIdx(h, other.held.rightParent);
            && (other.full.rightParent != -1 ==> i < |f|) && (other.held.rightParent != -1 ==> j < |h|)
            && (i < RightIdx(f, right) <==> j < RightIdx(h, heldRight)) && (i == RightIdx(f, right) <==> j == RightIdx(h, heldRight))
  {
    hide Orders, TargetsSame, BallastOk, HasOrigin, RightIdx, FirstHolder, BaseRight, HeldRight, RightAt, ViewAt;
    var e := NextBase(s.cells, c);
    NextBaseFrom(s.cells, c, at + 1);
    assert CellOk(log, s.b, s.cells, s.ballast, at);
    var r' :| at < r' && RightOf(s.cells, s.ballast, at, r');
    RightBound(s.cells, s.ballast, e, LeftOf(s.cells, c), HeldLeftOf(s.cells, c), right, heldRight, r);
    RightBound(s.cells, s.ballast, e, s.cells[at].full.originLeft, s.cells[at].held.originLeft, s.cells[at].full.rightParent, s.cells[at].held.rightParent, r');
    RightsCompare(log, s, v, c, e, LeftOf(s.cells, c), HeldLeftOf(s.cells, c),
                  s.cells[at].full.rightParent, s.cells[at].held.rightParent, r', right, heldRight, r);
  }

  lemma {:induction false} RightBound(cells: seq<Cell>, ballast: seq<Placed>, e: nat, left: int, heldLeft: int, right: int, heldRight: int, r: nat)
    requires e <= |cells| && RightAt(cells, ballast, e, left, heldLeft, right, heldRight, r)
    ensures r <= e
  {
  }

  /** No missing item of the gap is the right parent. */
  lemma {:induction false} OtherIsNotRight<T>(log: Log<T>, s: Sides, v: set<nat>, lv: nat, c: nat, right: int, heldRight: int, r: nat, at: nat)
    requires Placing(log, s, v, lv, c, right, heldRight, r) && c <= at < NextBase(s.cells, c)
    ensures s.cells[at].full.opId == s.cells[at].held.opId < |log.g| && s.cells[at].kind.Made?
    ensures s.cells[at].full.opId == right <==> s.cells[at].held.opId == heldRight
  {
    hide TargetsSame, HasOrigin, HasRight, ViewAt, HeldOrder, FullOrder, DistinctOrder;
    assert CellOk(log, s.b, s.cells, s.ballast, at);
    var e := NextBase(s.cells, c);
    if r < e {
      assert CellOk(log, s.b, s.cells, s.ballast, r);
    } else {
      if e < |s.cells| { assert CellOk(log, s.b, s.cells, s.ballast, e); }
      var k := NextKept(s.cells, 0);
      if k < |s.cells| { assert CellOk(log, s.b, s.cells, s.ballast, k); }
    }
  }

  /** Each turn of the scan decides the same on both sides. */
  lemma {:induction false} SameDecision<T>(log: Log<T>, s: Sides, v: set<nat>, lv: nat, c: nat, right: int, heldRight: int, r: nat, at: nat, scanning: bool)
    requires Placing(log, s, v, lv, c, right, heldRight, r) && c <= at < NextBase(s.cells, c)
    requires at < |ViewAt(s.full, v)| && HeldIdx(s.cells, at) < |ViewAt(s.held, v)|
    ensures Decide(ViewAt(s.full, v), log.ids, lv, right, c - 1, RightIdx(ViewAt(s.full, v), right), at, scanning) ==
            Decide(ViewAt(s.held, v), log.ids, lv, heldRight, HeldIdx(s.cells, c) - 1, RightIdx(ViewAt(s.held, v), heldRight), HeldIdx(s.cells, at), scanning)
  {
    hide Linked, ViewAt, HeldIdx, RightAt, OriginAt, RawLess;
    OtherIsNotRight(log, s, v, lv, c, right, heldRight, r, at);
    SameItem(log, s, v, at);
    var o := OriginOf(log, s, at);
    LeftsCompare(log, s, v, at, o, c);
    if o == c - 1 { OtherRight(log, s, v, lv, c, right, heldRight, r, at); }
    assert |log.ids| == |log.g| by { LogSizes(log, s); }
  }

  lemma {:induction false} LogSizes<T>(log: Log<T>, s: Sides)
    requires Linked(log, s)
    ensures |log.ids| == |log.g| == |log.ops| <= PLACEHOLDER_BASE && WellFormed(log.g)
    ensures |s.full.order| == |s.cells|
  {
  }

  /** The scan ends in the same place on both sides. */
  lemma {:induction false} SameScan<T>(log: Log<T>, s: Sides, v: set<nat>, lv: nat, c: nat, right: int, heldRight: int, r: nat, at: nat, cursor: nat, scanning: bool)
    requires Placing(log, s, v, lv, c, right, heldRight, r) && c <= cursor <= at <= NextBase(s.cells, c) <= |ViewAt(s.full, v)|
    requires HeldIdx(s.cells, cursor) <= HeldIdx(s.cells, at) <= |ViewAt(s.held, v)|
    requires Scan(ViewAt(s.full, v), log.ids, lv, right, c - 1, RightIdx(ViewAt(s.full, v), right), at, cursor, scanning).Some?
    ensures var k := Scan(ViewAt(s.full, v), log.ids, lv, right, c - 1, RightIdx(ViewAt(s.full, v), right), at, cursor, scanning).value;
            k <= |s.cells| &&
            Scan(ViewAt(s.held, v), log.ids, lv, heldRight, HeldIdx(s.cells, c) - 1, RightIdx(ViewAt(s.held, v), heldRight),
                 HeldIdx(s.cells, at), HeldIdx(s.cells, cursor), scanning) == Some(HeldIdx(s.cells, k))
    decreases NextBase(s.cells, c) - at
  {
    hide Linked, ViewAt, HeldIdx, RightAt, OriginAt, RightIdx, Decide, RawLess;
    LogSizes(log, s);
    var f, h, e := ViewAt(s.full, v), ViewAt(s.held, v), NextBase(s.cells, c);
    if at == e {
      GapStops(log, s, v, lv, right, heldRight, c, e, scanning);
    } else {
      SameItem(log, s, v, at);
      HeldNext(s.cells, at);
      SameDecision(log, s, v, lv, c, right, heldRight, r, at, scanning);
      var d := Decide(f, log.ids, lv, right, c - 1, RightIdx(f, right), at, scanning);
      if d.Go? {
        SameScan(log, s, v, lv, c, right, heldRight, r, at + 1, if d.scanning then cursor else at + 1, d.scanning);
      }
    }
  }

  /** Where the gap ends the scan stops on both sides. */
  lemma {:induction false} GapStops<T>(log: Log<T>, s: Sides, v: set<nat>, lv: nat, right: int, heldRight: int, c: nat, e: nat, scanning: bool)
    requires Linked(log, s) && s.b <= v && lv < |log.ids| && c <= |s.cells| && e == NextBase(s.cells, c)
    ensures |s.full.order| == |s.cells| && (e == |s.cells| || Decide(ViewAt(s.full, v), log.ids, lv, right, c - 1, RightIdx(ViewAt(s.full, v), right), e, scanning) == Stop)
    ensures var h, i := ViewAt(s.held, v), HeldIdx(s.cells, e);
            i <= |h| && (i == |h| || Decide(h, log.ids, lv, heldRight, HeldIdx(s.cells, c) - 1, RightIdx(h, heldRight), i, scanning) == Stop)
  {
    hide Linked, ViewAt, HeldIdx, RightIdx;
    LogSizes(log, s);
    if e < |s.cells| { BaseSettled(log, s, v, e); }
    HeldGapEnd(log, s, v, e);
  }

  /** An insert goes to the same place on both sides. */
  lemma {:induction false} SamePlace<T>(log: Log<T>, s: Sides, v: set<nat>, lv: nat, c: nat, right: int, heldRight: int, r: nat)
    requires Placing(log, s, v, lv, c, right, heldRight, r)
    requires c <= |ViewAt(s.full, v)| && HeldIdx(s.cells, c) <= |ViewAt(s.held, v)|
    requires Integrate(ViewAt(s.full, v), log.ids, lv, right, c).Some?
    ensures var k := Integrate(ViewAt(s.full, v), log.ids, lv, right, c).value;
            k <= |s.cells| && Integrate(ViewAt(s.held, v), log.ids, lv, heldRight, HeldIdx(s.cells, c)) == Some(HeldIdx(s.cells, k))
  {
    hide Linked, ViewAt, HeldIdx, Scan, Decide, RawLess, FirstHolder, BaseRight, HeldRight;
    LogSizes(log, s);
    var f, h, e := ViewAt(s.full, v), ViewAt(s.held, v), NextBase(s.cells, c);
    NextBaseFrom(s.cells, c, c);
    if c == e {
      if e < |s.cells| { BaseSettled(log, s, v, e); }
      HeldGapEnd(log, s, v, e);
    } else {
      SameItem(log, s, v, c);
      if f[c].curState == NOT_YET_INSERTED {
        RightPresent(log, s, v, lv, c, right, heldRight, r);
        SameScan(log, s, v, lv, c, right, heldRight, r, c, c, false);
      }
    }
  }

  lemma {:induction false} RightPresent<T>(log: Log<T>, s: Sides, v: set<nat>, lv: nat, c: nat, right: int, heldRight: int, r: nat)
    requires Placing(log, s, v, lv, c, right, heldRight, r)
    ensures right != -1 ==> RightIdx(ViewAt(s.full, v), right) < |ViewAt(s.full, v)|
    ensures heldRight != -1 ==> RightIdx(ViewAt(s.held, v), heldRight) < |ViewAt(s.held, v)|
  {
    hide Linked, ViewAt, HeldIdx, RightIdx, FirstHolder, BaseRight, HeldRight;
    RightFound(log, s, v, c, NextBase(s.cells, c), LeftOf(s.cells, c), HeldLeftOf(s.cells, c), right, heldRight, r);
  }

  // ---- One more cell ----

  ghost function WithCell(cells: seq<Cell>, k: nat, cell: Cell): (r: seq<Cell>)
    requires k <= |cells|
    ensures |r| == |cells| + 1 && r[k] == cell
    ensures forall i | 0 <= i < |cells| :: r[Moved(k, i)] == cells[i]
  {
    cells[..k] + [cell] + cells[k..]
  }

  /** Where what was at `i` is, once something has been put in at `k`. */
  function Moved(k: nat, i: int): int {
    if i < k then i else i + 1
  }

  /** Every place but the new one held something before. */
  function MovedFrom(k: nat, i: int): (r: int)
    ensures i != k ==> Moved(k, r) == i
  {
    if i < k then i else i - 1
  }

  lemma {:induction false} SameGapWith(cells: seq<Cell>, k: nat, cell: Cell, i: int, j: int)
    requires k <= |cells| && cell.kind.Made? && -1 <= i && SameGap(cells, i, j)
    ensures SameGap(WithCell(cells, k, cell), Moved(k, i), Moved(k, j))
  {
    hide WithCell;
    var cells' := WithCell(cells, k, cell);
    forall x | Moved(k, i) < x <= Moved(k, j) && 0 <= x < |cells'|
      ensures cells'[x].kind.Made?
    {
      if x != k { assert cells'[x] == cells[MovedFrom(k, x)]; }
    }
  }

  lemma {:induction false} OriginWith<T>(log: Log<T>, cells: seq<Cell>, k: nat, cell: Cell, c: nat, o: int)
    requires ValidLog(log) && k <= |cells| && cell.kind.Made? && c < |cells| && OriginAt(log, cells, c, o)
    ensures OriginAt(log, WithCell(cells, k, cell), Moved(k, c), if o == -1 then -1 else Moved(k, o))
  {
    hide WithCell, SameGap, Hist;
    var cells' := WithCell(cells, k, cell);
    assert cells'[Moved(k, c)] == cells[c];
    if o >= 0 { assert cells'[Moved(k, o)] == cells[o]; }
    SameGapWith(cells, k, cell, o, c);
    if o == -1 && k == 0 { GapFromStart(cells, k, cell, c); }
  }

  lemma {:induction false} GapFromStart(cells: seq<Cell>, k: nat, cell: Cell, c: nat)
    requires k <= |cells| && cell.kind.Made? && SameGap(cells, -1, c)
    ensures SameGap(WithCell(cells, k, cell), -1, Moved(k, c))
  {
    hide WithCell;
    var cells' := WithCell(cells, k, cell);
    forall x | -1 < x <= Moved(k, c) && 0 <= x < |cells'|
      ensures cells'[x].kind.Made?
    {
      if x != k { assert cells'[x] == cells[MovedFrom(k, x)]; }
    }
  }

  /** Putting an item into a gap does not move its end away. */
  lemma {:induction false} NextBaseWith(cells: seq<Cell>, k: nat, cell: Cell, c: nat)
    requires k <= |cells| && cell.kind.Made? && c < |cells|
    ensures NextBase(WithCell(cells, k, cell), Moved(k, c) + 1) == Moved(k, NextBase(cells, c + 1))
  {
    hide WithCell;
    var cells' := WithCell(cells, k, cell);
    NextBaseIs(cells', k, cell, cells, Moved(k, c) + 1, NextBase(cells, c + 1));
  }

  lemma {:induction false} NextBaseIs(cells': seq<Cell>, k: nat, cell: Cell, cells: seq<Cell>, from: nat, e: nat)
    requires k <= |cells| && cell.kind.Made? && cells' == WithCell(cells, k, cell)
    requires e <= |cells| && (e < |cells| ==> !cells[e].kind.Made?) && from <= Moved(k, e)
    requires forall x | from <= x < Moved(k, e) && x != k :: cells[MovedFrom(k, x)].kind.Made?
    ensures NextBase(cells', from) == Moved(k, e)
    decreases Moved(k, e) - from
  {
    hide WithCell;
    if from < Moved(k, e) {
      if from != k { assert cells'[from] == cells[MovedFrom(k, from)]; }
      NextBaseIs(cells', k, cell, cells, from + 1, e);
    } else if e < |cells| {
      assert cells'[Moved(k, e)] == cells[e];
    }
  }

  lemma {:induction false} NextKeptIs(cells: seq<Cell>, from: nat, x: nat)
    requires from <= x <= |cells| && (forall y | from <= y < x :: !cells[y].kind.Kept?) && (x < |cells| ==> cells[x].kind.Kept?)
    ensures NextKept(cells, from) == x
    decreases x - from
  {
    if from < x { NextKeptIs(cells, from + 1, x); }
  }

  lemma {:induction false} FirstHolderWith(cells: seq<Cell>, k: nat, cell: Cell, ballast: seq<Placed>)
    requires k <= |cells| && cell.kind.Made?
    ensures FirstHolder(WithCell(cells, k, cell), ballast) == FirstHolder(cells, ballast)
  {
    hide WithCell;
    var cells', x := WithCell(cells, k, cell), NextKept(cells, 0);
    forall y | 0 <= y < Moved(k, x)
      ensures !cells'[y].kind.Kept?
    {
      if y != k { assert cells'[y] == cells[MovedFrom(k, y)]; }
    }
    if x < |cells| { assert cells'[Moved(k, x)] == cells[x]; }
    NextKeptIs(cells', 0, Moved(k, x));
  }

  lemma {:induction false} RightWith(cells: seq<Cell>, k: nat, cell: Cell, ballast: seq<Placed>, e: nat, left: int, heldLeft: int, right: int, heldRight: int, r: nat)
    requires k <= |cells| && cell.kind.Made? && e <= |cells| && RightAt(cells, ballast, e, left, heldLeft, right, heldRight, r)
    ensures RightAt(WithCell(cells, k, cell), ballast, Moved(k, e), left, heldLeft, right, heldRight, Moved(k, r))
  {
    hide WithCell, FirstHolder;
    var cells' := WithCell(cells, k, cell);
    FirstHolderWith(cells, k, cell, ballast);
    if r < |cells| { assert cells'[Moved(k, r)] == cells[r]; }
    if e < |cells| { assert cells'[Moved(k, e)] == cells[e]; }
  }

  /** What holds of a cell goes on to hold. */
  lemma {:induction false} CellOkWith<T>(log: Log<T>, b: set<nat>, cells: seq<Cell>, k: nat, cell: Cell, ballast: seq<Placed>, c: nat)
    requires ValidLog(log) && k <= |cells| && cell.kind.Made? && c < |cells| && CellOk(log, b, cells, ballast, c)
    ensures CellOk(log, b, WithCell(cells, k, cell), ballast, Moved(k, c))
  {
    hide WithCell, OriginAt, RightAt;
    var cells' := WithCell(cells, k, cell);
    assert cells'[Moved(k, c)] == cells[c];
    if cells[c].kind.Made? {
      var o :| OriginAt(log, cells, c, o);
      OriginWith(log, cells, k, cell, c, o);
      var r :| c < r && RightOf(cells, ballast, c, r);
      NextBaseWith(cells, k, cell, c);
      RightWith(cells, k, cell, ballast, NextBase(cells, c + 1), cells[c].full.originLeft, cells[c].held.originLeft,
                cells[c].full.rightParent, cells[c].held.rightParent, r);
      assert RightOf(cells', ballast, Moved(k, c), Moved(k, r));
    }
  }

  lemma {:induction false} CellsOkWith<T>(log: Log<T>, b: set<nat>, cells: seq<Cell>, k: nat, cell: Cell, ballast: seq<Placed>)
    requires ValidLog(log) && k <= |cells| && cell.kind.Made? && CellsOk(log, b, cells, ballast)
    requires CellOk(log, b, WithCell(cells, k, cell), ballast, k)
    ensures CellsOk(log, b, WithCell(cells, k, cell), ballast)
  {
    hide WithCell, CellOk;
    forall c | 0 <= c < |cells| + 1
      ensures CellOk(log, b, WithCell(cells, k, cell), ballast, c)
    {
      if c != k { CellOkWith(log, b, cells, k, cell, ballast, MovedFrom(k, c)); }
    }
  }

  lemma {:induction false} FullOrderWith(cells: seq<Cell>, k: nat, cell: Cell)
    requires k <= |cells|
    ensures FullOrder(WithCell(cells, k, cell)) == OrderWith(FullOrder(cells), k, cell.full)
  {
  }

  lemma {:induction false} HeldOrderWith(cells: seq<Cell>, k: nat, cell: Cell)
    requires k <= |cells| && cell.kind.Made?
    ensures HeldOrder(WithCell(cells, k, cell)) == HeldOrder(cells[..k]) + [cell.held] + HeldOrder(cells[k..])
    ensures HeldOrder(cells) == HeldOrder(cells[..k]) + HeldOrder(cells[k..])
  {
    hide HeldOrder;
    assert cells == cells[..k] + cells[k..];
    HeldConcat(cells[..k], cells[k..]);
    HeldConcat(cells[..k] + [cell], cells[k..]);
    HeldConcat(cells[..k], [cell]);
    HeldOne(cell);
  }

  lemma {:induction false} HeldOne(cell: Cell)
    requires cell.kind.Made?
    ensures HeldOrder([cell]) == [cell.held]
  {
    assert [cell][..0] == [];
  }

  lemma {:induction false} OrderWithParts(a: seq<Placed>, b: seq<Placed>, ballast: seq<Placed>, p: Placed)
    ensures OrderWith(a + b + ballast, |a|, p) == a + [p] + b + ballast
  {
    assert (a + b + ballast)[..|a|] == a && (a + b + ballast)[|a|..] == b + ballast;
  }

  /** Both orders after an insert. */
  lemma {:induction false} OrdersWith(cells: seq<Cell>, k: nat, cell: Cell, ballast: seq<Placed>)
    requires k <= |cells| && cell.kind.Made?
    ensures FullOrder(WithCell(cells, k, cell)) == OrderWith(FullOrder(cells), k, cell.full)
    ensures HeldIdx(cells, k) <= |HeldOrder(cells) + ballast|
    ensures HeldOrder(WithCell(cells, k, cell)) + ballast == OrderWith(HeldOrder(cells) + ballast, HeldIdx(cells, k), cell.held)
  {
    hide WithCell, OrderWith, HeldOrder, FullOrder;
    FullOrderWith(cells, k, cell);
    HeldOrderWith(cells, k, cell);
    OrderWithParts(HeldOrder(cells[..k]), HeldOrder(cells[k..]), ballast, cell.held);
  }

  lemma {:induction false} HitSameWith(cells: seq<Cell>, k: nat, cell: Cell, full: nat, held: nat)
    requires k <= |cells| && HitSame(cells, full, held)
    ensures HitSame(WithCell(cells, k, cell), full, held)
  {
    hide WithCell;
    var c :| 0 <= c < |cells| && !cells[c].kind.Gone? && cells[c].full.opId == full && cells[c].held.opId == held;
    assert WithCell(cells, k, cell)[Moved(k, c)] == cells[c];
  }

  lemma {:induction false} TargetsWith(b: set<nat>, cells: seq<Cell>, k: nat, cell: Cell, full: map<nat, nat>, held: map<nat, nat>)
    requires k <= |cells| && cell.kind.Made? && TargetsSame(b, cells, full, held)
    requires forall d | d in full :: full[d] != cell.full.opId
    ensures TargetsSame(b, WithCell(cells, k, cell), full, held)
  {
    hide WithCell, HitSame;
    var cells' := WithCell(cells, k, cell);
    forall d | d in held && d in full
      ensures HitSame(cells', full[d], held[d])
    {
      HitSameWith(cells, k, cell, full[d], held[d]);
    }
    forall c | 0 <= c < |cells'|
      ensures cells'[c].kind.Gone? <==> DeletedIn(b, full, cells'[c].full.opId)
    {
      if c != k { assert cells'[c] == cells[MovedFrom(k, c)]; }
    }
  }

  lemma {:induction false} TargetsHit(b: set<nat>, cells: seq<Cell>, full: map<nat, nat>, held: map<nat, nat>, lv: nat, c: nat)
    requires TargetsSame(b, cells, full, held) && lv !in b && c < |cells| && !cells[c].kind.Gone?
    ensures TargetsSame(b, cells, full[lv := cells[c].full.opId], held[lv := cells[c].held.opId])
  {
    hide HitSame;
    var full', held' := full[lv := cells[c].full.opId], held[lv := cells[c].held.opId];
    HitThere(cells, c);
    forall x | 0 <= x < |cells|
      ensures DeletedIn(b, full', cells[x].full.opId) <==> DeletedIn(b, full, cells[x].full.opId)
    {
      DeletedInWith(b, full, lv, cells[c].full.opId, cells[x].full.opId);
    }
  }

  lemma {:induction false} HitThere(cells: seq<Cell>, c: nat)
    requires c < |cells| && !cells[c].kind.Gone?
    ensures HitSame(cells, cells[c].full.opId, cells[c].held.opId)
  {
  }

  lemma {:induction false} DeletedInWith(b: set<nat>, targets: map<nat, nat>, lv: nat, target: nat, id: nat)
    requires lv !in b
    ensures DeletedIn(b, targets[lv := target], id) <==> DeletedIn(b, targets, id)
  {
    if DeletedIn(b, targets, id) {
      var d :| d in targets && d in b && targets[d] == id;
      assert d in targets[lv := target];
    }
  }

  // ---- One operation on both sides ----

  /** Both documents have replayed the same operations `done` above the base. */
  ghost predicate InStep<T>(log: Log<T>, s: Sides, done: set<nat>) {
    && Linked(log, s) && Replayed(log, {}, s.b + done, s.full) && Replayed(log, s.b, done, s.held)
  }

  /** `lv` is new to both documents and builds on the whole base. */
  ghost predicate NextIn<T>(log: Log<T>, s: Sides, done: set<nat>, lv: nat) {
    && ValidLog(log) && lv < |log.g| && lv !in s.b + done && (forall p | p in log.g[lv] :: p in s.b + done)
    && InGraph(log.g, log.g[lv]) && s.b <= Hist(log.g, log.g[lv])
  }

  lemma {:induction false} DeleteOnBoth<T>(log: Log<T>, s: Sides, done: set<nat>, lv: nat) returns (s': Sides)
    requires InStep(log, s, done) && NextIn(log, s, done, lv) && log.ops[lv].Del? && DocApply(log, s.full, lv).Some?
    ensures DocApply(log, s.held, lv).Some?
    ensures s'.b == s.b && s'.ballast == s.ballast && s'.full == DocApply(log, s.full, lv).value.0 && s'.held == DocApply(log, s.held, lv).value.0
    ensures DocApply(log, s.full, lv).value.1 == DocApply(log, s.held, lv).value.1
    ensures Linked(log, s')
  {
    hide CellsOk, BallastOk, TargetsSame, Replayed, Hist, Visible, EndVisible, HeldIdx, HeldOrder, FullOrder, DistinctOrder;
    var v := Hist(log.g, log.g[lv]);
    var pos := log.ops[lv].pos;
    var c := TargetAt(ViewAt(s.full, v), pos).value;
    SameTarget(log, s, v, pos);
    SameItem(log, s, v, c);
    SameVisible(log, s, v, c);
    HeldAt(s, c);
    TargetsHit(s.b, s.cells, s.full.targets, s.held.targets, lv, c);
    s' := Sides(s.b, s.cells, s.ballast, DocApply(log, s.full, lv).value.0, DocApply(log, s.held, lv).value.0);
    assert s'.full.order == s.full.order && s'.held.order == s.held.order;
  }

  /** The cell of a new item. */
  lemma {:induction false} NewCellOk<T>(log: Log<T>, s: Sides, done: set<nat>, lv: nat, c: nat, r: nat, k: nat)
    requires InStep(log, s, done) && NextIn(log, s, done, lv) && c <= k <= |s.cells| == |s.full.order| && HeldIdx(s.cells, c) <= |s.held.order|
    requires k <= NextSettled(ViewAt(s.full, Hist(log.g, log.g[lv])), c) <= r
    requires c > 0 ==> !s.cells[c - 1].kind.Gone? && ViewAt(s.full, Hist(log.g, log.g[lv]))[c - 1].curState == INSERTED
    requires var p, q := NewPlaced(log, s.full, lv, c), NewPlaced(log, s.held, lv, HeldIdx(s.cells, c));
             && p.originLeft == LeftOf(s.cells, c) && q.originLeft == HeldLeftOf(s.cells, c)
             && RightAt(s.cells, s.ballast, NextBase(s.cells, c), p.originLeft, q.originLeft, p.rightParent, q.rightParent, r)
    ensures var cell := Cell(Made, NewPlaced(log, s.full, lv, c), NewPlaced(log, s.held, lv, HeldIdx(s.cells, c)));
            CellOk(log, s.b, WithCell(s.cells, k, cell), s.ballast, k)
  {
    hide Linked, Replayed, WithCell, RightAt, LeftOf, HeldLeftOf, Hist, ViewAt, HeldIdx;
    var v := Hist(log.g, log.g[lv]);
    var cell := Cell(Made, NewPlaced(log, s.full, lv, c), NewPlaced(log, s.held, lv, HeldIdx(s.cells, c)));
    var cells' := WithCell(s.cells, k, cell);
    LogSizes(log, s);
    SameMissing(log, s, v, c, k);
    NewOrigin(log, s, lv, c, k, cell);
    RightWith(s.cells, k, cell, s.ballast, NextBase(s.cells, c), cell.full.originLeft, cell.held.originLeft, cell.full.rightParent, cell.held.rightParent, r);
    NewGap(s.cells, k, cell, c);
    assert RightOf(cells', s.ballast, k, Moved(k, r));
  }

  lemma {:induction false} NewGap(cells: seq<Cell>, k: nat, cell: Cell, c: nat)
    requires c <= k <= |cells| && cell.kind.Made? && forall y | c <= y < k :: cells[y].kind.Made?
    ensures NextBase(WithCell(cells, k, cell), k + 1) == Moved(k, NextBase(cells, c))
  {
    hide WithCell;
    NextBaseFrom(cells, c, k);
    NextBaseIs(WithCell(cells, k, cell), k, cell, cells, k + 1, NextBase(cells, k));
  }

  lemma {:induction false} NewOrigin<T>(log: Log<T>, s: Sides, lv: nat, c: nat, k: nat, cell: Cell)
    requires Linked(log, s) && lv < |log.g| && InGraph(log.g, log.g[lv]) && c <= k <= |s.cells| == |s.full.order|
    requires cell.kind.Made? && cell.full.opId == lv && cell.full.originLeft == LeftOf(s.cells, c) && cell.held.originLeft == HeldLeftOf(s.cells, c)
    requires forall y | c <= y < k :: s.cells[y].kind.Made?
    requires c > 0 ==> !s.cells[c - 1].kind.Gone? && ViewAt(s.full, Hist(log.g, log.g[lv]))[c - 1].curState == INSERTED
    ensures HasOrigin(log, WithCell(s.cells, k, cell), k)
  {
    hide TargetsSame, BallastOk, DistinctOrder, HeldOrder, HasOrigin, HasRight, Hist, DeletesOf, EndState, WithCell, SameGap;
    var cells' := WithCell(s.cells, k, cell);
    NewSameGap(s.cells, k, cell, c);
    if c > 0 {
      assert cells'[Moved(k, c - 1)] == s.cells[c - 1];
      assert CellOk(log, s.b, s.cells, s.ballast, c - 1);
      assert s.full.order[c - 1] == s.cells[c - 1].full;
    }
    OriginThere(log, cells', k, c - 1);
  }

  lemma {:induction false} OriginThere<T>(log: Log<T>, cells: seq<Cell>, c: nat, o: int)
    requires ValidLog(log) && c < |cells| && OriginAt(log, cells, c, o)
    ensures HasOrigin(log, cells, c)
  {
  }

  lemma {:induction false} NewSameGap(cells: seq<Cell>, k: nat, cell: Cell, c: nat)
    requires c <= k <= |cells| && cell.kind.Made? && forall y | c <= y < k :: cells[y].kind.Made?
    ensures SameGap(WithCell(cells, k, cell), c - 1, k)
  {
    hide WithCell;
    var cells' := WithCell(cells, k, cell);
    forall x | c - 1 < x <= k && 0 <= x < |cells'|
      ensures cells'[x].kind.Made?
    {
      if x != k { assert cells'[x] == cells[MovedFrom(k, x)]; }
    }
  }

  /** The left origins of an insert after cell `c - 1`. */
  lemma {:induction false} NewLeft<T>(log: Log<T>, s: Sides, lv: nat, c: nat)
    requires Linked(log, s) && lv < |log.g| && InGraph(log.g, log.g[lv]) && c <= |s.cells| == |s.full.order|
    requires HeldIdx(s.cells, c) <= |s.held.order|
    requires if c == 0 then HeldIdx(s.cells, c) == 0 else !s.cells[c - 1].kind.Gone? && HeldIdx(s.cells, c - 1) == HeldIdx(s.cells, c) - 1
    ensures NewPlaced(log, s.full, lv, c) == Placed(lv, LeftOf(s.cells, c), RightParentAt(ViewAt(s.full, Hist(log.g, log.g[lv])), c, LeftOf(s.cells, c)))
    ensures NewPlaced(log, s.held, lv, HeldIdx(s.cells, c)) ==
            Placed(lv, HeldLeftOf(s.cells, c), RightParentAt(ViewAt(s.held, Hist(log.g, log.g[lv])), HeldIdx(s.cells, c), HeldLeftOf(s.cells, c)))
  {
    hide CellsOk, TargetsSame, BallastOk, DistinctOrder, Hist, HeldIdx, RightParentAt, StateAt, EndState, HeldOrder, FullOrder;
    if c > 0 { HeldAt(s, c - 1); }
  }

  lemma {:induction false} InsertLinked<T>(log: Log<T>, s: Sides, done: set<nat>, lv: nat, k: nat, cell: Cell, s': Sides)
    requires InStep(log, s, done) && NextIn(log, s, done, lv) && log.ops[lv].Ins? && k <= |s.cells| == |s.full.order|
    requires cell.kind.Made? && cell.full.opId == lv && CellOk(log, s.b, WithCell(s.cells, k, cell), s.ballast, k)
    requires HeldIdx(s.cells, k) <= |s.held.order|
    requires s' == Sides(s.b, WithCell(s.cells, k, cell), s.ballast, Doc(OrderWith(s.full.order, k, cell.full), s.full.targets),
                         Doc(OrderWith(s.held.order, HeldIdx(s.cells, k), cell.held), s.held.targets))
    ensures DistinctOrder(s'.full.order) && DistinctOrder(s'.held.order) ==> Linked(log, s')
  {
    hide CellOk, CellsOk, TargetsSame, BallastOk, DistinctOrder, Hist, HeldIdx, WithCell, OrderWith, HeldOrder, FullOrder, OriginsOrdered;
    CellsOkWith(log, s.b, s.cells, k, cell, s.ballast);
    OrdersWith(s.cells, k, cell, s.ballast);
    assert !InOrder(s.full.order, lv);
    TargetsWith(s.b, s.cells, k, cell, s.full.targets, s.held.targets);
  }

  /** An insert on both sides. */
  lemma {:induction false} InsertOnBoth<T>(log: Log<T>, s: Sides, done: set<nat>, lv: nat) returns (s': Sides)
    requires InStep(log, s, done) && NextIn(log, s, done, lv) && log.ops[lv].Ins? && DocApply(log, s.full, lv).Some?
    ensures DocApply(log, s.held, lv).Some?
    ensures s'.b == s.b && s'.ballast == s.ballast && s'.full == DocApply(log, s.full, lv).value.0 && s'.held == DocApply(log, s.held, lv).value.0
    ensures DocApply(log, s.full, lv).value.1 == DocApply(log, s.held, lv).value.1
    ensures DistinctOrder(s'.full.order) && DistinctOrder(s'.held.order) ==> Linked(log, s')
  {
    hide Linked, Replayed, Hist, Visible, EndVisible, HeldIdx, ViewAt, DistinctOrder, WithCell, OrderWith, RightAt, Integrate, CursorAt, RightParentAt;
    var v, pos := Hist(log.g, log.g[lv]), log.ops[lv].pos;
    LogSizes(log, s);
    HistClosed(log.g, log.g[lv]);
    var f, h := ViewAt(s.full, v), ViewAt(s.held, v);
    var c := CursorAt(f, pos).value;
    SameCursor(log, s, v, pos);
    var hc := HeldIdx(s.cells, c);
    NewLeft(log, s, lv, c);
    var r := SameRight(log, s, v, c);
    var p, q := NewPlaced(log, s.full, lv, c), NewPlaced(log, s.held, lv, hc);
    ViewRefersInside(log, {}, s.b + done, s.full, v);
    IntegrateSucceeds(f, log.ids, lv, c, p.originLeft);
    var k := Integrate(f, log.ids, lv, p.rightParent, c).value;
    SamePlace(log, s, v, lv, c, p.rightParent, q.rightParent, r);
    SameVisible(log, s, v, k);
    InsertApplies(log, s.full, lv, c, k);
    InsertApplies(log, s.held, lv, hc, HeldIdx(s.cells, k));
    NewCellOk(log, s, done, lv, c, r, k);
    s' := Sides(s.b, WithCell(s.cells, k, Cell(Made, p, q)), s.ballast, DocApply(log, s.full, lv).value.0, DocApply(log, s.held, lv).value.0);
    InsertLinked(log, s, done, lv, k, Cell(Made, p, q), s');
  }

  // ---- The surplus ----

  /** No delete that was replayed on both sides hits a surplus placeholder. */
  lemma {:induction false} BallastNotHit<T>(log: Log<T>, s: Sides, i: nat, d: nat)
    requires Linked(log, s) && i < |s.ballast| && d in s.held.targets
    ensures s.held.targets[d] != s.ballast[i].opId
  {
    hide CellsOk, BallastOk, HeldOrder, FullOrder, HeldIdx;
    assert HitSame(s.cells, s.full.targets[d], s.held.targets[d]);
    var c :| 0 <= c < |s.cells| && !s.cells[c].kind.Gone? && s.cells[c].full.opId == s.full.targets[d] && s.cells[c].held.opId == s.held.targets[d];
    HeldNext(s.cells, c);
    var j := |HeldOrder(s.cells)| + i;
    assert s.held.order[j] == s.ballast[i] && s.held.order[HeldIdx(s.cells, c)] == s.cells[c].held;
  }

  lemma {:induction false} BallastShows<T>(log: Log<T>, s: Sides, v: set<nat>, i: nat)
    requires Linked(log, s) && i < |s.ballast|
    ensures |HeldOrder(s.cells)| + |s.ballast| == |s.held.order|
    ensures ViewAt(s.held, v)[|HeldOrder(s.cells)| + i].curState == ViewAt(s.held, v)[|HeldOrder(s.cells)| + i].endState == INSERTED
  {
    hide CellsOk, HeldOrder, FullOrder, TargetsSame, DistinctOrder;
    var id := s.ballast[i].opId;
    forall d | d in s.held.targets
      ensures s.held.targets[d] != id
    {
      BallastNotHit(log, s, i, d);
    }
    assert DeletesOf(s.held.targets, v, id) == {};
    assert s.held.order[|HeldOrder(s.cells)| + i] == s.ballast[i];
  }

  /** What is visible on the placeholder side is what is visible in the full document, and the surplus. */
  lemma {:induction false} SurplusVisible<T>(log: Log<T>, s: Sides, v: set<nat>)
    requires Linked(log, s) && s.b <= v
    ensures |Visible(ViewAt(s.held, v))| == |Visible(ViewAt(s.full, v))| + |s.ballast|
  {
    hide Linked, ViewAt, Visible, EndVisible, HeldIdx, HeldOrder;
    var f, h, n := ViewAt(s.full, v), ViewAt(s.held, v), |HeldOrder(s.cells)|;
    LogSizes(log, s);
    HeldEnds(s.cells);
    SameVisible(log, s, v, |s.cells|);
    BallastSize(log, s);
    forall i | 0 <= i < |s.ballast|
      ensures h[n..][i].curState == INSERTED && h[n..][i].endState == INSERTED
    {
      BallastShows(log, s, v, i);
    }
    AllVisible(h[n..]);
    VisibleConcat(h[..n], h[n..]);
    assert h == h[..n] + h[n..] && f[..|s.cells|] == f;
  }

  lemma {:induction false} BallastSize<T>(log: Log<T>, s: Sides)
    requires Linked(log, s)
    ensures |s.held.order| == |HeldOrder(s.cells)| + |s.ballast|
  {
    hide CellsOk, HeldOrder, FullOrder, TargetsSame, DistinctOrder;
  }

  /** An operation fits the full document exactly when it fits what is before the surplus. */
  lemma {:induction false} FitsBoth<T>(log: Log<T>, s: Sides, done: set<nat>, lv: nat)
    requires InStep(log, s, done) && NextIn(log, s, done, lv)
    ensures InRange(log, s.full, lv) <==> InRealRange(log, s.held, |s.ballast|, lv)
  {
    hide Linked, Replayed, ViewAt, Visible, Hist;
    SurplusVisible(log, s, Hist(log.g, log.g[lv]));
  }
}
