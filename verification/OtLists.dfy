/** Lists of operations rewritten against each other: the grid of single rewrites that
    `transform_list` walks through, row by row. */
module OtLists {
  import opened OtUnits

  type Op = seq<Unit>

  predicate AllFit(ops: seq<Op>, doc: string)
    decreases |ops|
  {
    ops != [] ==> Fits(ops[0], doc) && AllFit(ops[1..], Apply(ops[0], doc))
  }

  function ApplyAll(ops: seq<Op>, doc: string): string
    requires AllFit(ops, doc)
    decreases |ops|
  {
    if ops == [] then doc else ApplyAll(ops[1..], Apply(ops[0], doc))
  }

  /** The list after one other operation has been carried through it. */
  function RowOps(ops: seq<Op>, other: Op, isLeft: bool): (r: seq<Op>)
    ensures |r| == |ops|
    decreases |ops|
  {
    if ops == [] then []
    else [Transformed(ops[0], other, isLeft)] + RowOps(ops[1..], Transformed(other, ops[0], !isLeft), isLeft)
  }

  /** The other operation after it has been carried through the list. */
  function RowOut(ops: seq<Op>, other: Op, isLeft: bool): Op
    decreases |ops|
  {
    if ops == [] then other else RowOut(ops[1..], Transformed(other, ops[0], !isLeft), isLeft)
  }

  /** The list rewritten to apply after all the others. */
  function ListRewritten(ops: seq<Op>, others: seq<Op>, isLeft: bool): (r: seq<Op>)
    ensures |r| == |ops|
    decreases |others|
  {
    if others == [] then ops else ListRewritten(RowOps(ops, others[0], isLeft), others[1..], isLeft)
  }

  /** The others as they leave the grid on the far side. */
  ghost function OthersOut(ops: seq<Op>, others: seq<Op>, isLeft: bool): seq<Op>
    decreases |others|
  {
    if others == [] then []
    else [RowOut(ops, others[0], isLeft)] + OthersOut(RowOps(ops, others[0], isLeft), others[1..], isLeft)
  }

  lemma {:induction false} RowConverges(ops: seq<Op>, other: Op, doc: string, isLeft: bool)
    requires AllFit(ops, doc) && Fits(other, doc)
    ensures AllFit(RowOps(ops, other, isLeft), Apply(other, doc)) && Fits(RowOut(ops, other, isLeft), ApplyAll(ops, doc))
    ensures ApplyAll(RowOps(ops, other, isLeft), Apply(other, doc)) == Apply(RowOut(ops, other, isLeft), ApplyAll(ops, doc))
    decreases |ops|
  {
    hide Apply, Transformed, Fits;
    if ops != [] {
      var other' := Transformed(other, ops[0], !isLeft);
      TransformedConverges(ops[0], other, doc, isLeft);
      RowConverges(ops[1..], other', Apply(ops[0], doc), isLeft);
      assert RowOps(ops, other, isLeft)[1..] == RowOps(ops[1..], other', isLeft);
    }
  }

  lemma {:induction false} GridConverges(ops: seq<Op>, others: seq<Op>, doc: string, isLeft: bool)
    requires AllFit(ops, doc) && AllFit(others, doc)
    ensures AllFit(ListRewritten(ops, others, isLeft), ApplyAll(others, doc)) && AllFit(OthersOut(ops, others, isLeft), ApplyAll(ops, doc))
    ensures ApplyAll(ListRewritten(ops, others, isLeft), ApplyAll(others, doc)) == ApplyAll(OthersOut(ops, others, isLeft), ApplyAll(ops, doc))
    decreases |others|
  {
    hide Apply, Transformed, Fits, RowOps, RowOut;
    if others != [] {
      RowConverges(ops, others[0], doc, isLeft);
      GridConverges(RowOps(ops, others[0], isLeft), others[1..], Apply(others[0], doc), isLeft);
      assert OthersOut(ops, others, isLeft)[1..] == OthersOut(RowOps(ops, others[0], isLeft), others[1..], isLeft);
    }
  }

  lemma {:induction false} NoRows(others: seq<Op>, isLeft: bool)
    ensures OthersOut([], others, isLeft) == others
    decreases |others|
  {
    if others != [] { NoRows(others[1..], isLeft); }
  }

  /** Taking the first column of the grid off. */
  lemma {:induction false} FirstColumn(ops: seq<Op>, others: seq<Op>, isLeft: bool)
    requires ops != []
    ensures OthersOut(ops, others, isLeft) == OthersOut(ops[1..], RowOps(others, ops[0], !isLeft), isLeft)
    decreases |others|
  {
    hide Transformed;
    if others != [] {
      var x, o := ops[0], others[0];
      var x', o' := Transformed(x, o, isLeft), Transformed(o, x, !isLeft);
      var row := RowOps(ops, o, isLeft);
      assert !!isLeft == isLeft;
      assert row[0] == x' && row[1..] == RowOps(ops[1..], o', isLeft);
      FirstColumn(row, others[1..], isLeft);
      var column := RowOps(others, x, !isLeft);
      assert column[0] == o' && column[1..] == RowOps(others[1..], x', !isLeft);
    }
  }

  /** The grid reads the same by rows and by columns: what comes out on the far side is the other
      list rewritten the other way round. */
  lemma {:induction false} GridSymmetric(ops: seq<Op>, others: seq<Op>, isLeft: bool)
    ensures OthersOut(ops, others, isLeft) == ListRewritten(others, ops, !isLeft)
    decreases |ops|
  {
    if ops == [] {
      NoRows(others, isLeft);
    } else {
      FirstColumn(ops, others, isLeft);
      GridSymmetric(ops[1..], RowOps(others, ops[0], !isLeft), isLeft);
    }
  }

  /** TP1 lifted to lists: either list followed by the other, rewritten, gives the same document. */
  lemma {:induction false} ListsConverge(ops: seq<Op>, others: seq<Op>, doc: string, isLeft: bool)
    requires AllFit(ops, doc) && AllFit(others, doc)
    ensures AllFit(ListRewritten(ops, others, isLeft), ApplyAll(others, doc))
    ensures AllFit(ListRewritten(others, ops, !isLeft), ApplyAll(ops, doc))
    ensures ApplyAll(ListRewritten(ops, others, isLeft), ApplyAll(others, doc)) ==
            ApplyAll(ListRewritten(others, ops, !isLeft), ApplyAll(ops, doc))
  {
    GridConverges(ops, others, doc, isLeft);
    GridSymmetric(ops, others, isLeft);
  }
}
