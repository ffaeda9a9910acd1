/** The affine-gap alignment of one gap between anchors: its three-layer table, its traceback, and what both are
    worth. */
module Gotoh {
  import opened Lists
  import opened Numbers

  const GAP_OPEN := -15
  const GAP_EXTEND := -2
  const NEG_INF := -1000000

  /** The largest number of lines on either side for which the sentinel stays strictly below every real value. */
  const SAFE_SIDE := 499986

  /** One row of the alignment, and the table layer that ends with it: both lines, a source line, a target line. */
  datatype Op = Pair | Del | Ins

  /** What pairing source line i with target line j of the gap is worth. */
  type LineScore = (nat, nat) -> int

  /** What a fill works from: the line score, and the inner cells it visits; the others keep the sentinel. */
  datatype Table = Table(score: LineScore, fills: (nat, nat) -> bool)

  predicate Everywhere(i: nat, j: nat) {
    true
  }

  /** The dense fill visits every cell. */
  function Dense(s: LineScore): Table {
    Table(s, Everywhere)
  }

  // ---------------------------------------------------------------- alignments and their score

  function Rows(ops: seq<Op>): nat {
    if ops == [] then 0 else (if ops[0] == Ins then 0 else 1) + Rows(ops[1..])
  }

  function Cols(ops: seq<Op>): nat {
    if ops == [] then 0 else (if ops[0] == Del then 0 else 1) + Cols(ops[1..])
  }

  /** An alignment of m source lines with n target lines. */
  ghost predicate IsAlignment(ops: seq<Op>, m: nat, n: nat) {
    Rows(ops) == m && Cols(ops) == n
  }

  /** Where a row leads from (i, j). */
  function Down(op: Op, i: nat): nat {
    if op == Ins then i else i + 1
  }

  function Right(op: Op, j: nat): nat {
    if op == Del then j else j + 1
  }

  /** The rows ops, taken from (i, j) on, only reach inner cells that the fill visits. */
  ghost predicate Inside(g: Table, i: nat, j: nat, ops: seq<Op>)
    decreases |ops|
  {
    ops == [] ||
    var i2, j2 := Down(ops[0], i), Right(ops[0], j);
    (i2 > 0 && j2 > 0 ==> g.fills(i2, j2)) && Inside(g, i2, j2, ops[1..])
  }

  /** A gap is opened unless the row before was a gap of the same kind. */
  function Gap(prev: Op, op: Op): int {
    if prev == op then GAP_EXTEND else GAP_OPEN
  }

  /** What the rows ops add after i source and j target lines, the last row having been prev. */
  ghost function Cost(s: LineScore, prev: Op, i: nat, j: nat, ops: seq<Op>): int
    decreases |ops|
  {
    if ops == [] then 0
    else
      (if ops[0] == Pair then s(i, j) else Gap(prev, ops[0]))
      + Cost(s, ops[0], Down(ops[0], i), Right(ops[0], j), ops[1..])
  }

  /** The affine-gap score of an alignment. */
  ghost function Score(s: LineScore, ops: seq<Op>): int {
    Cost(s, Pair, 0, 0, ops)
  }

  // ---------------------------------------------------------------- the table

  /** The recurrence of the table, sentinel included. */
  ghost function T(g: Table, op: Op, i: nat, j: nat): int
    decreases i + j, 0
  {
    match op
    case Pair =>
      if i == 0 && j == 0 then 0
      else if i == 0 || j == 0 || !g.fills(i, j) then NEG_INF
      else Best(g, i - 1, j - 1) + g.score(i - 1, j - 1)
    case Del =>
      if i == 0 then NEG_INF
      else if j == 0 then GAP_OPEN + (i - 1) * GAP_EXTEND
      else if !g.fills(i, j) then NEG_INF
      else Max3(T(g, Pair, i - 1, j) + GAP_OPEN, T(g, Del, i - 1, j) + GAP_EXTEND, T(g, Ins, i - 1, j) + GAP_OPEN)
    case Ins =>
      if j == 0 then NEG_INF
      else if i == 0 then GAP_OPEN + (j - 1) * GAP_EXTEND
      else if !g.fills(i, j) then NEG_INF
      else Max3(T(g, Pair, i, j - 1) + GAP_OPEN, T(g, Del, i, j - 1) + GAP_OPEN, T(g, Ins, i, j - 1) + GAP_EXTEND)
  }

  ghost function Best(g: Table, i: nat, j: nat): int
    decreases i + j, 1
  {
    Max3(T(g, Pair, i, j), T(g, Del, i, j), T(g, Ins, i, j))
  }

  /** A layer that some alignment of i and j lines can end with. */
  predicate Genuine(op: Op, i: nat, j: nat) {
    match op
    case Pair => (i == 0 && j == 0) || (i > 0 && j > 0)
    case Del => i > 0
    case Ins => j > 0
  }

  /** One more row costs what the recurrence says at least. */
  lemma StepBound(g: Table, prev: Op, op: Op, i: nat, j: nat)
    requires Genuine(prev, i, j) && (Down(op, i) > 0 && Right(op, j) > 0 ==> g.fills(Down(op, i), Right(op, j)))
    ensures T(g, prev, i, j)
      + (if op == Pair then g.score(i, j) else Gap(prev, op)) <= T(g, op, Down(op, i), Right(op, j))
  {
  }

  /** No alignment within the visited cells scores above the table's best value, whatever the sizes. */
  lemma {:induction false} CostBound(g: Table, prev: Op, i: nat, j: nat, ops: seq<Op>)
    requires Genuine(prev, i, j) && Inside(g, i, j, ops)
    ensures T(g, prev, i, j) + Cost(g.score, prev, i, j, ops) <= Best(g, i + Rows(ops), j + Cols(ops))
    decreases |ops|
  {
    if ops != [] {
      StepBound(g, prev, ops[0], i, j);
      CostBound(g, ops[0], Down(ops[0], i), Right(ops[0], j), ops[1..]);
    }
  }

  lemma {:induction false} InsideDense(s: LineScore, i: nat, j: nat, ops: seq<Op>)
    ensures Inside(Dense(s), i, j, ops)
    decreases |ops|
  {
    if ops != [] { InsideDense(s, Down(ops[0], i), Right(ops[0], j), ops[1..]); }
  }

  // ---------------------------------------------------------------- the traceback

  /** The layer the traceback moves to before a paired row. */
  function SelectState(mVal: int, ixVal: int, iyVal: int, i: nat, j: nat): Op {
    var best := Max3(mVal, ixVal, iyVal);
    if i == j then
      if mVal == best && i > 0 && j > 0 then Pair
      else if iyVal == best && j > 0 then Ins
      else if ixVal == best && i > 0 then Del
      else Pair
    else if i > j then
      if ixVal == best && iyVal != best && i > 0 then Del
      else if iyVal == best && j > 0 then Ins
      else if mVal == best && i > 0 && j > 0 then Pair
      else Del
    else
      if iyVal == best && j > 0 then Ins
      else if mVal == best && i > 0 && j > 0 then Pair
      else if ixVal == best && i > 0 then Del
      else Ins
  }

  function StartState(mVal: int, ixVal: int, iyVal: int, m: nat, n: nat): Op {
    var best := Max3(mVal, ixVal, iyVal);
    if iyVal == best && n > 0 then Ins
    else if ixVal == best && m > 0 then Del
    else if mVal == best && m > 0 && n > 0 then Pair
    else SelectState(mVal, ixVal, iyVal, m, n)
  }

  /** The layer before a deleted row, read off the cell (i-1, j). */
  function BeforeDel(val: int, m: int, ix: int, iy: int): Op {
    if val == ix + GAP_EXTEND then Del
    else if val == m + GAP_OPEN then Pair
    else Ins
  }

  /** The layer before an inserted row, read off the cell (i, j-1). */
  function BeforeIns(val: int, m: int, ix: int, iy: int): Op {
    if val == iy + GAP_EXTEND then Ins
    else if val == ix + GAP_OPEN then Del
    else Pair
  }

  /** The layer that the traceback takes to before the row op that ends at (i, j). */
  ghost function Previous(g: Table, op: Op, i: nat, j: nat): Op
    requires (op != Ins ==> i > 0) && (op != Del ==> j > 0)
  {
    match op
    case Pair => SelectState(T(g, Pair, i - 1, j - 1), T(g, Del, i - 1, j - 1), T(g, Ins, i - 1, j - 1), i - 1, j - 1)
    case Del =>
      if j == 0 then Del
      else BeforeDel(T(g, Del, i, j), T(g, Pair, i - 1, j), T(g, Del, i - 1, j), T(g, Ins, i - 1, j))
    case Ins =>
      if i == 0 then Ins
      else BeforeIns(T(g, Ins, i, j), T(g, Pair, i, j - 1), T(g, Del, i, j - 1), T(g, Ins, i, j - 1))
  }

  /** Where the row op that ends at (i, j) starts; None outside the gap. */
  function Up(op: Op, i: nat): Option<nat> {
    if op == Ins then Some(i) else if i > 0 then Some(i - 1) else None
  }

  function Left(op: Op, j: nat): Option<nat> {
    if op == Del then Some(j) else if j > 0 then Some(j - 1) else None
  }

  /** The traceback from (i, j) in layer op; None once it steps outside the gap. */
  ghost function Trace(g: Table, i: nat, j: nat, op: Op, tail: seq<Op>): Option<seq<Op>>
    decreases i + j
  {
    if i == 0 && j == 0 then Some(tail)
    else if Up(op, i).None? || Left(op, j).None? then None
    else Trace(g, Up(op, i).value, Left(op, j).value, Previous(g, op, i, j), [op] + tail)
  }

  ghost function Start(g: Table, m: nat, n: nat): Op {
    StartState(T(g, Pair, m, n), T(g, Del, m, n), T(g, Ins, m, n), m, n)
  }

  /** The whole route: from the corner, in the layer its tie-breaks choose. */
  ghost function Route(g: Table, m: nat, n: nat): Option<seq<Op>> {
    Trace(g, m, n, Start(g, m, n), [])
  }

  /** The row op that ends at (i, j) is worth the difference between its cell and the one before. */
  ghost predicate StepRight(g: Table, op: Op, i: nat, j: nat) {
    && Up(op, i).Some? && Left(op, j).Some?
    && var i0, j0, prev := Up(op, i).value, Left(op, j).value, Previous(g, op, i, j);
       (i0 > 0 || j0 > 0 ==> Genuine(prev, i0, j0)) &&
       T(g, op, i, j) == (if i0 == 0 && j0 == 0 then 0 else T(g, prev, i0, j0))
                         + (if op == Pair then g.score(i0, j0)
                            else if i0 == 0 && j0 == 0 then GAP_OPEN else Gap(prev, op))
  }

  /** The rows r lead to (i, j), whose layer op is worth its cell, and go on with tail. */
  ghost predicate Arrived(g: Table, i: nat, j: nat, op: Op, tail: seq<Op>, r: Option<seq<Op>>) {
    && r.Some? && Rows(r.value) == i + Rows(tail) && Cols(r.value) == j + Cols(tail)
    && Score(g.score, r.value) ==
       if i == 0 && j == 0 then Score(g.score, tail) else T(g, op, i, j) + Cost(g.score, op, i, j, tail)
  }

  /** A right step extends an arrival: the rows before it are worth its start, and it the difference. */
  lemma ArriveStep(g: Table, i: nat, j: nat, op: Op, tail: seq<Op>, r: Option<seq<Op>>)
    requires i + j > 0 && StepRight(g, op, i, j)
    requires Arrived(g, Up(op, i).value, Left(op, j).value, Previous(g, op, i, j), [op] + tail, r)
    ensures Arrived(g, i, j, op, tail, r)
  {
    assert ([op] + tail)[1..] == tail;
  }

  /** From every state ok vouches for, the traceback makes a right step to another such state or ends. */
  ghost predicate StepsRight(g: Table, ok: (Op, nat, nat) -> bool) {
    forall op, i: nat, j: nat :: ok(op, i, j) && i + j > 0 ==>
      && StepRight(g, op, i, j)
      && var i0, j0 := Up(op, i).value, Left(op, j).value; i0 + j0 > 0 ==> ok(Previous(g, op, i, j), i0, j0)
  }

  /** The traceback arrives: it covers every line once and collects exactly the value of the cell it starts from. */
  lemma {:induction false} TraceRight(g: Table, ok: (Op, nat, nat) -> bool, i: nat, j: nat, op: Op, tail: seq<Op>)
    requires StepsRight(g, ok) && (i + j > 0 ==> ok(op, i, j))
    ensures Arrived(g, i, j, op, tail, Trace(g, i, j, op, tail))
    decreases i + j
  {
    if i + j > 0 {
      var i0, j0 := Up(op, i).value, Left(op, j).value;
      TraceRight(g, ok, i0, j0, Previous(g, op, i, j), [op] + tail);
      ArriveStep(g, i, j, op, tail, Trace(g, i, j, op, tail));
    }
  }

  /** However it got there: a traceback that ends has listed every line once. */
  lemma {:induction false} TraceLists(g: Table, i: nat, j: nat, op: Op, tail: seq<Op>)
    ensures var r := Trace(g, i, j, op, tail);
            r.Some? ==> Rows(r.value) == i + Rows(tail) && Cols(r.value) == j + Cols(tail)
    decreases i + j
  {
    if i + j > 0 && Up(op, i).Some? && Left(op, j).Some? {
      TraceLists(g, Up(op, i).value, Left(op, j).value, Previous(g, op, i, j), [op] + tail);
      assert ([op] + tail)[1..] == tail;
    }
  }

  /** What a traceback is for: it emits every line once and no alignment within the visited cells scores higher. */
  ghost predicate Optimal(g: Table, m: nat, n: nat, r: Option<seq<Op>>) {
    && r.Some? && IsAlignment(r.value, m, n)
    && forall ops :: IsAlignment(ops, m, n) && Inside(g, 0, 0, ops) ==> Score(g.score, ops) <= Score(g.score, r.value)
  }

  lemma OptimalRoute(g: Table, ok: (Op, nat, nat) -> bool, m: nat, n: nat)
    requires m > 0 && n > 0 && StepsRight(g, ok) && ok(Start(g, m, n), m, n)
    ensures Optimal(g, m, n, Route(g, m, n)) && Score(g.score, Route(g, m, n).value) == Best(g, m, n)
  {
    TraceRight(g, ok, m, n, Start(g, m, n), []);
    forall ops | IsAlignment(ops, m, n) && Inside(g, 0, 0, ops) ensures Score(g.score, ops) <= Best(g, m, n) {
      CostBound(g, Pair, 0, 0, ops);
    }
  }
}
