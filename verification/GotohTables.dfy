/** The three layers of the alignment table in one flat buffer, and the rows that a traceback emits. */
module GotohTables {
  import opened Flat
  import opened Gotoh
  import opened Numbers

  function Layer(op: Op): nat {
    match op
    case Pair => 0
    case Del => 1
    case Ins => 2
  }

  /** Where layer op keeps cell (i, j) of an (m+1) by (n+1) table. */
  function Slot(m: nat, n: nat, op: Op, i: nat, j: nat): nat {
    Layer(op) * ((m + 1) * (n + 1)) + i * (n + 1) + j
  }

  function Size(m: nat, n: nat): nat {
    3 * ((m + 1) * (n + 1))
  }

  lemma SlotIsCell(m: nat, n: nat, op: Op, i: nat, j: nat)
    ensures Slot(m, n, op, i, j) == Cell(n + 1, Layer(op) * (m + 1) + i, j)
    ensures i <= m && j <= n ==> Slot(m, n, op, i, j) < Size(m, n)
  {
    assert (Layer(op) * (m + 1) + i) * (n + 1) == Layer(op) * ((m + 1) * (n + 1)) + i * (n + 1);
    if i <= m && j <= n { CellBound(n + 1, m + 1, i, j); }
  }

  lemma SlotInjective(m: nat, n: nat, op: Op, i: nat, j: nat, op2: Op, i2: nat, j2: nat)
    requires i <= m && i2 <= m && j <= n && j2 <= n && Slot(m, n, op, i, j) == Slot(m, n, op2, i2, j2)
    ensures op == op2 && i == i2 && j == j2
  {
    SlotIsCell(m, n, op, i, j);
    SlotIsCell(m, n, op2, i2, j2);
    CellInjective(n + 1, Layer(op) * (m + 1) + i, j, Layer(op2) * (m + 1) + i2, j2);
    CellInjective(m + 1, Layer(op), i, Layer(op2), i2);
  }

  /** What the buffer holds for layer op of cell (i, j). */
  ghost function At(dp: seq<int>, m: nat, n: nat, op: Op, i: nat, j: nat): int {
    if Slot(m, n, op, i, j) < |dp| then dp[Slot(m, n, op, i, j)] else 0
  }

  lemma WriteAt(dp: seq<int>, m: nat, n: nat, op: Op, i: nat, j: nat, v: int)
    requires |dp| >= Size(m, n) && i <= m && j <= n
    ensures Slot(m, n, op, i, j) < |dp|
    ensures At(dp[Slot(m, n, op, i, j) := v], m, n, op, i, j) == v
    ensures forall op2, i2: nat, j2: nat :: i2 <= m && j2 <= n && (op2 != op || i2 != i || j2 != j) ==>
      At(dp[Slot(m, n, op, i, j) := v], m, n, op2, i2, j2) == At(dp, m, n, op2, i2, j2)
  {
    SlotIsCell(m, n, op, i, j);
    forall op2, i2: nat, j2: nat | i2 <= m && j2 <= n && (op2 != op || i2 != i || j2 != j)
      ensures At(dp[Slot(m, n, op, i, j) := v], m, n, op2, i2, j2) == At(dp, m, n, op2, i2, j2)
    {
      SlotIsCell(m, n, op2, i2, j2);
      if Slot(m, n, op2, i2, j2) == Slot(m, n, op, i, j) { SlotInjective(m, n, op, i, j, op2, i2, j2); }
    }
  }

  // ---------------------------------------------------------------- the fill

  /** All three layers of cell (i, j) are right. */
  ghost predicate Holds(g: Table, dp: seq<int>, m: nat, n: nat, i: nat, j: nat) {
    && At(dp, m, n, Pair, i, j) == T(g, Pair, i, j)
    && At(dp, m, n, Del, i, j) == T(g, Del, i, j)
    && At(dp, m, n, Ins, i, j) == T(g, Ins, i, j)
  }

  /** The cells that are right once the fill has come to column c of row r. */
  ghost predicate Due(g: Table, r: nat, c: nat, i: nat, j: nat) {
    i == 0 || j == 0 || !g.fills(i, j) || i < r || (i == r && j < c)
  }

  ghost predicate Filled(g: Table, dp: seq<int>, m: nat, n: nat, r: nat, c: nat) {
    && |dp| >= Size(m, n)
    && forall i: nat, j: nat :: i <= m && j <= n && Due(g, r, c, i, j) ==> Holds(g, dp, m, n, i, j)
  }

  /** The whole table is right. */
  ghost predicate Complete(g: Table, dp: seq<int>, m: nat, n: nat) {
    && |dp| >= Size(m, n)
    && forall i: nat, j: nat :: i <= m && j <= n ==> Holds(g, dp, m, n, i, j)
  }

  /** Three writes change one cell and no other. */
  lemma PutFrame(g: Table, dp: seq<int>, m: nat, n: nat, i: nat, j: nat, vM: int, vIx: int, vIy: int)
    requires |dp| >= Size(m, n) && i <= m && j <= n
    ensures Slot(m, n, Pair, i, j) < |dp| && Slot(m, n, Del, i, j) < |dp| && Slot(m, n, Ins, i, j) < |dp|
    ensures var r := dp[Slot(m, n, Pair, i, j) := vM][Slot(m, n, Del, i, j) := vIx][Slot(m, n, Ins, i, j) := vIy];
            && (vM == T(g, Pair, i, j) && vIx == T(g, Del, i, j) && vIy == T(g, Ins, i, j) ==> Holds(g, r, m, n, i, j))
            && forall k: nat, l: nat :: k <= m && l <= n && (k != i || l != j) && Holds(g, dp, m, n, k, l) ==>
                 Holds(g, r, m, n, k, l)
  {
    hide T;
    WriteAt(dp, m, n, Pair, i, j, vM);
    var dp1 := dp[Slot(m, n, Pair, i, j) := vM];
    WriteAt(dp1, m, n, Del, i, j, vIx);
    var dp2 := dp1[Slot(m, n, Del, i, j) := vIx];
    WriteAt(dp2, m, n, Ins, i, j, vIy);
    hide At, Slot, Size;
  }

  method Put(dp: array<int>, m: nat, n: nat, i: nat, j: nat, vM: int, vIx: int, vIy: int, ghost g: Table)
    requires dp.Length >= Size(m, n) && i <= m && j <= n
    modifies dp
    ensures vM == T(g, Pair, i, j) && vIx == T(g, Del, i, j) && vIy == T(g, Ins, i, j) ==> Holds(g, dp[..], m, n, i, j)
    ensures forall k: nat, l: nat :: k <= m && l <= n && (k != i || l != j) && Holds(g, old(dp[..]), m, n, k, l) ==>
      Holds(g, dp[..], m, n, k, l)
  {
    hide Holds;
    PutFrame(g, dp[..], m, n, i, j, vM, vIx, vIy);
    dp[Slot(m, n, Pair, i, j)] := vM;
    dp[Slot(m, n, Del, i, j)] := vIx;
    dp[Slot(m, n, Ins, i, j)] := vIy;
    assert dp[..]
      == old(dp[..])[Slot(m, n, Pair, i, j) := vM][Slot(m, n, Del, i, j) := vIx][Slot(m, n, Ins, i, j) := vIy];
  }

  /** The recurrence, read off three right cells. */
  lemma CellValues(g: Table, dp: seq<int>, m: nat, n: nat, i: nat, j: nat)
    requires 0 < i <= m && 0 < j <= n && g.fills(i, j)
    requires Holds(g, dp, m, n, i - 1, j - 1) && Holds(g, dp, m, n, i - 1, j) && Holds(g, dp, m, n, i, j - 1)
    ensures T(g, Pair, i, j)
         == Max3(At(dp, m, n, Pair, i - 1, j - 1), At(dp, m, n, Del, i - 1, j - 1), At(dp, m, n, Ins, i - 1, j - 1))
            + g.score(i - 1, j - 1)
    ensures T(g, Del, i, j)
         == Max3(At(dp, m, n, Pair, i - 1, j) + GAP_OPEN, At(dp, m, n, Del, i - 1, j) + GAP_EXTEND,
                 At(dp, m, n, Ins, i - 1, j) + GAP_OPEN)
    ensures T(g, Ins, i, j)
         == Max3(At(dp, m, n, Pair, i, j - 1) + GAP_OPEN, At(dp, m, n, Del, i, j - 1) + GAP_OPEN,
                 At(dp, m, n, Ins, i, j - 1) + GAP_EXTEND)
  {
    hide At, Max3;
  }

  /** The three layers of an inner cell, from the cells above, to the left and diagonally before it. */
  method FillCell(dp: array<int>, m: nat, n: nat, i: nat, j: nat, score: int, ghost g: Table)
    requires 0 < i <= m && 0 < j <= n && g.fills(i, j) && score == g.score(i - 1, j - 1)
    requires Filled(g, dp[..], m, n, i, j)
    modifies dp
    ensures Filled(g, dp[..], m, n, i, j + 1)
  {
    hide T, At, Holds, Slot, Max3;
    assert Due(g, i, j, i - 1, j - 1) && Due(g, i, j, i - 1, j) && Due(g, i, j, i, j - 1);
    CellValues(g, dp[..], m, n, i, j);
    var diagM, diagIx, diagIy := Three(dp, m, n, i - 1, j - 1);
    var upM, upIx, upIy := Three(dp, m, n, i - 1, j);
    var leftM, leftIx, leftIy := Three(dp, m, n, i, j - 1);
    Put(dp, m, n, i, j,
        Max3(diagM, diagIx, diagIy) + score,
        Max3(upM + GAP_OPEN, upIx + GAP_EXTEND, upIy + GAP_OPEN),
        Max3(leftM + GAP_OPEN, leftIx + GAP_OPEN, leftIy + GAP_EXTEND), g);
    forall k: nat, l: nat | k <= m && l <= n && Due(g, i, j + 1, k, l) ensures Holds(g, dp[..], m, n, k, l) {
      if k != i || l != j { assert Due(g, i, j, k, l); }
    }
  }

  /** The three layers of one cell. */
  method Three(dp: array<int>, m: nat, n: nat, i: nat, j: nat) returns (vM: int, vIx: int, vIy: int)
    requires dp.Length >= Size(m, n) && i <= m && j <= n
    ensures vM == At(dp[..], m, n, Pair, i, j) && vIx == At(dp[..], m, n, Del, i, j)
    ensures vIy == At(dp[..], m, n, Ins, i, j)
  {
    SlotIsCell(m, n, Pair, i, j);
    SlotIsCell(m, n, Del, i, j);
    SlotIsCell(m, n, Ins, i, j);
    vM := dp[Slot(m, n, Pair, i, j)];
    vIx := dp[Slot(m, n, Del, i, j)];
    vIy := dp[Slot(m, n, Ins, i, j)];
  }
}
