/** Tables kept row by row in one flat array, as all the aligners keep theirs. */
module Flat {

  /** The position of cell (i, j) when a row has stride cells. */
  function Cell(stride: nat, i: nat, j: nat): nat {
    i * stride + j
  }

  lemma CellBound(stride: nat, rows: nat, i: nat, j: nat)
    requires i < rows && j < stride
    ensures Cell(stride, i, j) < rows * stride
  {
    assert (i + 1) * stride <= rows * stride;
  }

  lemma CellInjective(stride: nat, i: nat, j: nat, i2: nat, j2: nat)
    requires j < stride && j2 < stride && Cell(stride, i, j) == Cell(stride, i2, j2)
    ensures i == i2 && j == j2
  {
    assert i < i2 ==> (i + 1) * stride <= i2 * stride;
    assert i2 < i ==> (i2 + 1) * stride <= i * stride;
  }

  /** What a flat array holds, read as a table with rows of stride cells starting at off. */
  ghost function Read(dp: seq<int>, off: nat, stride: nat, i: nat, j: nat): int {
    if off + Cell(stride, i, j) < |dp| then dp[off + Cell(stride, i, j)] else 0
  }

  /** Writing one cell changes that cell and no other. */
  lemma WriteCell(dp: seq<int>, off: nat, stride: nat, rows: nat, i: nat, j: nat, v: int)
    requires i < rows && j < stride && off + rows * stride <= |dp|
    ensures off + Cell(stride, i, j) < |dp|
    ensures var r := dp[off + Cell(stride, i, j) := v];
            && Read(r, off, stride, i, j) == v
            && forall i2: nat, j2: nat :: i2 < rows && j2 < stride && (i2 != i || j2 != j) ==>
                 Read(r, off, stride, i2, j2) == Read(dp, off, stride, i2, j2)
  {
    CellBound(stride, rows, i, j);
    forall i2: nat, j2: nat | i2 < rows && j2 < stride && (i2 != i || j2 != j)
      ensures Read(dp[off + Cell(stride, i, j) := v], off, stride, i2, j2) == Read(dp, off, stride, i2, j2)
    {
      CellBound(stride, rows, i2, j2);
      if Cell(stride, i2, j2) == Cell(stride, i, j) { CellInjective(stride, i, j, i2, j2); }
    }
  }

  lemma ReadCell(dp: seq<int>, off: nat, stride: nat, rows: nat, i: nat, j: nat)
    requires i < rows && j < stride && off + rows * stride <= |dp|
    ensures off + Cell(stride, i, j) < |dp| && Read(dp, off, stride, i, j) == dp[off + Cell(stride, i, j)]
  {
    CellBound(stride, rows, i, j);
  }
}
