/** The banded route over a large gap: only cells near the diagonal are filled, and the traceback may give up on
    them. */
module BandedAlign {
  import opened Lists
  import opened Gotoh
  import opened GotohDense
  import opened GotohTables
  import opened GridRows
  import opened DenseAlign
  import opened Numbers

  function BandWidth(m: nat, n: nat): nat {
    Max(64, (if m >= n then m - n else n - m) / 2 + 32)
  }

  /** Where the diagonal of the gap crosses row i, rounded down and up. */
  function FloorColumn(i: nat, m: nat, n: nat): nat
    requires m > 0
  {
    i * n / m
  }

  function CeilColumn(i: nat, m: nat, n: nat): nat
    requires m > 0
  {
    (i * n + m - 1) / m
  }

  lemma FloorColumnGrows(i: nat, m: nat, n: nat)
    requires m > 0
    ensures FloorColumn(i, m, n) <= FloorColumn(i + 1, m, n)
  {
    assert (i + 1) * n == i * n + n;
    DivGrows(i * n, i * n + n, m);
  }

  lemma NegativeFactor(x: int, m: nat)
    requires x * m < 0
    ensures x < 0
  {
  }

  lemma DivGrows(a: nat, b: nat, m: nat)
    requires m > 0 && a <= b
    ensures a / m <= b / m
  {
    assert (a / m - b / m - 1) * m == a / m * m - b / m * m - m;
    NegativeFactor(a / m - b / m - 1, m);
  }

  /** The ends of the band in row i before they are cut to the table. */
  function RawMin(i: nat, m: nat, n: nat): int
    requires m > 0
  {
    Min(Min(FloorColumn(i, m, n), i), i + n - m) - BandWidth(m, n)
  }

  function RawMax(i: nat, m: nat, n: nat): int
    requires m > 0
  {
    Max(Max(CeilColumn(i, m, n), i), i + n - m) + BandWidth(m, n)
  }

  function BandMin(i: nat, m: nat, n: nat): nat
    requires m > 0
  {
    if i <= 1 then 1 else Max(1, RawMin(i, m, n))
  }

  function BandMax(i: nat, m: nat, n: nat): nat
    requires m > 0
  {
    if i <= 1 then Min(n, Max(Max(CeilColumn(1, m, n), 0), n - m) + BandWidth(m, n))
    else Min(n, RawMax(i, m, n))
  }

  /** The table that the banded fill computes. */
  function Banded(s: LineScore, m: nat, n: nat): Table
    requires m > 0
  {
    Table(s, (i: nat, j: nat) => BandMin(i, m, n) <= j <= BandMax(i, m, n))
  }

  /** The band is connected: each of its rows starts at the border or below a cell of the row before. */
  lemma BandConnected(i: nat, m: nat, n: nat)
    requires 0 < i <= m && n > 0
    ensures BandMin(i, m, n) == 1 || (i > 1 && BandMin(i - 1, m, n) <= BandMin(i, m, n) <= BandMax(i - 1, m, n))
    ensures 1 <= BandMin(i, m, n) <= BandMax(i, m, n) <= n
    ensures i == m ==> BandMax(i, m, n) == n
  {
    hide FloorColumn, CeilColumn;
    if i > 1 { FloorColumnGrows(i - 1, m, n); }
  }

  /** A cell the banded table knows: filled, or on the border. */
  ghost predicate Known(g: Table, i: nat, j: nat) {
    i == 0 || j == 0 || g.fills(i, j)
  }

  lemma GapStep(g: Table, i: nat, j: nat)
    requires i > 0 && j > 0 && g.fills(i, j)
    ensures Best(g, i, j) >= Best(g, i - 1, j) + GAP_OPEN && Best(g, i, j) >= Best(g, i, j - 1) + GAP_OPEN
  {
  }

  /** No known cell is worth less than opening a gap at every step. */
  lemma {:induction false} BandFloor(s: LineScore, m: nat, n: nat, i: nat, j: nat)
    requires n > 0 && i <= m && m > 0 && j <= n && Known(Banded(s, m, n), i, j)
    ensures Best(Banded(s, m, n), i, j) >= -15 * (i + j)
    decreases i + j
  {
    if i > 0 && j > 0 {
      hide BandMin, BandMax;
      BandConnected(i, m, n);
      GapStep(Banded(s, m, n), i, j);
      if j > BandMin(i, m, n) || j == 1 {
        BandFloor(s, m, n, i, j - 1);
      } else {
        BandFloor(s, m, n, i - 1, j);
      }
    }
  }

  /** A state worth more than any alignment of the gap can lose. */
  ghost predicate High(g: Table, m: nat, n: nat, op: Op, i: nat, j: nat) {
    i <= m && j <= n && Genuine(op, i, j) && T(g, op, i, j) >= -15 * (m + n)
  }

  lemma HighPair(s: LineScore, m: nat, n: nat, i: nat, j: nat)
    requires m > 0 && n > 0 && m + n <= 60000 && forall i, j :: s(i, j) <= 65
    requires i > 0 && High(Banded(s, m, n), m, n, Pair, i, j)
    ensures var g := Banded(s, m, n);
            StepRight(g, Pair, i, j) && (i - 1 + j - 1 > 0 ==> High(g, m, n, Previous(g, Pair, i, j), i - 1, j - 1))
  {
    var g := Banded(s, m, n);
    assert Best(g, i - 1, j - 1) >= NEG_INF + 1;
    assert Known(g, i - 1, j - 1);
    BandFloor(s, m, n, i - 1, j - 1);
  }

  lemma HighDel(s: LineScore, m: nat, n: nat, i: nat, j: nat)
    requires m > 0 && n > 0 && m + n <= 60000 && High(Banded(s, m, n), m, n, Del, i, j)
    ensures var g := Banded(s, m, n);
            StepRight(g, Del, i, j) && (i - 1 + j > 0 ==> High(g, m, n, Previous(g, Del, i, j), i - 1, j))
  {
  }

  lemma HighIns(s: LineScore, m: nat, n: nat, i: nat, j: nat)
    requires m > 0 && n > 0 && m + n <= 60000 && High(Banded(s, m, n), m, n, Ins, i, j)
    ensures var g := Banded(s, m, n);
            StepRight(g, Ins, i, j) && (i + j - 1 > 0 ==> High(g, m, n, Previous(g, Ins, i, j), i, j - 1))
  {
  }

  lemma HighSteps(s: LineScore, m: nat, n: nat)
    requires m > 0 && n > 0 && m + n <= 60000 && forall i, j :: s(i, j) <= 65
    ensures StepsRight(Banded(s, m, n), (op: Op, i: nat, j: nat) => High(Banded(s, m, n), m, n, op, i, j))
  {
    var g := Banded(s, m, n);
    forall op, i: nat, j: nat | High(g, m, n, op, i, j) && i + j > 0
      ensures StepRight(g, op, i, j)
      ensures var i0, j0 := Up(op, i).value, Left(op, j).value;
              i0 + j0 > 0 ==> High(g, m, n, Previous(g, op, i, j), i0, j0)
    {
      match op
      case Pair => HighPair(s, m, n, i, j);
      case Del => HighDel(s, m, n, i, j);
      case Ins => HighIns(s, m, n, i, j);
    }
  }

  /** The banded traceback never leaves the gap, and no alignment within the band beats what it emits. */
  lemma BandedOptimal(s: LineScore, m: nat, n: nat)
    requires m > 0 && n > 0 && m + n <= 60000 && forall i, j :: s(i, j) <= 65
    ensures Optimal(Banded(s, m, n), m, n, Route(Banded(s, m, n), m, n))
  {
    var g := Banded(s, m, n);
    BandConnected(m, m, n);
    BandFloor(s, m, n, m, n);
    HighSteps(s, m, n);
    OptimalRoute(g, (op: Op, i: nat, j: nat) => High(g, m, n, op, i, j), m, n);
  }

  // ---------------------------------------------------------------- the fill

  /** The border of the band's table while it is written: column 0 up to row i, then row 0 up to column j. */
  ghost function Border(i: nat, j: nat, op: Op, k: nat, l: nat): int {
    if op == Pair && k == 0 && l == 0 then 0
    else if op == Del && 0 < k < i && l == 0 then GAP_OPEN + (k - 1) * GAP_EXTEND
    else if op == Ins && k == 0 && 0 < l < j then GAP_OPEN + (l - 1) * GAP_EXTEND
    else NEG_INF
  }

  ghost predicate Bordered(dp: seq<int>, m: nat, n: nat, i: nat, j: nat) {
    && |dp| >= Size(m, n)
    && forall op, k: nat, l: nat :: k <= m && l <= n ==> At(dp, m, n, op, k, l) == Border(i, j, op, k, l)
  }

  lemma BorderedStart(dp: seq<int>, m: nat, n: nat)
    requires |dp| >= Size(m, n) && forall k :: 0 <= k < Size(m, n) ==> dp[k] == NEG_INF
    ensures Slot(m, n, Pair, 0, 0) < |dp| && Bordered(dp[Slot(m, n, Pair, 0, 0) := 0], m, n, 1, 1)
  {
    hide Slot;
    WriteAt(dp, m, n, Pair, 0, 0, 0);
    var r := dp[Slot(m, n, Pair, 0, 0) := 0];
    forall op, k: nat, l: nat | k <= m && l <= n ensures At(r, m, n, op, k, l) == Border(1, 1, op, k, l) {
      SlotIsCell(m, n, op, k, l);
      if op != Pair || k != 0 || l != 0 { assert At(r, m, n, op, k, l) == At(dp, m, n, op, k, l); }
    }
  }

  lemma BorderedDown(dp: seq<int>, m: nat, n: nat, i: nat)
    requires 0 < i <= m && Bordered(dp, m, n, i, 1)
    ensures Slot(m, n, Del, i, 0) < |dp|
    ensures Bordered(dp[Slot(m, n, Del, i, 0) := GAP_OPEN + (i - 1) * GAP_EXTEND], m, n, i + 1, 1)
  {
    hide At, Slot;
    WriteAt(dp, m, n, Del, i, 0, GAP_OPEN + (i - 1) * GAP_EXTEND);
    var r := dp[Slot(m, n, Del, i, 0) := GAP_OPEN + (i - 1) * GAP_EXTEND];
    forall op, k: nat, l: nat | k <= m && l <= n ensures At(r, m, n, op, k, l) == Border(i + 1, 1, op, k, l) {
      if op != Del || k != i || l != 0 { assert At(r, m, n, op, k, l) == At(dp, m, n, op, k, l); }
    }
  }

  lemma BorderedRight(dp: seq<int>, m: nat, n: nat, i: nat, j: nat)
    requires 0 < j <= n && Bordered(dp, m, n, i, j)
    ensures Slot(m, n, Ins, 0, j) < |dp|
    ensures Bordered(dp[Slot(m, n, Ins, 0, j) := GAP_OPEN + (j - 1) * GAP_EXTEND], m, n, i, j + 1)
  {
    hide At, Slot;
    WriteAt(dp, m, n, Ins, 0, j, GAP_OPEN + (j - 1) * GAP_EXTEND);
    var r := dp[Slot(m, n, Ins, 0, j) := GAP_OPEN + (j - 1) * GAP_EXTEND];
    forall op, k: nat, l: nat | k <= m && l <= n ensures At(r, m, n, op, k, l) == Border(i, j + 1, op, k, l) {
      if op != Ins || k != 0 || l != j { assert At(r, m, n, op, k, l) == At(dp, m, n, op, k, l); }
    }
  }

  /** The border, with the sentinel everywhere inside, is what an empty band knows. */
  lemma BorderedFilled(g: Table, dp: seq<int>, m: nat, n: nat)
    requires Bordered(dp, m, n, m + 1, n + 1)
    ensures Filled(g, dp, m, n, 1, 1)
  {
    forall i: nat, j: nat | i <= m && j <= n && Due(g, 1, 1, i, j) ensures Holds(g, dp, m, n, i, j) {
      if i == 0 || j == 0 { EdgeValues(g, i, j); }
    }
  }

  method FillBorder(ghost g: Table, dp: array<int>, m: nat, n: nat)
    requires dp.Length >= Size(m, n)
    modifies dp
    ensures Filled(g, dp[..], m, n, 1, 1)
  {
    hide Filled, Bordered, Size;
    for k := 0 to Size(m, n)
      invariant forall x :: 0 <= x < k ==> dp[x] == NEG_INF
    {
      dp[k] := NEG_INF;
    }
    ghost var before := dp[..];
    BorderedStart(dp[..], m, n);
    dp[Slot(m, n, Pair, 0, 0)] := 0;
    assert dp[..] == before[Slot(m, n, Pair, 0, 0) := 0];
    for i := 1 to m + 1
      invariant Bordered(dp[..], m, n, i, 1)
    {
      before := dp[..];
      BorderedDown(dp[..], m, n, i);
      dp[Slot(m, n, Del, i, 0)] := GAP_OPEN + (i - 1) * GAP_EXTEND;
      assert dp[..] == before[Slot(m, n, Del, i, 0) := GAP_OPEN + (i - 1) * GAP_EXTEND];
    }
    for j := 1 to n + 1
      invariant Bordered(dp[..], m, n, m + 1, j)
    {
      before := dp[..];
      BorderedRight(dp[..], m, n, m + 1, j);
      dp[Slot(m, n, Ins, 0, j)] := GAP_OPEN + (j - 1) * GAP_EXTEND;
      assert dp[..] == before[Slot(m, n, Ins, 0, j) := GAP_OPEN + (j - 1) * GAP_EXTEND];
    }
    BorderedFilled(g, dp[..], m, n);
  }

  method FillBandRow(s: LineScore, dp: array<int>, m: nat, n: nat, i: nat)
    requires 0 < i <= m && n > 0 && Filled(Banded(s, m, n), dp[..], m, n, i, 1)
    modifies dp
    ensures Filled(Banded(s, m, n), dp[..], m, n, i + 1, 1)
  {
    hide Holds, Size, BandMin, BandMax;
    ghost var g := Banded(s, m, n);
    BandConnected(i, m, n);
    var jMin, jMax := BandMin(i, m, n), BandMax(i, m, n);
    for j := jMin to jMax + 1
      invariant Filled(g, dp[..], m, n, i, j)
    {
      var score := s(i - 1, j - 1);
      FillCell(dp, m, n, i, j, score, g);
    }
    forall k: nat, l: nat | k <= m && l <= n && Due(g, i + 1, 1, k, l) ensures Holds(g, dp[..], m, n, k, l) {
      assert Due(g, i, jMax + 1, k, l);
    }
  }

  method FillBand(s: LineScore, dp: array<int>, m: nat, n: nat)
    requires dp.Length >= Size(m, n) && m > 0 && n > 0
    modifies dp
    ensures Complete(Banded(s, m, n), dp[..], m, n)
  {
    hide Holds, Size, Banded;
    ghost var g := Banded(s, m, n);
    FillBorder(g, dp, m, n);
    for i := 1 to m + 1
      invariant Filled(g, dp[..], m, n, i, 1)
    {
      FillBandRow(s, dp, m, n, i);
    }
    forall i: nat, j: nat | i <= m && j <= n ensures Holds(g, dp[..], m, n, i, j) {
      assert Due(g, m + 1, 1, i, j);
    }
  }

  // ---------------------------------------------------------------- the traceback

  /** An inner cell on an edge of the band that the table does not cut off. */
  predicate OnEdge(i: nat, j: nat, m: nat, n: nat) {
    && 0 < i < m && 0 < j < n
    && ((RawMin(i, m, n) > 1 && j == RawMin(i, m, n)) || (RawMax(i, m, n) < n && j == RawMax(i, m, n)))
  }

  /** The rows ops, taken from (i, j) on, reach an edge cell. */
  ghost predicate Touches(ops: seq<Op>, i: nat, j: nat, m: nat, n: nat)
    requires m > 0
    decreases |ops|
  {
    ops != [] &&
    var i2, j2 := Down(ops[0], i), Right(ops[0], j);
    OnEdge(i2, j2, m, n) || Touches(ops[1..], i2, j2, m, n)
  }

  /** A route through an edge cell, or whose rest reaches one, touches the edge. */
  lemma {:induction false} TraceTouches(g: Table, i: nat, j: nat, op: Op, tail: seq<Op>, m: nat, n: nat)
    requires m > 0 && (OnEdge(i, j, m, n) || Touches(tail, i, j, m, n)) && Trace(g, i, j, op, tail).Some?
    ensures Touches(Trace(g, i, j, op, tail).value, 0, 0, m, n)
    decreases i + j
  {
    hide OnEdge;
    assert !OnEdge(0, 0, m, n) by { EdgeInside(m, n); }
    if i + j > 0 {
      assert ([op] + tail)[1..] == tail;
      TraceTouches(g, Up(op, i).value, Left(op, j).value, Previous(g, op, i, j), [op] + tail, m, n);
    }
  }

  lemma EdgeInside(m: nat, n: nat)
    requires m > 0
    ensures !OnEdge(0, 0, m, n)
  {
  }

  /** The traceback through the band, given up just when it meets an edge cell. */
  method WalkBand(s: LineScore, dp: array<int>, m: nat, n: nat, sStart: nat, dStart: nat)
    returns (rows: Option<seq<Row>>)
    requires m > 0 && n > 0 && Complete(Banded(s, m, n), dp[..], m, n) && Route(Banded(s, m, n), m, n).Some?
    ensures var ops := Route(Banded(s, m, n), m, n).value;
            rows == if Touches(ops, 0, 0, m, n) then None else Some(Emitted(ops, sStart, dStart))
  {
    hide T, Complete, Previous, Start, Banded, OnEdge;
    ghost var g := Banded(s, m, n);
    var state := StartAt(g, dp, m, n);
    var temp := [];
    var i, j := m, n;
    ghost var tail := [];
    while i > 0 || j > 0
      invariant 0 <= i <= m && 0 <= j <= n
      invariant Trace(g, i, j, state, tail) == Route(g, m, n) && !Touches(tail, i, j, m, n)
      invariant Reversed(temp) == Emitted(tail, sStart + i, dStart + j)
      decreases i + j
    {
      if OnEdge(i, j, m, n) {
        TraceTouches(g, i, j, state, tail, m, n);
        return None;
      }
      assert Up(state, i).Some? && Left(state, j).Some?;
      var prev := StepBack(g, dp, m, n, i, j, state);
      var row := RowOf(state, sStart + i - 1, dStart + j - 1);
      ReversedPush(temp, row);
      temp := temp + [row];
      if state != Ins { i := i - 1; }
      if state != Del { j := j - 1; }
      assert ([state] + tail)[1..] == tail;
      tail := [state] + tail;
      state := prev;
    }
    rows := Some(Reversed(temp));
  }

  /** The rows of an alignment that no alignment within the band beats. */
  ghost predicate BestInBand(rows: seq<Row>, score: LineScore, sStart: nat, sEnd: nat, dStart: nat, dEnd: nat)
    requires sStart < sEnd && dStart <= dEnd
  {
    exists ops ::
      && IsAlignment(ops, sEnd - sStart, dEnd - dStart) && rows == Emitted(ops, sStart, dStart)
      && forall others ::
           && IsAlignment(others, sEnd - sStart, dEnd - dStart)
           && Inside(Banded(Within(score, sStart, dStart), sEnd - sStart, dEnd - dStart), 0, 0, others) ==>
             Score(Within(score, sStart, dStart), others) <= Score(Within(score, sStart, dStart), ops)
  }

  lemma BandRouteIsBest(score: LineScore, s: LineScore, sStart: nat, sEnd: nat, dStart: nat, dEnd: nat)
    requires sStart < sEnd && dStart <= dEnd && s == Within(score, sStart, dStart)
    requires var m, n := sEnd - sStart, dEnd - dStart; Optimal(Banded(s, m, n), m, n, Route(Banded(s, m, n), m, n))
    ensures var m, n := sEnd - sStart, dEnd - dStart;
            var rows := Emitted(Route(Banded(s, m, n), m, n).value, sStart, dStart);
            BestInBand(rows, score, sStart, sEnd, dStart, dEnd) && Covers(rows, sStart, sEnd, dStart, dEnd)
  {
    hide Route, Covers, Emitted, Score, Inside, T;
    var m, n := sEnd - sStart, dEnd - dStart;
    EmittedCovers(Route(Banded(s, m, n), m, n).value, sStart, dStart);
  }

  const MAX_CELLS := 1000000

  lemma SidesSmall(m: nat, n: nat)
    requires m > 40 && n > 40 && m * n <= MAX_CELLS
    ensures m <= 24390 && n <= 24390
  {
    assert m * 41 <= m * n && 41 * n <= m * n;
  }

  /** The banded route reaches an edge of the band. */
  ghost predicate MeetsEdge(score: LineScore, sStart: nat, sEnd: nat, dStart: nat, dEnd: nat)
    requires sStart < sEnd && dStart <= dEnd
  {
    var m, n := sEnd - sStart, dEnd - dStart;
    var route := Route(Banded(Within(score, sStart, dStart), m, n), m, n);
    route.Some? && Touches(route.value, 0, 0, m, n)
  }

  /** The banded route: every line once, and an alignment that is best within the band, or, when the banded route
      meets an edge of the band, best of all. */
  method AlignBanded(grid: seq<Row>, score: LineScore, sStart: nat, sEnd: nat, dStart: nat, dEnd: nat,
                     scratch: AlignScratch)
    returns (res: seq<Row>)
    requires sEnd - sStart > 40 && dEnd - dStart > 40 && (sEnd - sStart) * (dEnd - dStart) <= MAX_CELLS
    requires InRange(score)
    modifies scratch, scratch.dp
    ensures scratch.dp == old(scratch.dp) || fresh(scratch.dp)
    ensures |grid| <= |res| && res[..|grid|] == grid
    ensures Covers(res[|grid|..], sStart, sEnd, dStart, dEnd)
    ensures if MeetsEdge(score, sStart, sEnd, dStart, dEnd)
            then BestRows(res[|grid|..], score, sStart, sEnd, dStart, dEnd)
            else BestInBand(res[|grid|..], score, sStart, sEnd, dStart, dEnd)
  {
    hide Covers, BestRows, BestInBand, Complete, Touches;
    var m, n := sEnd - sStart, dEnd - dStart;
    SidesSmall(m, n);
    var s := Within(score, sStart, dStart);
    var dp := DPBuffer(scratch, Size(m, n));
    FillBand(s, dp, m, n);
    BandedOptimal(s, m, n);
    BandRouteIsBest(score, s, sStart, sEnd, dStart, dEnd);
    var rows := WalkBand(s, dp, m, n, sStart, dStart);
    if rows == None {
      var dense := AlignDense(grid, score, sStart, sEnd, dStart, dEnd, scratch);
      res := dense.value;
    } else {
      res := grid + rows.value;
      assert res[|grid|..] == rows.value;
    }
  }
}
