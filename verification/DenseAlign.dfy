/** The dense route over a gap: fill the whole table, walk it back, emit the rows. */
module DenseAlign {
  import opened Lists
  import opened Gotoh
  import opened GotohDense
  import opened GotohTables
  import opened GridRows

  const MAX_POOLED := 262144

  /** The buffer that one alignment leaves behind for the next, with whatever it last held. */
  class AlignScratch {
    var dp: array<int>

    constructor ()
      ensures fresh(dp)
    {
      dp := new int[0];
    }
  }

  /** The buffer for one alignment: the scratch's own where it may be kept, enlarged if need be, or else a new one. */
  method DPBuffer(scratch: AlignScratch?, reqSize: nat) returns (buf: array<int>)
    modifies scratch
    ensures buf.Length >= reqSize
    ensures scratch == null || reqSize > MAX_POOLED ==> fresh(buf)
    ensures scratch != null && reqSize > MAX_POOLED ==> scratch.dp == old(scratch.dp)
    ensures scratch != null && reqSize <= MAX_POOLED ==>
              scratch.dp == buf && if old(scratch.dp).Length >= reqSize then buf == old(scratch.dp) else fresh(buf)
  {
    if scratch == null { return new int[reqSize]; }
    if reqSize <= MAX_POOLED {
      if scratch.dp.Length < reqSize { scratch.dp := new int[reqSize]; }
      return scratch.dp;
    }
    return new int[reqSize];
  }

  // ---------------------------------------------------------------- the fill

  lemma EdgeValues(g: Table, i: nat, j: nat)
    requires i == 0 || j == 0
    ensures T(g, Pair, i, j) == if i == 0 && j == 0 then 0 else NEG_INF
    ensures T(g, Del, i, j) == if i == 0 then NEG_INF else GAP_OPEN + (i - 1) * GAP_EXTEND
    ensures T(g, Ins, i, j) == if j == 0 then NEG_INF else GAP_OPEN + (j - 1) * GAP_EXTEND
  {
  }

  /** The borders of the dense table. */
  method FillEdges(ghost g: Table, dp: array<int>, m: nat, n: nat)
    requires dp.Length >= Size(m, n) && forall i, j :: g.fills(i, j)
    modifies dp
    ensures Filled(g, dp[..], m, n, 1, 1)
  {
    hide Holds, Slot;
    EdgeValues(g, 0, 0);
    Put(dp, m, n, 0, 0, 0, NEG_INF, NEG_INF, g);
    for i := 1 to m + 1
      invariant forall k: nat :: k < i ==> Holds(g, dp[..], m, n, k, 0)
    {
      EdgeValues(g, i, 0);
      Put(dp, m, n, i, 0, NEG_INF, GAP_OPEN + (i - 1) * GAP_EXTEND, NEG_INF, g);
    }
    for j := 1 to n + 1
      invariant forall k: nat :: k <= m ==> Holds(g, dp[..], m, n, k, 0)
      invariant forall l: nat :: l < j ==> Holds(g, dp[..], m, n, 0, l)
    {
      EdgeValues(g, 0, j);
      Put(dp, m, n, 0, j, NEG_INF, NEG_INF, GAP_OPEN + (j - 1) * GAP_EXTEND, g);
    }
    forall i: nat, j: nat | i <= m && j <= n && Due(g, 1, 1, i, j) ensures Holds(g, dp[..], m, n, i, j) {
      assert i == 0 || j == 0;
    }
  }

  method FillRow(g: Table, dp: array<int>, m: nat, n: nat, i: nat)
    requires 0 < i <= m && forall i, j :: g.fills(i, j)
    requires Filled(g, dp[..], m, n, i, 1)
    modifies dp
    ensures Filled(g, dp[..], m, n, i + 1, 1)
  {
    hide Holds, Size;
    for j := 1 to n + 1
      invariant Filled(g, dp[..], m, n, i, j)
    {
      var score := g.score(i - 1, j - 1);
      FillCell(dp, m, n, i, j, score, g);
    }
    forall k: nat, l: nat | k <= m && l <= n && Due(g, i + 1, 1, k, l) ensures Holds(g, dp[..], m, n, k, l) {
      assert Due(g, i, n + 1, k, l);
    }
  }

  method FillDense(g: Table, dp: array<int>, m: nat, n: nat)
    requires dp.Length >= Size(m, n) && forall i, j :: g.fills(i, j)
    modifies dp
    ensures Complete(g, dp[..], m, n)
  {
    hide Holds, Size;
    FillEdges(g, dp, m, n);
    for i := 1 to m + 1
      invariant Filled(g, dp[..], m, n, i, 1)
    {
      FillRow(g, dp, m, n, i);
    }
    forall i: nat, j: nat | i <= m && j <= n ensures Holds(g, dp[..], m, n, i, j) {
      assert Due(g, m + 1, 1, i, j);
    }
  }

  // ---------------------------------------------------------------- the traceback

  method StartAt(ghost g: Table, dp: array<int>, m: nat, n: nat) returns (state: Op)
    requires Complete(g, dp[..], m, n)
    ensures state == Start(g, m, n)
  {
    assert Holds(g, dp[..], m, n, m, n);
    var valM, valIx, valIy := Three(dp, m, n, m, n);
    state := StartState(valM, valIx, valIy, m, n);
  }

  /** The layer before the current row, read off the buffer. */
  method StepBack(ghost g: Table, dp: array<int>, m: nat, n: nat, i: nat, j: nat, state: Op) returns (prev: Op)
    requires Complete(g, dp[..], m, n) && i <= m && j <= n && (state != Ins ==> i > 0) && (state != Del ==> j > 0)
    ensures prev == Previous(g, state, i, j)
  {
    hide T, Slot, Size;
    assert Holds(g, dp[..], m, n, i, j);
    match state
    case Pair =>
      assert Holds(g, dp[..], m, n, i - 1, j - 1);
      var pM, pIx, pIy := Three(dp, m, n, i - 1, j - 1);
      prev := SelectState(pM, pIx, pIy, i - 1, j - 1);
    case Del =>
      if j == 0 { return Del; }
      var _, val, _ := Three(dp, m, n, i, j);
      assert Holds(g, dp[..], m, n, i - 1, j);
      var pM, pIx, pIy := Three(dp, m, n, i - 1, j);
      prev := BeforeDel(val, pM, pIx, pIy);
    case Ins =>
      if i == 0 { return Ins; }
      var _, _, val := Three(dp, m, n, i, j);
      assert Holds(g, dp[..], m, n, i, j - 1);
      var pM, pIx, pIy := Three(dp, m, n, i, j - 1);
      prev := BeforeIns(val, pM, pIx, pIy);
  }

  /** The rows of a route that starts at source line s and target line d, if the route stays in the gap. */
  function RouteRows(ops: Option<seq<Op>>, s: nat, d: nat): Option<seq<Row>> {
    match ops
    case None => None
    case Some(ops) => Some(Emitted(ops, s, d))
  }

  /** The traceback emits exactly the rows of the table's route. A step out of the gap, after which the rows would name
      lines of other gaps or none at all, ends it without a result. */
  method Walk(ghost g: Table, dp: array<int>, m: nat, n: nat, sStart: nat, dStart: nat) returns (rows: Option<seq<Row>>)
    requires Complete(g, dp[..], m, n)
    ensures rows == RouteRows(Route(g, m, n), sStart, dStart)
  {
    hide T, Complete, Previous, Start;
    var state := StartAt(g, dp, m, n);
    var temp := [];
    var i, j := m, n;
    ghost var tail := [];
    while i > 0 || j > 0
      invariant 0 <= i <= m && 0 <= j <= n
      invariant Trace(g, i, j, state, tail) == Route(g, m, n)
      invariant Reversed(temp) == Emitted(tail, sStart + i, dStart + j)
      decreases i + j
    {
      if Up(state, i).None? || Left(state, j).None? { return None; }
      var prev := StepBack(g, dp, m, n, i, j, state);
      var row := RowOf(state, sStart + i - 1, dStart + j - 1);
      ReversedPush(temp, row);
      temp := temp + [row];
      if state != Ins { i := i - 1; }
      if state != Del { j := j - 1; }
      assert ([state] + tail)[1..] == tail;
      tail := [state] + tail;
      state := prev;
    }
    rows := Some(Reversed(temp));
  }

  /** What pairing the lines is worth inside the gap that starts at sStart and dStart. */
  function Within(score: LineScore, sStart: nat, dStart: nat): LineScore {
    (i: nat, j: nat) => score(sStart + i, dStart + j)
  }

  /** The rows of an alignment of the gap that no other alignment beats. */
  ghost predicate BestRows(rows: seq<Row>, score: LineScore, sStart: nat, sEnd: nat, dStart: nat, dEnd: nat)
    requires sStart <= sEnd && dStart <= dEnd
  {
    exists ops ::
      && IsAlignment(ops, sEnd - sStart, dEnd - dStart) && rows == Emitted(ops, sStart, dStart)
      && forall others :: IsAlignment(others, sEnd - sStart, dEnd - dStart) ==>
           Score(Within(score, sStart, dStart), others) <= Score(Within(score, sStart, dStart), ops)
  }

  /** The dense route over the gap, None if it leaves the gap. */
  ghost function DenseRoute(score: LineScore, sStart: nat, sEnd: nat, dStart: nat, dEnd: nat): Option<seq<Op>>
    requires sStart <= sEnd && dStart <= dEnd
  {
    Route(Dense(Within(score, sStart, dStart)), sEnd - sStart, dEnd - dStart)
  }

  /**
    * The dense route: whatever the reused buffer held, the grid grows by an alignment of the gap that lists each of
    * its lines once, just when the route stays in the gap; and while the sentinel cannot win it does stay there, and no
    * other alignment beats it.
    */
  method AlignDense(grid: seq<Row>, score: LineScore, sStart: nat, sEnd: nat, dStart: nat, dEnd: nat,
                    scratch: AlignScratch)
    returns (res: Option<seq<Row>>)
    requires sStart < sEnd && dStart < dEnd
    modifies scratch, scratch.dp
    ensures scratch.dp == old(scratch.dp) || fresh(scratch.dp)
    ensures res.Some? <==> DenseRoute(score, sStart, sEnd, dStart, dEnd).Some?
    ensures res.Some? ==> |grid| <= |res.value| && res.value[..|grid|] == grid
    ensures res.Some? ==> Covers(res.value[|grid|..], sStart, sEnd, dStart, dEnd)
    ensures Safe(sEnd - sStart, dEnd - dStart) ==>
      res.Some? && BestRows(res.value[|grid|..], score, sStart, sEnd, dStart, dEnd)
  {
    hide BestRows, Covers, Emitted, Route;
    var m, n := sEnd - sStart, dEnd - dStart;
    var s := Within(score, sStart, dStart);
    var dp := DPBuffer(scratch, Size(m, n));
    FillDense(Dense(s), dp, m, n);
    var rows := Walk(Dense(s), dp, m, n, sStart, dStart);
    RouteLists(score, sStart, sEnd, dStart, dEnd);
    if Safe(m, n) {
      DenseOptimal(s, m, n);
      RouteIsBest(score, s, sStart, sEnd, dStart, dEnd);
    }
    if rows == None { return None; }
    res := Some(grid + rows.value);
    assert res.value[|grid|..] == rows.value;
  }

  lemma RouteLists(score: LineScore, sStart: nat, sEnd: nat, dStart: nat, dEnd: nat)
    requires sStart <= sEnd && dStart <= dEnd
    ensures var rows := RouteRows(DenseRoute(score, sStart, sEnd, dStart, dEnd), sStart, dStart);
            rows.Some? ==> Covers(rows.value, sStart, sEnd, dStart, dEnd)
  {
    hide Covers, Emitted, T, Trace;
    var g, m, n := Dense(Within(score, sStart, dStart)), sEnd - sStart, dEnd - dStart;
    TraceLists(g, m, n, Start(g, m, n), []);
    if Route(g, m, n).Some? { EmittedCovers(Route(g, m, n).value, sStart, dStart); }
  }

  lemma RouteIsBest(score: LineScore, s: LineScore, sStart: nat, sEnd: nat, dStart: nat, dEnd: nat)
    requires sStart <= sEnd && dStart <= dEnd && s == Within(score, sStart, dStart)
    requires Optimal(Dense(s), sEnd - sStart, dEnd - dStart, Route(Dense(s), sEnd - sStart, dEnd - dStart))
    ensures var rows := Emitted(Route(Dense(s), sEnd - sStart, dEnd - dStart).value, sStart, dStart);
            BestRows(rows, score, sStart, sEnd, dStart, dEnd) && Covers(rows, sStart, sEnd, dStart, dEnd)
  {
    var ops := Route(Dense(s), sEnd - sStart, dEnd - dStart).value;
    EmittedCovers(ops, sStart, dStart);
    forall others | IsAlignment(others, sEnd - sStart, dEnd - dStart) ensures Score(s, others) <= Score(s, ops) {
      InsideDense(s, 0, 0, others);
    }
  }
}
