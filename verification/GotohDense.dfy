/** When the dense route is optimal: exactly while the sentinel cannot win. */
module GotohDense {
  import opened Lists
  import opened Gotoh
  import opened Numbers

  /** States the dense traceback may be in: a genuine layer, clear of the sentinel. */
  ghost predicate Clear(g: Table, op: Op, i: nat, j: nat) {
    && Genuine(op, i, j) && i <= SAFE_SIDE && j <= SAFE_SIDE + 1
    && (j > SAFE_SIDE && op == Del ==> T(g, Del, i, j) > -26 - 2 * i - 2 * j)
  }

  lemma ClearDel(s: LineScore, i: nat, j: nat)
    requires Clear(Dense(s), Del, i, j)
    ensures StepRight(Dense(s), Del, i, j)
    ensures i - 1 + j > 0 ==> Clear(Dense(s), Previous(Dense(s), Del, i, j), i - 1, j)
  {
  }

  lemma ClearIns(s: LineScore, i: nat, j: nat)
    requires Clear(Dense(s), Ins, i, j)
    ensures StepRight(Dense(s), Ins, i, j)
    ensures i + j - 1 > 0 ==> Clear(Dense(s), Previous(Dense(s), Ins, i, j), i, j - 1)
  {
  }

  lemma ClearPair(s: LineScore, i: nat, j: nat)
    requires Clear(Dense(s), Pair, i, j) && i > 0
    ensures StepRight(Dense(s), Pair, i, j)
    ensures i - 1 + j - 1 > 0 ==> Clear(Dense(s), Previous(Dense(s), Pair, i, j), i - 1, j - 1)
  {
  }

  lemma ClearSteps(s: LineScore)
    ensures StepsRight(Dense(s), (op: Op, i: nat, j: nat) => Clear(Dense(s), op, i, j))
  {
    var g := Dense(s);
    forall op, i: nat, j: nat | Clear(g, op, i, j) && i + j > 0
      ensures StepRight(g, op, i, j)
      ensures var i0, j0 := Up(op, i).value, Left(op, j).value; i0 + j0 > 0 ==> Clear(g, Previous(g, op, i, j), i0, j0)
    {
      match op
      case Pair => ClearPair(s, i, j);
      case Del => ClearDel(s, i, j);
      case Ins => ClearIns(s, i, j);
    }
  }

  /** Deleting everything and then inserting everything is always in the table. */
  lemma {:induction false} InsFloor(s: LineScore, m: nat, n: nat)
    requires m > 0 && n > 0
    ensures T(Dense(s), Ins, m, n) >= -26 - 2 * m - 2 * n
  {
    if n > 1 { InsFloor(s, m, n - 1); }
  }

  /** The dense route is optimal: it emits an alignment of the gap that no other alignment beats. */
  lemma DenseOptimal(s: LineScore, m: nat, n: nat)
    requires 0 < m <= SAFE_SIDE && 0 < n <= SAFE_SIDE + 1
    ensures Optimal(Dense(s), m, n, Route(Dense(s), m, n))
    ensures Score(s, Route(Dense(s), m, n).value) == Best(Dense(s), m, n)
  {
    InsFloor(s, m, n);
    ClearSteps(s);
    OptimalRoute(Dense(s), (op: Op, i: nat, j: nat) => Clear(Dense(s), op, i, j), m, n);
  }

  // ---------------------------------------------------------------- beyond that, the sentinel wins

  /** Lines as unlike each other as the score allows. */
  ghost predicate Unlike(s: LineScore) {
    forall i: nat, j: nat :: s(i, j) == -1000
  }

  function Nothing(i: nat, j: nat): int {
    -1000
  }

  /** What the layers are worth at most when nothing is alike: the best gaps, or a sentinel carried along. */
  function CeilDel(i: int, j: int): int {
    Max3(-13 - 2 * i - (if j > 0 then 13 + 2 * j else 0), NEG_INF - 2 * i, NEG_INF - 2 * j - 15)
  }

  function CeilIns(i: int, j: int): int {
    Max3(-13 - 2 * j - (if i > 0 then 13 + 2 * i else 0), NEG_INF - 2 * j, NEG_INF - 2 * i - 15)
  }

  function CeilPair(i: int, j: int): int {
    if i == 0 && j == 0 then 0
    else if i == 0 || j == 0 then NEG_INF
    else Max3(-26 - 2 * i - 2 * j, NEG_INF - 2 * i, NEG_INF - 2 * j) - 900
  }

  ghost predicate Ceiling(s: LineScore, i: nat, j: nat) {
    && T(Dense(s), Del, i, j) <= CeilDel(i, j)
    && T(Dense(s), Ins, i, j) <= CeilIns(i, j)
    && T(Dense(s), Pair, i, j) <= CeilPair(i, j)
  }

  lemma CeilingArithmetic(i: nat, j: nat)
    ensures i > 0 && j > 0 ==>
      && Max3(CeilPair(i - 1, j - 1), CeilDel(i - 1, j - 1), CeilIns(i - 1, j - 1)) - 1000 <= CeilPair(i, j)
      && Max3(CeilPair(i - 1, j) + GAP_OPEN, CeilDel(i - 1, j) + GAP_EXTEND,
              CeilIns(i - 1, j) + GAP_OPEN) <= CeilDel(i, j)
      && Max3(CeilPair(i, j - 1) + GAP_OPEN, CeilDel(i, j - 1) + GAP_OPEN,
              CeilIns(i, j - 1) + GAP_EXTEND) <= CeilIns(i, j)
  {
  }

  lemma UnlikeRecurrence(s: LineScore, i: nat, j: nat)
    requires Unlike(s) && i > 0 && j > 0
    ensures var g := Dense(s);
            && T(g, Pair, i, j) == Max3(T(g, Pair, i - 1, j - 1), T(g, Del, i - 1, j - 1),
                                        T(g, Ins, i - 1, j - 1)) - 1000
            && T(g, Del, i, j)
               == Max3(T(g, Pair, i - 1, j) + GAP_OPEN, T(g, Del, i - 1, j) + GAP_EXTEND,
                       T(g, Ins, i - 1, j) + GAP_OPEN)
            && T(g, Ins, i, j)
               == Max3(T(g, Pair, i, j - 1) + GAP_OPEN, T(g, Del, i, j - 1) + GAP_OPEN,
                       T(g, Ins, i, j - 1) + GAP_EXTEND)
  {
    hide Max3;
  }

  lemma CeilingStep(s: LineScore, i: nat, j: nat)
    requires Unlike(s) && i > 0 && j > 0
    requires Ceiling(s, i - 1, j) && Ceiling(s, i, j - 1) && Ceiling(s, i - 1, j - 1)
    ensures Ceiling(s, i, j)
  {
    hide T, CeilPair, CeilDel, CeilIns;
    UnlikeRecurrence(s, i, j);
    CeilingArithmetic(i, j);
  }

  lemma {:induction false} CeilingHolds(s: LineScore, i: nat, j: nat)
    requires Unlike(s)
    ensures Ceiling(s, i, j)
    decreases i + j
  {
    if i > 0 && j > 0 {
      CeilingHolds(s, i - 1, j);
      CeilingHolds(s, i, j - 1);
      CeilingHolds(s, i - 1, j - 1);
      CeilingStep(s, i, j);
    }
  }

  /** Sentinels carried along a row or a column. */
  lemma {:induction false} SentinelRow(s: LineScore, i: nat, j: nat)
    ensures i > 0 ==> T(Dense(s), Ins, i, j) >= NEG_INF - 2 * j
  {
    if i > 0 && j > 0 { SentinelRow(s, i, j - 1); }
  }

  lemma {:induction false} SentinelColumn(s: LineScore, i: nat, j: nat)
    ensures j > 0 ==> T(Dense(s), Del, i, j) >= NEG_INF - 2 * i
  {
    if i > 0 && j > 0 { SentinelColumn(s, i - 1, j); }
  }

  /** With too many source lines the traceback walks row m to its left edge and off the table. */
  lemma {:induction false} LostInRow(s: LineScore, m: nat, j: nat, tail: seq<Op>)
    requires Unlike(s) && m > SAFE_SIDE && j <= m
    ensures Trace(Dense(s), m, j, Ins, tail) == None
    ensures j > 0 ==> T(Dense(s), Ins, m, j) == Best(Dense(s), m, j)
  {
    if j > 0 {
      InsWins(s, m, j);
      if j > 1 { InsWins(s, m, j - 1); }
      LostInRow(s, m, j - 1, [Ins] + tail);
    }
  }

  lemma InsWins(s: LineScore, m: nat, j: nat)
    requires Unlike(s) && m > SAFE_SIDE && 0 < j <= m
    ensures T(Dense(s), Ins, m, j) == Best(Dense(s), m, j)
  {
    CeilingHolds(s, m, j);
    SentinelRow(s, m, j);
  }

  /** With too many target lines it walks column n to its top edge and off the table. */
  lemma {:induction false} LostInColumn(s: LineScore, i: nat, n: nat, tail: seq<Op>)
    requires Unlike(s) && n > SAFE_SIDE + 1 && i < n
    ensures Trace(Dense(s), i, n, Del, tail) == None
    ensures i > 0 ==> T(Dense(s), Del, i, n) == Best(Dense(s), i, n) > T(Dense(s), Ins, i, n)
  {
    if i > 0 {
      DelWins(s, i, n);
      if i > 1 { DelWins(s, i - 1, n); }
      LostInColumn(s, i - 1, n, [Del] + tail);
    }
  }

  lemma DelWins(s: LineScore, i: nat, n: nat)
    requires Unlike(s) && n > SAFE_SIDE + 1 && 0 < i < n
    ensures T(Dense(s), Del, i, n) == Best(Dense(s), i, n) > T(Dense(s), Ins, i, n)
  {
    CeilingHolds(s, i, n);
    SentinelColumn(s, i, n);
  }

  /** Line scores as the source limits them. */
  ghost predicate InRange(s: LineScore) {
    forall i: nat, j: nat :: -1000 <= s(i, j) <= 65
  }

  /** The numbers of lines for which the sentinel cannot win. */
  predicate Safe(m: nat, n: nat) {
    m <= SAFE_SIDE && n <= SAFE_SIDE + 1
  }

  /** Beyond them, the traceback over lines that are all unlike each other leaves the gap. */
  lemma UnlikeLost(s: LineScore, m: nat, n: nat)
    requires Unlike(s) && m > 0 && n > 0 && !Safe(m, n)
    ensures Route(Dense(s), m, n) == None
  {
    if m > SAFE_SIDE && n <= m {
      LostInRow(s, m, n, []);
    } else {
      LostInColumn(s, m, n, []);
    }
  }

  /**
    * The exact bound: for every line score of a gap the dense route is optimal, and stays in the gap at all, just when
    * the gap has at most 499,986 source and at most 499,987 target lines.
    */
  lemma DenseExact(m: nat, n: nat)
    requires m > 0 && n > 0
    ensures (forall s :: InRange(s) ==> Optimal(Dense(s), m, n, Route(Dense(s), m, n))) <==> Safe(m, n)
    ensures (forall s :: InRange(s) ==> Route(Dense(s), m, n).Some?) <==> Safe(m, n)
  {
    if Safe(m, n) {
      forall s | InRange(s) ensures Optimal(Dense(s), m, n, Route(Dense(s), m, n)) {
        DenseOptimal(s, m, n);
      }
    } else {
      UnlikeLost(Nothing, m, n);
      assert InRange(Nothing) && Route(Dense(Nothing), m, n) == None;
    }
  }
}
