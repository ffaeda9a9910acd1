/** Weighted alignment of two sequences on a reused table, and the trimming of what they share at both ends. */
module SeqDiff {
  import opened Lists
  import opened Flat
  import opened Numbers

  /** What pairing item i with item j is worth; nothing at all unless positive. */
  type Weight = (nat, nat) -> int

  type Pairs = seq<(nat, nat)>

  /** Pairs of positive weight, strictly increasing on both sides, from the first n and m items. */
  ghost predicate Chain(w: Weight, ps: Pairs, n: int, m: int) {
    && (forall k :: 0 <= k < |ps| ==> ps[k].0 < n && ps[k].1 < m && w(ps[k].0, ps[k].1) > 0)
    && forall k, l :: 0 <= k < l < |ps| ==> ps[k].0 < ps[l].0 && ps[k].1 < ps[l].1
  }

  /** The total weight of a chain. */
  function Total(w: Weight, ps: Pairs): int {
    if ps == [] then 0 else Total(w, ps[1..]) + w(ps[0].0, ps[0].1)
  }

  /** A heaviest chain. */
  ghost predicate Heaviest(w: Weight, ps: Pairs, n: int, m: int) {
    Chain(w, ps, n, m) && forall qs :: Chain(w, qs, n, m) ==> Total(w, qs) <= Total(w, ps)
  }

  /** The table's recurrence. */
  ghost function V(w: Weight, i: nat, j: nat): nat
    decreases i + j
  {
    if i == 0 || j == 0 then 0
    else if w(i - 1, j - 1) > 0 then Max(Max(V(w, i - 1, j), V(w, i, j - 1)), V(w, i - 1, j - 1) + w(i - 1, j - 1))
    else Max(V(w, i - 1, j), V(w, i, j - 1))
  }

  lemma {:induction false} TotalAppend(w: Weight, ps: Pairs, p: (nat, nat))
    ensures Total(w, ps + [p]) == Total(w, ps) + w(p.0, p.1)
  {
    if ps == [] {
      assert ps + [p] == [p];
    } else {
      TotalAppend(w, ps[1..], p);
      assert (ps + [p])[1..] == ps[1..] + [p];
    }
  }

  lemma {:induction false} VGrows(w: Weight, i: nat, j: nat, i2: nat, j2: nat)
    requires i <= i2 && j <= j2
    ensures V(w, i, j) <= V(w, i2, j2)
    decreases i2 + j2
  {
    if i == i2 && j == j2 {
    } else if i < i2 {
      VGrows(w, i, j, i2 - 1, j2);
    } else {
      VGrows(w, i, j, i2, j2 - 1);
    }
  }

  lemma VTakes(w: Weight, i: nat, j: nat)
    ensures w(i, j) > 0 ==> V(w, i, j) + w(i, j) <= V(w, i + 1, j + 1)
  {
  }

  lemma ChainFront(w: Weight, ps: Pairs, i: nat, j: nat)
    requires ps != [] && Chain(w, ps, i, j)
    ensures var p := ps[|ps| - 1];
            Chain(w, ps[..|ps| - 1], p.0, p.1) && p.0 < i && p.1 < j && w(p.0, p.1) > 0
  {
  }

  /** No chain weighs more than the table's value. */
  lemma {:induction false} ChainBound(w: Weight, ps: Pairs, i: nat, j: nat)
    requires Chain(w, ps, i, j)
    ensures Total(w, ps) <= V(w, i, j)
    decreases |ps|
  {
    if ps == [] {
      VGrows(w, 0, 0, i, j);
    } else {
      hide Chain, Total, V;
      var rest, p := ps[..|ps| - 1], ps[|ps| - 1];
      assert ps == rest + [p];
      TotalAppend(w, rest, p);
      ChainFront(w, ps, i, j);
      ChainBound(w, rest, p.0, p.1);
      VTakes(w, p.0, p.1);
      VGrows(w, p.0 + 1, p.1 + 1, i, j);
    }
  }

  lemma VStep(w: Weight, i: nat, j: nat)
    requires i > 0 && j > 0
    ensures (w(i - 1, j - 1) > 0 && V(w, i, j) == V(w, i - 1, j - 1) + w(i - 1, j - 1)) ||
      V(w, i, j) == Max(V(w, i - 1, j), V(w, i, j - 1))
  {
  }

  lemma VEdge(w: Weight, i: nat, j: nat)
    requires i == 0 || j == 0
    ensures V(w, i, j) == 0
  {
  }

  lemma TotalNone(w: Weight)
    ensures Total(w, []) == 0
  {
  }

  /** Item i-1 could keep item k-1 as its partner without losing weight. */
  ghost predicate Tie(w: Weight, i: nat, j: nat, k: nat)
    requires i > 0 && k > 0
  {
    w(i - 1, k - 1) > 0 && V(w, i - 1, k - 1) + w(i - 1, k - 1) == V(w, i, j)
  }

  function Dist(i: int, j: int): int {
    Max(i - j, j - i)
  }

  /** A chain whose pairs all lie in the rows from i and the columns from j on. */
  ghost predicate Beyond(w: Weight, ps: Pairs, i: nat, j: nat, n: nat, m: nat) {
    Chain(w, ps, n, m) && forall k :: 0 <= k < |ps| ==> i <= ps[k].0 && j <= ps[k].1
  }

  lemma BeyondNone(w: Weight, n: nat, m: nat)
    ensures Beyond(w, [], n, m, n, m)
  {
  }

  lemma BeyondPush(w: Weight, ps: Pairs, i: nat, j: nat, n: nat, m: nat, k: nat)
    requires Beyond(w, ps, i, j, n, m) && 0 < i <= n && 0 < k <= j <= m && w(i - 1, k - 1) > 0
    ensures Beyond(w, [(i - 1, k - 1)] + ps, i - 1, k - 1, n, m)
    ensures Total(w, [(i - 1, k - 1)] + ps) == Total(w, ps) + w(i - 1, k - 1)
  {
    assert ([(i - 1, k - 1)] + ps)[1..] == ps;
  }

  lemma BeyondShrink(w: Weight, ps: Pairs, i: nat, j: nat, n: nat, m: nat, i2: nat, j2: nat)
    requires Beyond(w, ps, i, j, n, m) && i2 <= i && j2 <= j
    ensures Beyond(w, ps, i2, j2, n, m)
  {
  }

  lemma BeyondChain(w: Weight, ps: Pairs, i: nat, j: nat, n: nat, m: nat)
    requires Beyond(w, ps, i, j, n, m)
    ensures Chain(w, ps, n, m)
  {
  }

  // ---------------------------------------------------------------- every equal pair worth one

  function Unit(eq: (nat, nat) -> bool): Weight {
    (i: nat, j: nat) => if eq(i, j) then 1 else 0
  }

  /** A common subsequence under eq. */
  ghost predicate Common(eq: (nat, nat) -> bool, ps: Pairs, n: int, m: int) {
    && (forall k :: 0 <= k < |ps| ==> ps[k].0 < n && ps[k].1 < m && eq(ps[k].0, ps[k].1))
    && forall k, l :: 0 <= k < l < |ps| ==> ps[k].0 < ps[l].0 && ps[k].1 < ps[l].1
  }

  /** A longest common subsequence. */
  ghost predicate Longest(eq: (nat, nat) -> bool, ps: Pairs, n: int, m: int) {
    Common(eq, ps, n, m) && forall qs :: Common(eq, qs, n, m) ==> |qs| <= |ps|
  }

  lemma {:induction false} UnitTotal(eq: (nat, nat) -> bool, ps: Pairs)
    requires forall k :: 0 <= k < |ps| ==> eq(ps[k].0, ps[k].1)
    ensures Total(Unit(eq), ps) == |ps|
  {
    if ps != [] {
      assert eq(ps[0].0, ps[0].1);
      UnitTotal(eq, ps[1..]);
    }
  }

  lemma CommonChain(eq: (nat, nat) -> bool, ps: Pairs, n: int, m: int)
    ensures Common(eq, ps, n, m) <==> Chain(Unit(eq), ps, n, m)
  {
  }

  lemma LongestHeaviest(eq: (nat, nat) -> bool, ps: Pairs, n: int, m: int)
    requires Heaviest(Unit(eq), ps, n, m)
    ensures Longest(eq, ps, n, m)
  {
    CommonChain(eq, ps, n, m);
    UnitTotal(eq, ps);
    forall qs | Common(eq, qs, n, m) ensures |qs| <= |ps| {
      CommonChain(eq, qs, n, m);
      UnitTotal(eq, qs);
    }
  }

  // ---------------------------------------------------------------- the scratch memory

  const DEFAULT_CAPACITY := 16384
  const MAX_POOLED_CAPACITY := 262144

  /** The table cells right so far: all rows before i, and row i up to column j. */
  ghost predicate Filled(w: Weight, dp: seq<int>, n: nat, m: nat, i: nat, j: nat) {
    && |dp| >= (n + 1) * (m + 1)
    && forall k: nat, l: nat {:trigger Read(dp, 0, m + 1, k, l)} :: k <= n && l <= m ==>
         Read(dp, 0, m + 1, k, l) == if k < i || (k == i && l < j) then V(w, k, l) else 0
  }

  lemma FilledCell(w: Weight, dp: seq<int>, n: nat, m: nat, i: nat, j: nat, k: nat, l: nat)
    requires Filled(w, dp, n, m, i, j) && k <= n && l <= m && (k < i || (k == i && l < j))
    ensures Cell(m + 1, k, l) < |dp| && dp[Cell(m + 1, k, l)] == V(w, k, l)
  {
    ReadCell(dp, 0, m + 1, n + 1, k, l);
  }

  lemma FilledStart(w: Weight, dp: seq<int>, n: nat, m: nat)
    requires |dp| >= (n + 1) * (m + 1) && forall k :: 0 <= k < (n + 1) * (m + 1) ==> dp[k] == 0
    ensures Filled(w, dp, n, m, 1, 1)
  {
    forall k: nat, l: nat | k <= n && l <= m
      ensures Read(dp, 0, m + 1, k, l) == if k < 1 || (k == 1 && l < 1) then V(w, k, l) else 0
    {
      ZeroCell(dp, n, m, k, l);
    }
  }

  lemma ZeroCell(dp: seq<int>, n: nat, m: nat, k: nat, l: nat)
    requires |dp| >= (n + 1) * (m + 1) && forall k :: 0 <= k < (n + 1) * (m + 1) ==> dp[k] == 0
    requires k <= n && l <= m
    ensures Read(dp, 0, m + 1, k, l) == 0
  {
    CellBound(m + 1, n + 1, k, l);
  }

  lemma FilledRow(w: Weight, dp: seq<int>, n: nat, m: nat, i: nat)
    requires i <= n && Filled(w, dp, n, m, i, m + 1)
    ensures Filled(w, dp, n, m, i + 1, 1)
  {
    forall k: nat, l: nat | k <= n && l <= m
      ensures Read(dp, 0, m + 1, k, l) == if k < i + 1 || (k == i + 1 && l < 1) then V(w, k, l) else 0
    {
      assert k == i + 1 && l == 0 ==> V(w, k, l) == 0;
    }
  }

  lemma FilledStep(w: Weight, dp: seq<int>, n: nat, m: nat, i: nat, j: nat, v: int)
    requires i <= n && j <= m && Filled(w, dp, n, m, i, j) && v == V(w, i, j)
    ensures Cell(m + 1, i, j) < |dp| && Filled(w, dp[Cell(m + 1, i, j) := v], n, m, i, j + 1)
  {
    hide V;
    WriteCell(dp, 0, m + 1, n + 1, i, j, v);
  }

  /** Buffers that one alignment leaves behind for the next. */
  class SeqScratch {
    var dp: array<int>
    var matches: Pairs

    constructor (initialCap: nat)
      ensures fresh(dp)
    {
      dp := new int[if initialCap < DEFAULT_CAPACITY then DEFAULT_CAPACITY else initialCap];
      matches := [];
    }

    /** What a scratch keeps when it goes back to the pool: no matches, and no table that has grown too large. */
    method Release()
      modifies this
      ensures matches == [] && dp.Length <= MAX_POOLED_CAPACITY
      ensures if old(dp).Length <= MAX_POOLED_CAPACITY then dp == old(dp) else fresh(dp) && dp.Length == 0
    {
      matches := [];
      if dp.Length > MAX_POOLED_CAPACITY { dp := new int[0]; }
    }

    /** Room for the table, cleared, whatever the buffer held before. */
    method EnsureDP(cells: nat)
      modifies this`dp, dp
      ensures dp.Length >= cells && (dp == old(dp) || fresh(dp))
      ensures forall k :: 0 <= k < cells ==> dp[k] == 0
    {
      if dp.Length < cells {
        dp := new int[if cells > DEFAULT_CAPACITY then cells else DEFAULT_CAPACITY](_ => 0);
      } else {
        var buf := dp;
        for k := 0 to cells
          invariant dp == buf && forall l :: 0 <= l < k ==> buf[l] == 0
        {
          buf[k] := 0;
        }
      }
    }

    method Fill(n: nat, m: nat, weight: Weight)
      requires Filled(weight, dp[..], n, m, 1, 1)
      modifies dp
      ensures Filled(weight, dp[..], n, m, n + 1, 1)
    {
      for i := 1 to n + 1
        invariant Filled(weight, dp[..], n, m, i, 1)
      {
        for j := 1 to m + 1
          invariant Filled(weight, dp[..], n, m, i, j)
        {
          FillCell(n, m, weight, i, j);
        }
        FilledRow(weight, dp[..], n, m, i);
      }
    }

    method FillCell(n: nat, m: nat, weight: Weight, i: nat, j: nat)
      requires 0 < i <= n && 0 < j <= m && Filled(weight, dp[..], n, m, i, j)
      modifies dp
      ensures Filled(weight, dp[..], n, m, i, j + 1)
    {
      hide Filled;
      FilledCell(weight, dp[..], n, m, i, j, i - 1, j);
      FilledCell(weight, dp[..], n, m, i, j, i, j - 1);
      FilledCell(weight, dp[..], n, m, i, j, i - 1, j - 1);
      var best := Max(dp[Cell(m + 1, i - 1, j)], dp[Cell(m + 1, i, j - 1)]);
      var w := weight(i - 1, j - 1);
      if w > 0 { best := Max(best, dp[Cell(m + 1, i - 1, j - 1)] + w); }
      FilledStep(weight, dp[..], n, m, i, j, best);
      ghost var before := dp[..];
      dp[Cell(m + 1, i, j)] := best;
      assert dp[..] == before[Cell(m + 1, i, j) := best];
    }

    // -------------------------------------------------------------- the traceback

    /** Of the partners that item i-1 can keep at this value, the one nearest the diagonal, and of two as near the
        later. */
    method Closest(n: nat, m: nat, weight: Weight, i: nat, j: nat) returns (bestJ: nat)
      requires 0 < i <= n && 0 < j <= m && Filled(weight, dp[..], n, m, n + 1, 1) && Tie(weight, i, j, j)
      ensures 0 < bestJ <= j && Tie(weight, i, j, bestJ)
      ensures forall k :: 0 < k <= j && Tie(weight, i, j, k) ==> Dist(i, bestJ) <= Dist(i, k)
      ensures forall k :: bestJ < k <= j && Tie(weight, i, j, k) ==> Dist(i, bestJ) < Dist(i, k)
    {
      hide Filled;
      bestJ := j;
      var bestDist := Dist(i, j);
      FilledCell(weight, dp[..], n, m, n + 1, 1, i, j);
      var k := j - 1;
      while k >= 1
        invariant 0 <= k < j && 0 < bestJ <= j && Tie(weight, i, j, bestJ) && bestDist == Dist(i, bestJ)
        invariant forall l :: k < l <= j && Tie(weight, i, j, l) ==> bestDist <= Dist(i, l)
        invariant forall l :: bestJ < l <= j && Tie(weight, i, j, l) ==> bestDist < Dist(i, l)
      {
        FilledCell(weight, dp[..], n, m, n + 1, 1, i - 1, k - 1);
        var kw := weight(i - 1, k - 1);
        if kw > 0 && dp[Cell(m + 1, i - 1, k - 1)] + kw == dp[Cell(m + 1, i, j)] {
          if Dist(i, k) < bestDist { bestDist, bestJ := Dist(i, k), k; }
        }
        k := k - 1;
      }
    }

    /**
      * The alignment: strictly increasing pairs of positive weight that no other chain outweighs, with either
      * tie-break and whatever the scratch held before.
      */
    method AlignWeighted(n: int, m: int, weight: Weight, tieBreakDiagonal: bool) returns (res: Pairs)
      modifies this, dp
      ensures dp == old(dp) || fresh(dp)
      ensures res == matches && Heaviest(weight, res, n, m)
    {
      matches := [];
      if n <= 0 || m <= 0 { return matches; }
      EnsureDP((n + 1) * (m + 1));
      FilledStart(weight, dp[..], n, m);
      Fill(n, m, weight);
      TraceBack(n, m, weight, tieBreakDiagonal);
      matches := Reversed(matches);
      res := matches;
      forall qs | Chain(weight, qs, n, m) ensures Total(weight, qs) <= V(weight, n, m) { ChainBound(weight, qs, n, m); }
    }

    method TraceBack(n: nat, m: nat, weight: Weight, tieBreakDiagonal: bool)
      requires Filled(weight, dp[..], n, m, n + 1, 1) && matches == []
      modifies this`matches
      ensures Chain(weight, Reversed(matches), n, m) && Total(weight, Reversed(matches)) == V(weight, n, m)
    {
      hide Filled, Beyond, V, Total;
      var i, j := n, m;
      ghost var found: Pairs := [];
      BeyondNone(weight, n, m);
      TotalNone(weight);
      while i > 0 && j > 0
        invariant 0 <= i <= n && 0 <= j <= m
        invariant found == Reversed(matches) && Beyond(weight, found, i, j, n, m)
        invariant Total(weight, found) + V(weight, i, j) == V(weight, n, m)
        decreases i + j
      {
        FilledCell(weight, dp[..], n, m, n + 1, 1, i, j);
        FilledCell(weight, dp[..], n, m, n + 1, 1, i - 1, j - 1);
        FilledCell(weight, dp[..], n, m, n + 1, 1, i - 1, j);
        FilledCell(weight, dp[..], n, m, n + 1, 1, i, j - 1);
        VStep(weight, i, j);
        var w := weight(i - 1, j - 1);
        if w > 0 && dp[Cell(m + 1, i, j)] == dp[Cell(m + 1, i - 1, j - 1)] + w {
          var bestJ := j;
          if tieBreakDiagonal { bestJ := Closest(n, m, weight, i, j); }
          assert Tie(weight, i, j, bestJ);
          ReversedPush(matches, (i - 1, bestJ - 1));
          BeyondPush(weight, found, i, j, n, m, bestJ);
          matches := matches + [(i - 1, bestJ - 1)];
          found := [(i - 1, bestJ - 1)] + found;
          i := i - 1;
          j := bestJ - 1;
        } else if dp[Cell(m + 1, i - 1, j)] >= dp[Cell(m + 1, i, j - 1)] {
          BeyondShrink(weight, found, i, j, n, m, i - 1, j);
          i := i - 1;
        } else {
          BeyondShrink(weight, found, i, j, n, m, i, j - 1);
          j := j - 1;
        }
      }
      BeyondChain(weight, found, i, j, n, m);
      VEdge(weight, i, j);
    }

    /** The longest common subsequence under an equality test. */
    method AlignUniform(n: int, m: int, eq: (nat, nat) -> bool) returns (res: Pairs)
      modifies this, dp
      ensures dp == old(dp) || fresh(dp)
      ensures res == matches && Longest(eq, res, n, m)
    {
      res := AlignWeighted(n, m, Unit(eq), false);
      LongestHeaviest(eq, res, n, m);
    }
  }
}
