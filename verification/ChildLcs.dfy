/** The child alignment: the heaviest common subsequence of two child lists under a one-to-one pairing. */
module ChildLcs {
  import opened Flat
  import opened Numbers

  /** x[i] and y[j] are partners where hit(i, j); score is what keeping that pair is worth. */
  datatype Board = Board(m: nat, n: nat, hit: (nat, nat) -> bool, score: (nat, nat) -> int)

  /** Each child has at most one partner, and keeping a pair is never a loss. */
  ghost predicate OneToOne(b: Board) {
    && (forall i, j, k :: b.hit(i, j) && b.hit(i, k) ==> j == k)
    && (forall i, j, k :: b.hit(i, k) && b.hit(j, k) ==> i == j)
    && (forall i, j :: b.score(i, j) >= 0)
  }

  /** Pairs of partners, rising on both sides, all at or after (i, j). */
  ghost predicate Chain(b: Board, ps: seq<(nat, nat)>, i: nat, j: nat) {
    && (forall k :: 0 <= k < |ps| ==> i <= ps[k].0 < b.m && j <= ps[k].1 < b.n && b.hit(ps[k].0, ps[k].1))
    && (forall k, l :: 0 <= k < l < |ps| ==> ps[k].0 < ps[l].0 && ps[k].1 < ps[l].1)
  }

  ghost function Total(b: Board, ps: seq<(nat, nat)>): int {
    if ps == [] then 0 else b.score(ps[0].0, ps[0].1) + Total(b, ps[1..])
  }

  /** The recurrence of the table: a pair of partners is always taken. */
  ghost function Opt(b: Board, i: nat, j: nat): int
    decreases b.m - i, b.n - j
  {
    if i >= b.m || j >= b.n then 0
    else if b.hit(i, j) then Opt(b, i + 1, j + 1) + b.score(i, j)
    else Max(Opt(b, i + 1, j), Opt(b, i, j + 1))
  }

  /** A column whose partner lies above row i adds nothing. */
  lemma {:induction false} SkipColumn(b: Board, i: nat, j: nat)
    requires OneToOne(b) && j < b.n && forall k :: i <= k < b.m ==> !b.hit(k, j)
    ensures Opt(b, i, j) == Opt(b, i, j + 1)
    decreases if i < b.m then b.m - i else 0, 1
  {
    if i < b.m {
      SkipColumn(b, i + 1, j);
      OptStepUp(b, i, j + 1);
    }
  }

  lemma {:induction false} SkipRow(b: Board, i: nat, j: nat)
    requires OneToOne(b) && i < b.m && forall k :: j <= k < b.n ==> !b.hit(i, k)
    ensures Opt(b, i, j) == Opt(b, i + 1, j)
    decreases if j < b.n then b.n - j else 0, 1
  {
    if j < b.n {
      SkipRow(b, i, j + 1);
      OptStepLeft(b, i + 1, j);
    }
  }

  lemma {:induction false} OptStepUp(b: Board, i: nat, j: nat)
    requires OneToOne(b)
    ensures Opt(b, i + 1, j) <= Opt(b, i, j)
    decreases if i < b.m then b.m - i else 0, 0
  {
    if i < b.m && j < b.n && b.hit(i, j) {
      SkipColumn(b, i + 1, j);
    }
  }

  lemma {:induction false} OptStepLeft(b: Board, i: nat, j: nat)
    requires OneToOne(b)
    ensures Opt(b, i, j + 1) <= Opt(b, i, j)
    decreases if j < b.n then b.n - j else 0, 0
  {
    if i < b.m && j < b.n && b.hit(i, j) {
      SkipRow(b, i, j + 1);
    }
  }

  /** No common subsequence weighs more than the table's value. */
  lemma {:induction false} ChainBound(b: Board, ps: seq<(nat, nat)>, i: nat, j: nat)
    requires OneToOne(b) && Chain(b, ps, i, j)
    ensures Total(b, ps) <= Opt(b, i, j)
    decreases (if i < b.m then b.m - i else 0) + (if j < b.n then b.n - j else 0)
  {
    if ps == [] {
      OptPositive(b, i, j);
    } else {
      var p := ps[0];
      if p.0 == i && p.1 == j {
        assert Chain(b, ps[1..], i + 1, j + 1);
        ChainBound(b, ps[1..], i + 1, j + 1);
      } else if p.0 > i {
        assert Chain(b, ps, i + 1, j);
        ChainBound(b, ps, i + 1, j);
        OptStepUp(b, i, j);
      } else {
        assert Chain(b, ps, i, j + 1);
        ChainBound(b, ps, i, j + 1);
        OptStepLeft(b, i, j);
      }
    }
  }

  lemma {:induction false} OptPositive(b: Board, i: nat, j: nat)
    requires OneToOne(b)
    ensures 0 <= Opt(b, i, j)
    decreases b.m - i, b.n - j
  {
    if i < b.m && j < b.n {
      if b.hit(i, j) { OptPositive(b, i + 1, j + 1); } else { OptPositive(b, i + 1, j); }
    }
  }

  /** The table is right from cell (i, j) on, row by row, and zero before. */
  ghost predicate Filled(b: Board, dp: seq<int>, i: nat, j: nat) {
    && |dp| == (b.m + 1) * (b.n + 1)
    && forall k: nat, l: nat {:trigger Read(dp, 0, b.n + 1, k, l)} :: k <= b.m && l <= b.n ==>
         Read(dp, 0, b.n + 1, k, l) == if k > i || (k == i && l >= j) then Opt(b, k, l) else 0
  }

  lemma FilledCell(b: Board, dp: seq<int>, i: nat, j: nat, k: nat, l: nat)
    requires Filled(b, dp, i, j) && k <= b.m && l <= b.n && (k > i || (k == i && l >= j))
    ensures Cell(b.n + 1, k, l) < |dp| && dp[Cell(b.n + 1, k, l)] == Opt(b, k, l)
  {
    ReadCell(dp, 0, b.n + 1, b.m + 1, k, l);
  }

  lemma FilledStart(b: Board, dp: seq<int>)
    requires |dp| == (b.m + 1) * (b.n + 1) && forall k :: 0 <= k < |dp| ==> dp[k] == 0
    ensures Filled(b, dp, b.m, 0)
  {
    forall k: nat, l: nat | k <= b.m && l <= b.n
      ensures Read(dp, 0, b.n + 1, k, l) == if k > b.m || (k == b.m && l >= 0) then Opt(b, k, l) else 0
    {
      ReadCell(dp, 0, b.n + 1, b.m + 1, k, l);
    }
  }

  lemma FilledRow(b: Board, dp: seq<int>, i: nat)
    requires i < b.m && Filled(b, dp, i + 1, 0)
    ensures Filled(b, dp, i, b.n)
  {
    forall k: nat, l: nat | k <= b.m && l <= b.n
      ensures Read(dp, 0, b.n + 1, k, l) == if k > i || (k == i && l >= b.n) then Opt(b, k, l) else 0
    {
    }
  }

  lemma FilledStep(b: Board, dp: seq<int>, i: nat, j: nat, v: int)
    requires i < b.m && j < b.n && Filled(b, dp, i, j + 1) && v == Opt(b, i, j)
    ensures Cell(b.n + 1, i, j) < |dp| && Filled(b, dp[Cell(b.n + 1, i, j) := v], i, j)
  {
    WriteCell(dp, 0, b.n + 1, b.m + 1, i, j, v);
  }

  /** The table of the recurrence, filled from the far corner back. */
  method Fill(b: Board) returns (opt: array<int>)
    ensures Filled(b, opt[..], 0, 0)
  {
    opt := new int[(b.m + 1) * (b.n + 1)](_ => 0);
    FilledStart(b, opt[..]);
    var i := b.m;
    while i > 0
      invariant 0 <= i <= b.m
      invariant Filled(b, opt[..], i, 0)
    {
      i := i - 1;
      FilledRow(b, opt[..], i);
      FillRow(b, opt, i);
    }
  }

  method FillRow(b: Board, opt: array<int>, i: nat)
    requires i < b.m && Filled(b, opt[..], i, b.n)
    modifies opt
    ensures Filled(b, opt[..], i, 0)
  {
    var j := b.n;
    while j > 0
      invariant 0 <= j <= b.n
      invariant Filled(b, opt[..], i, j)
    {
      j := j - 1;
      FilledCell(b, opt[..], i, j + 1, i + 1, j + 1);
      FilledCell(b, opt[..], i, j + 1, i + 1, j);
      FilledCell(b, opt[..], i, j + 1, i, j + 1);
      var v;
      if b.hit(i, j) {
        v := opt[Cell(b.n + 1, i + 1, j + 1)] + b.score(i, j);
      } else {
        v := Max(opt[Cell(b.n + 1, i + 1, j)], opt[Cell(b.n + 1, i, j + 1)]);
      }
      FilledStep(b, opt[..], i, j, v);
      ghost var before := opt[..];
      opt[Cell(b.n + 1, i, j)] := v;
      assert opt[..] == before[Cell(b.n + 1, i, j) := v];
    }
  }

  /** The pairs the generator keeps: a common subsequence, and no other one weighs more. */
  method Align(b: Board) returns (ps: seq<(nat, nat)>)
    requires OneToOne(b)
    ensures Chain(b, ps, 0, 0)
    ensures forall qs :: Chain(b, qs, 0, 0) ==> Total(b, qs) <= Total(b, ps)
  {
    ps := [];
    forall qs | Chain(b, qs, 0, 0) ensures Total(b, qs) <= Opt(b, 0, 0) { ChainBound(b, qs, 0, 0); }
    if b.m == 0 || b.n == 0 { return; }
    if b.m == 1 && b.n == 1 {
      if b.hit(0, 0) {
        ps := [(0, 0)];
        assert Opt(b, 1, 1) == 0;
      }
      return;
    }
    var opt := Fill(b);
    ps := Trace(b, opt);
  }

  /** A chain of pairs, all before row i and column j. */
  ghost predicate Ends(b: Board, ps: seq<(nat, nat)>, i: nat, j: nat) {
    Chain(b, ps, 0, 0) && forall k :: 0 <= k < |ps| ==> ps[k].0 < i && ps[k].1 < j
  }

  lemma EndsNext(b: Board, ps: seq<(nat, nat)>, i: nat, j: nat)
    requires Ends(b, ps, i, j) && i < b.m && j < b.n
    ensures b.hit(i, j) ==> Ends(b, ps + [(i, j)], i + 1, j + 1)
    ensures Ends(b, ps, i + 1, j) && Ends(b, ps, i, j + 1)
  {
  }

  /** The forward walk through the table realises its value. */
  method Trace(b: Board, opt: array<int>) returns (ps: seq<(nat, nat)>)
    requires Filled(b, opt[..], 0, 0)
    ensures Chain(b, ps, 0, 0) && Total(b, ps) == Opt(b, 0, 0)
  {
    ps := [];
    var i, j := 0, 0;
    assert Ends(b, ps, i, j);
    hide Chain, Ends, Filled;
    while i < b.m && j < b.n
      invariant 0 <= i <= b.m && 0 <= j <= b.n && Ends(b, ps, i, j)
      invariant Total(b, ps) + Opt(b, i, j) == Opt(b, 0, 0)
      decreases b.m - i + b.n - j
    {
      FilledCell(b, opt[..], 0, 0, i + 1, j);
      FilledCell(b, opt[..], 0, 0, i, j + 1);
      EndsNext(b, ps, i, j);
      if b.hit(i, j) {
        TotalAppend(b, ps, (i, j));
        ps := ps + [(i, j)];
        i, j := i + 1, j + 1;
      } else if opt[Cell(b.n + 1, i + 1, j)] > opt[Cell(b.n + 1, i, j + 1)] {
        i := i + 1;
      } else {
        j := j + 1;
      }
    }
  }

  lemma {:induction false} TotalAppend(b: Board, ps: seq<(nat, nat)>, p: (nat, nat))
    ensures Total(b, ps + [p]) == Total(b, ps) + b.score(p.0, p.1)
  {
    if ps == [] {
      assert ps + [p] == [p];
    } else {
      TotalAppend(b, ps[1..], p);
      assert (ps + [p])[1..] == ps[1..] + [p];
    }
  }

  // ---------------------------------------------------------------- weight against length

  /** Keeping a pair is worth between 100 and 130. */
  ghost predicate Priced(b: Board) {
    forall i, j :: b.hit(i, j) ==> 100 <= b.score(i, j) <= 130
  }

  lemma {:induction false} TotalRange(b: Board, ps: seq<(nat, nat)>)
    requires Priced(b) && Chain(b, ps, 0, 0)
    ensures 100 * |ps| <= Total(b, ps) <= 130 * |ps|
  {
    if ps != [] {
      assert Chain(b, ps[1..], 0, 0);
      TotalRange(b, ps[1..]);
    }
  }

  /** So the heaviest chain is nearly the longest, and the longest as far as four pairs go. */
  lemma NearLongest(b: Board, ps: seq<(nat, nat)>, qs: seq<(nat, nat)>)
    requires Priced(b) && Chain(b, ps, 0, 0) && Chain(b, qs, 0, 0) && Total(b, qs) <= Total(b, ps)
    ensures 10 * |qs| <= 13 * |ps| && (|qs| <= 4 ==> |qs| <= |ps|)
  {
    TotalRange(b, ps);
    TotalRange(b, qs);
  }

  /** Fourteen children: the first five and the last five change places, the four between them stay. */
  function Exchanged(i: nat): nat {
    if i < 5 then i + 9 else if 9 <= i < 14 then i - 9 else i
  }

  const EXCHANGE := Board(14, 14, (i: nat, j: nat) => i < 14 && j == Exchanged(i),
                          (i: nat, j: nat) => if i == j then 130 else 100)

  const FIXED: seq<(nat, nat)> := seq(4, (k: nat) => (k + 5, k + 5))
  const MOVED: seq<(nat, nat)> := seq(5, (k: nat) => (k, k + 9))

  /** Beyond four pairs it is not: the four that stay outweigh five that moved together. */
  lemma LongerLoses(ps: seq<(nat, nat)>)
    requires Chain(EXCHANGE, ps, 0, 0)
    requires forall qs :: Chain(EXCHANGE, qs, 0, 0) ==> Total(EXCHANGE, qs) <= Total(EXCHANGE, ps)
    ensures |ps| == 4
    ensures OneToOne(EXCHANGE) && Priced(EXCHANGE) && Chain(EXCHANGE, MOVED, 0, 0) && |MOVED| == 5
  {
    hide Total, Chain, OneToOne, Priced;
    ExchangeBoard();
    ExchangeChains();
    TotalUniform(FIXED, true);
    TotalRange(EXCHANGE, ps);
    OneGroup(ps);
    if !(5 <= ps[0].0 < 9) { TotalUniform(ps, false); }
  }

  lemma ExchangeBoard()
    ensures OneToOne(EXCHANGE) && Priced(EXCHANGE)
  {
    var b := EXCHANGE;
    forall i, j, k ensures b.hit(i, k) && b.hit(j, k) ==> i == j {}
    forall i, j, k ensures b.hit(i, j) && b.hit(i, k) ==> j == k {}
  }

  lemma ExchangeChains()
    ensures Chain(EXCHANGE, FIXED, 0, 0) && Chain(EXCHANGE, MOVED, 0, 0)
  {
  }

  /** A chain stays within one of the three groups. */
  lemma OneGroup(ps: seq<(nat, nat)>)
    requires Chain(EXCHANGE, ps, 0, 0) && ps != []
    ensures |ps| <= 5 && (5 <= ps[0].0 < 9 ==> |ps| <= 4)
    ensures !(5 <= ps[0].0 < 9) ==> forall k :: 0 <= k < |ps| ==> ps[k].0 != ps[k].1
  {
    var p, q := ps[0], ps[|ps| - 1];
    Rising(EXCHANGE, ps, |ps| - 1);
    assert |ps| > 1 ==> p.0 < q.0 && p.1 < q.1;
    assert forall k :: 0 < k < |ps| ==> p.0 < ps[k].0 && p.1 < ps[k].1;
  }

  lemma {:induction false} Rising(b: Board, ps: seq<(nat, nat)>, k: nat)
    requires Chain(b, ps, 0, 0) && k < |ps|
    ensures ps[0].0 + k <= ps[k].0
  {
    if k > 0 { Rising(b, ps, k - 1); }
  }

  lemma {:induction false} TotalUniform(ps: seq<(nat, nat)>, stay: bool)
    requires forall k :: 0 <= k < |ps| ==> (ps[k].0 == ps[k].1) == stay
    ensures Total(EXCHANGE, ps) == (if stay then 130 else 100) * |ps|
  {
    if ps != [] { TotalUniform(ps[1..], stay); }
  }
}
