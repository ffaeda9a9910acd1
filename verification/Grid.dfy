/** The side-by-side grid: anchors face each other, the gaps between them are aligned, and every line is shown once. */
module Grid {
  import opened Lists
  import opened Anchors
  import opened Gotoh
  import opened GotohDense
  import opened GridRows
  import opened DenseAlign
  import opened BandedAlign
  import opened SeqDiff
  import opened LineMatching
  import LineDiff

  /** The grid res continues grid with rows that list the lines s0..s1 and d0..d1. */
  ghost predicate Extends(grid: seq<Row>, res: seq<Row>, s0: nat, s1: nat, d0: nat, d1: nat) {
    |grid| <= |res| && res[..|grid|] == grid && Covers(res[|grid|..], s0, s1, d0, d1)
  }

  lemma ExtendsNothing(grid: seq<Row>, s: nat, d: nat)
    ensures Extends(grid, grid, s, s, d, d)
  {
    assert grid[|grid|..] == [];
    assert Lines(s, s) == [] && Lines(d, d) == [];
  }

  lemma ExtendsTwice(g0: seq<Row>, g1: seq<Row>, g2: seq<Row>, s0: nat, s1: nat, s2: nat, d0: nat, d1: nat, d2: nat)
    requires Extends(g0, g1, s0, s1, d0, d1) && Extends(g1, g2, s1, s2, d1, d2)
    ensures Extends(g0, g2, s0, s2, d0, d2)
  {
    CoversConcat(g1[|g0|..], g2[|g1|..], s0, s1, s2, d0, d1, d2);
    assert g2[|g0|..] == g1[|g0|..] + g2[|g1|..];
  }

  lemma ExtendsRow(grid: seq<Row>, op: Op, s: nat, d: nat)
    ensures Extends(grid, grid + [RowOf(op, s, d)], s, Down(op, s), d, Right(op, d))
  {
    CoversRow(op, s, d);
    assert (grid + [RowOf(op, s, d)])[|grid|..] == [RowOf(op, s, d)];
  }

  method EmitSources(grid: seq<Row>, sStart: nat, srcCount: nat, ghost d: nat) returns (res: seq<Row>)
    ensures Extends(grid, res, sStart, sStart + srcCount, d, d)
  {
    hide Extends;
    res := grid;
    ExtendsNothing(grid, sStart, d);
    for k := 0 to srcCount
      invariant Extends(grid, res, sStart, sStart + k, d, d)
    {
      ExtendsRow(res, Del, sStart + k, d);
      ExtendsTwice(grid, res, res + [Row(sStart + k, -1)], sStart, sStart + k, sStart + k + 1, d, d, d);
      res := res + [Row(sStart + k, -1)];
    }
  }

  method EmitTargets(grid: seq<Row>, ghost s: nat, dStart: nat, dstCount: nat) returns (res: seq<Row>)
    ensures Extends(grid, res, s, s, dStart, dStart + dstCount)
  {
    hide Extends;
    res := grid;
    ExtendsNothing(grid, s, dStart);
    for k := 0 to dstCount
      invariant Extends(grid, res, s, s, dStart, dStart + k)
    {
      ExtendsRow(res, Ins, s, dStart + k);
      ExtendsTwice(grid, res, res + [Row(-1, dStart + k)], s, s, s, dStart, dStart + k, dStart + k + 1);
      res := res + [Row(-1, dStart + k)];
    }
  }

  // ---------------------------------------------------------------- gaps and their outcome

  /** Both files, how their lines are compared, and what pairing two of their lines is worth. */
  datatype Files = Files(rules: LineDiff.LineRules, src: seq<string>, dst: seq<string>, score: LineScore)

  /** The source lines s0..s1 against the target lines d0..d1. */
  datatype Gap = Gap(s0: nat, s1: nat, d0: nat, d1: nat)

  predicate InFiles(f: Files, g: Gap) {
    g.s0 <= g.s1 <= |f.src| && g.d0 <= g.d1 <= |f.dst|
  }

  /** Anchors that increase on both sides, all inside the gap. */
  ghost predicate AllInside(anchors: seq<Anchor>, g: Gap) {
    && Increasing(anchors)
    && forall k :: 0 <= k < |anchors| ==> g.s0 <= anchors[k].src < g.s1 && g.d0 <= anchors[k].dst < g.d1
  }

  /** The part of the gap before an anchor, and the part after it. */
  function PartBefore(g: Gap, an: Anchor): Gap {
    Gap(g.s0, an.src, g.d0, an.dst)
  }

  function PartAfter(g: Gap, an: Anchor): Gap {
    Gap(an.src + 1, g.s1, an.dst + 1, g.d1)
  }

  /** The anchor is a match of the gap. */
  predicate IsMatch(matched: map<nat, nat>, g: Gap, an: Anchor) {
    an.src >= g.s0 && an.src - g.s0 in matched && an.dst == g.d0 + matched[an.src - g.s0]
  }

  /** The match of line h of the gap is among the anchors. */
  predicate Has(matched: map<nat, nat>, g: Gap, anchors: seq<Anchor>, h: nat) {
    h in matched ==> Anchor(g.s0 + h, g.d0 + matched[h]) in anchors
  }

  /** The matches of a line diff of the gap, as anchors of the whole files. */
  ghost predicate AnchorsOf(matched: map<nat, nat>, g: Gap, anchors: seq<Anchor>) {
    && AllInside(anchors, g)
    && (forall k :: 0 <= k < |anchors| ==> IsMatch(matched, g, anchors[k]))
    && forall h: nat {:trigger Has(matched, g, anchors, h)} :: Has(matched, g, anchors, h)
  }

  /** The anchors at which a line diff divides the gap. */
  ghost predicate Divides(f: Files, g: Gap, anchors: seq<Anchor>)
    requires InFiles(f, g)
  {
    exists matched: map<nat, nat> ::
      && Matching(f.rules.trim, f.src[g.s0..g.s1], f.dst[g.d0..g.d1], matched)
      && LineDiff.Diffed(f.rules, f.src[g.s0..g.s1], f.dst[g.d0..g.d1], matched)
      && AnchorsOf(matched, g, anchors)
  }

  /** The routes of a gap that is not too large: a full table unless both sides are long. */
  predicate IsDense(srcCount: nat, dstCount: nat) {
    srcCount <= 40 || dstCount <= 40 || srcCount * dstCount <= 3600
  }

  /** Whether every traceback that the gap takes stays in its own gap: the one of a dense gap, those of all the parts of
      a gap that is divided. The others always do. */
  ghost predicate Outcome(f: Files, g: Gap, stays: bool)
    requires InFiles(f, g)
    decreases g.s1 - g.s0, 1
  {
    var m, n := g.s1 - g.s0, g.d1 - g.d0;
    if m == 0 || n == 0 then stays
    else if m * n > MAX_CELLS then
      exists anchors :: Divides(f, g, anchors)
        && if anchors == [] then stays else AroundOutcome(f, anchors, 0, g, stays)
    else if IsDense(m, n) then stays == DenseRoute(f.score, g.s0, g.s1, g.d0, g.d1).Some?
    else stays
  }

  /** The same for the parts around the anchors from the k-th on: all of them stay, or one of them does not. */
  ghost predicate AroundOutcome(f: Files, anchors: seq<Anchor>, k: nat, g: Gap, stays: bool)
    requires InFiles(f, g)
    decreases g.s1 - g.s0, if k < |anchors| then 0 else 2
  {
    if k >= |anchors| then Outcome(f, g, stays)
    else
      var an := anchors[k];
      && g.s0 <= an.src < g.s1 && g.d0 <= an.dst < g.d1
      && if stays then Outcome(f, PartBefore(g, an), true) && AroundOutcome(f, anchors, k + 1, PartAfter(g, an), true)
         else Outcome(f, PartBefore(g, an), false) || AroundOutcome(f, anchors, k + 1, PartAfter(g, an), false)
  }

  /** What the parts from position (s, d) on come to is what the whole comes to. */
  ghost predicate Leads(f: Files, anchors: seq<Anchor>, whole: Gap, k: nat, g: Gap)
    requires InFiles(f, whole) && InFiles(f, g)
  {
    forall stays :: AroundOutcome(f, anchors, k, g, stays) ==> AroundOutcome(f, anchors, 0, whole, stays)
  }

  lemma LeadsStep(f: Files, anchors: seq<Anchor>, whole: Gap, k: nat, g: Gap)
    requires InFiles(f, whole) && InFiles(f, g) && Leads(f, anchors, whole, k, g) && k < |anchors|
    requires g.s0 <= anchors[k].src < g.s1 && g.d0 <= anchors[k].dst < g.d1
    ensures Outcome(f, PartBefore(g, anchors[k]), true) ==> Leads(f, anchors, whole, k + 1, PartAfter(g, anchors[k]))
    ensures Outcome(f, PartBefore(g, anchors[k]), false) ==> AroundOutcome(f, anchors, 0, whole, false)
  {
    hide Outcome;
    if Outcome(f, PartBefore(g, anchors[k]), true) {
      forall stays | AroundOutcome(f, anchors, k + 1, PartAfter(g, anchors[k]), stays)
        ensures AroundOutcome(f, anchors, k, g, stays)
      {
      }
    }
    assert Outcome(f, PartBefore(g, anchors[k]), false) ==> AroundOutcome(f, anchors, k, g, false);
  }

  lemma LeadsLast(f: Files, anchors: seq<Anchor>, whole: Gap, g: Gap, stays: bool)
    requires InFiles(f, whole) && InFiles(f, g) && Leads(f, anchors, whole, |anchors|, g) && Outcome(f, g, stays)
    ensures AroundOutcome(f, anchors, 0, whole, stays)
  {
    assert AroundOutcome(f, anchors, |anchors|, g, stays);
  }

  lemma LeadsStart(f: Files, anchors: seq<Anchor>, whole: Gap)
    requires InFiles(f, whole)
    ensures Leads(f, anchors, whole, 0, whole)
  {
  }

  // ---------------------------------------------------------------- one gap

  /** The anchors for the matches of the first i lines; lastDst is the target line of the last one. */
  ghost predicate SoFar(matched: map<nat, nat>, g: Gap, i: nat, anchors: seq<Anchor>, lastDst: int) {
    && AllInside(anchors, g)
    && (forall k :: 0 <= k < |anchors| ==> IsMatch(matched, g, anchors[k]) && anchors[k].src < g.s0 + i)
    && (forall h: nat {:trigger Has(matched, g, anchors, h)} :: h < i ==> Has(matched, g, anchors, h))
    && lastDst == if anchors == [] then -1 else anchors[|anchors| - 1].dst - g.d0
  }

  /** In a matching the next match always lies after the last one. */
  lemma TakeMatch(trim: Trim, a: seq<string>, b: seq<string>, matched: map<nat, nat>, g: Gap, i: nat,
                  anchors: seq<Anchor>, lastDst: int)
    requires Matching(trim, a, b, matched) && g.s1 == g.s0 + |a| && g.d1 == g.d0 + |b|
    requires SoFar(matched, g, i, anchors, lastDst) && i in matched
    ensures matched[i] > lastDst
    ensures SoFar(matched, g, i + 1, anchors + [Anchor(g.s0 + i, g.d0 + matched[i])], matched[i])
  {
    var next := anchors + [Anchor(g.s0 + i, g.d0 + matched[i])];
    if anchors != [] {
      var last := anchors[|anchors| - 1];
      assert IsMatch(matched, g, last);
      assert matched[last.src - g.s0] < matched[i];
      LastIsLast(anchors);
    }
    assert next[|anchors|] == Anchor(g.s0 + i, g.d0 + matched[i]);
    forall h: nat | h < i + 1 ensures Has(matched, g, next, h) {
      assert h < i ==> Has(matched, g, anchors, h);
    }
  }

  lemma LastIsLast(anchors: seq<Anchor>)
    requires Increasing(anchors) && anchors != []
    ensures forall k :: 0 <= k < |anchors| ==>
              anchors[k].src <= anchors[|anchors| - 1].src && anchors[k].dst <= anchors[|anchors| - 1].dst
  {
  }

  lemma SkipLine(matched: map<nat, nat>, g: Gap, i: nat, anchors: seq<Anchor>, lastDst: int)
    requires SoFar(matched, g, i, anchors, lastDst) && i !in matched
    ensures SoFar(matched, g, i + 1, anchors, lastDst)
  {
    forall h: nat | h < i + 1 ensures Has(matched, g, anchors, h) {
      assert h < i ==> Has(matched, g, anchors, h);
    }
  }

  lemma AllLines(trim: Trim, a: seq<string>, b: seq<string>, matched: map<nat, nat>, g: Gap, anchors: seq<Anchor>,
                 lastDst: int)
    requires Matching(trim, a, b, matched) && SoFar(matched, g, |a|, anchors, lastDst)
    ensures AnchorsOf(matched, g, anchors)
  {
    forall h: nat ensures Has(matched, g, anchors, h) {
      assert h < |a| ==> Has(matched, g, anchors, h);
    }
  }

  method SubAnchors(trim: Trim, subSrc: seq<string>, subDst: seq<string>, matched: map<nat, nat>, ghost g: Gap,
                    sStart: nat, dStart: nat)
    returns (subAnchors: seq<Anchor>)
    requires Matching(trim, subSrc, subDst, matched)
    requires g == Gap(sStart, sStart + |subSrc|, dStart, dStart + |subDst|)
    ensures AnchorsOf(matched, g, subAnchors)
  {
    subAnchors := [];
    var lastDst: int := -1;
    assert SoFar(matched, g, 0, subAnchors, lastDst);
    hide SoFar, AnchorsOf, Matching;
    for i := 0 to |subSrc|
      invariant SoFar(matched, g, i, subAnchors, lastDst)
    {
      if i in matched {
        TakeMatch(trim, subSrc, subDst, matched, g, i, subAnchors, lastDst);
      } else {
        SkipLine(matched, g, i, subAnchors, lastDst);
      }
      if i in matched && matched[i] > lastDst {
        subAnchors := subAnchors + [Anchor(sStart + i, dStart + matched[i])];
        lastDst := matched[i];
      }
    }
    AllLines(trim, subSrc, subDst, matched, g, subAnchors, lastDst);
  }

  /**
    * One gap: the grid grows by rows that list each line of the gap once and in order, on every route, or there is no
    * result because a traceback has left its gap; on the dense route, while the sentinel cannot win, by a best
    * alignment.
    */
  method AlignGap(grid: seq<Row>, f: Files, sStart: nat, sEnd: nat, dStart: nat, dEnd: nat,
                  scratch: AlignScratch, seqScratch: SeqScratch)
    returns (res: Option<seq<Row>>)
    requires sStart <= sEnd <= |f.src| && dStart <= dEnd <= |f.dst| && InRange(f.score)
    modifies scratch, scratch.dp, seqScratch, seqScratch.dp
    ensures scratch.dp == old(scratch.dp) || fresh(scratch.dp)
    ensures seqScratch.dp == old(seqScratch.dp) || fresh(seqScratch.dp)
    ensures Outcome(f, Gap(sStart, sEnd, dStart, dEnd), res.Some?)
    ensures res.Some? ==> Extends(grid, res.value, sStart, sEnd, dStart, dEnd)
    ensures var m, n := sEnd - sStart, dEnd - dStart;
            m > 0 && n > 0 && m * n <= MAX_CELLS && IsDense(m, n) && Safe(m, n) ==>
              res.Some? && BestRows(res.value[|grid|..], f.score, sStart, sEnd, dStart, dEnd)
    decreases sEnd - sStart, 2
  {
    hide Covers, BestRows, BestInBand, AroundOutcome, Divides, MeetsEdge, Safe, InRange;
    var srcCount, dstCount := sEnd - sStart, dEnd - dStart;
    if srcCount <= 0 && dstCount <= 0 {
      ExtendsNothing(grid, sStart, dStart);
      return Some(grid);
    }
    if srcCount <= 0 {
      var rows := EmitTargets(grid, sStart, dStart, dstCount);
      return Some(rows);
    }
    if dstCount <= 0 {
      var rows := EmitSources(grid, sStart, srcCount, dStart);
      return Some(rows);
    }
    if srcCount * dstCount > MAX_CELLS {
      res := DivideGap(grid, f, sStart, sEnd, dStart, dEnd, scratch, seqScratch);
      return;
    }
    if IsDense(srcCount, dstCount) {
      res := AlignDense(grid, f.score, sStart, sEnd, dStart, dEnd, scratch);
    } else {
      var rows := AlignBanded(grid, f.score, sStart, sEnd, dStart, dEnd, scratch);
      res := Some(rows);
    }
  }

  /** A gap too large for a table: divided at the matches of a line diff, or, without any, its source lines first. */
  method DivideGap(grid: seq<Row>, f: Files, sStart: nat, sEnd: nat, dStart: nat, dEnd: nat,
                   scratch: AlignScratch, seqScratch: SeqScratch)
    returns (res: Option<seq<Row>>)
    requires sStart < sEnd <= |f.src| && dStart < dEnd <= |f.dst| && InRange(f.score)
    requires (sEnd - sStart) * (dEnd - dStart) > MAX_CELLS
    modifies scratch, scratch.dp, seqScratch, seqScratch.dp
    ensures scratch.dp == old(scratch.dp) || fresh(scratch.dp)
    ensures seqScratch.dp == old(seqScratch.dp) || fresh(seqScratch.dp)
    ensures Outcome(f, Gap(sStart, sEnd, dStart, dEnd), res.Some?)
    ensures res.Some? ==> Extends(grid, res.value, sStart, sEnd, dStart, dEnd)
    decreases sEnd - sStart, 1
  {
    hide Extends, AroundOutcome, Divides, Inside, Matching, AnchorsOf, InRange, LineDiff.Diffed;
    ghost var g := Gap(sStart, sEnd, dStart, dEnd);
    var subSrc, subDst := f.src[sStart..sEnd], f.dst[dStart..dEnd];
    var matched := LineDiff.LineDiff(f.rules, subSrc, subDst, seqScratch);
    var subAnchors := SubAnchors(f.rules.trim, subSrc, subDst, matched, g, sStart, dStart);
    DividesAt(f, g, matched, subAnchors);
    if |matched| > 0 && |subAnchors| > 0 {
      res := AlignAround(grid, f, subAnchors, sStart, sEnd, dStart, dEnd, scratch, seqScratch);
      return;
    }
    NoAnchors(matched, g, subAnchors);
    var mid := EmitSources(grid, sStart, sEnd - sStart, dStart);
    var rows := EmitTargets(mid, sEnd, dStart, dEnd - dStart);
    ExtendsTwice(grid, mid, rows, sStart, sEnd, sEnd, dStart, dStart, dEnd);
    res := Some(rows);
  }

  lemma DividesAt(f: Files, g: Gap, matched: map<nat, nat>, anchors: seq<Anchor>)
    requires InFiles(f, g) && AnchorsOf(matched, g, anchors)
    requires Matching(f.rules.trim, f.src[g.s0..g.s1], f.dst[g.d0..g.d1], matched)
    requires LineDiff.Diffed(f.rules, f.src[g.s0..g.s1], f.dst[g.d0..g.d1], matched)
    ensures Divides(f, g, anchors) && AllInside(anchors, g)
  {
  }

  lemma NoAnchors(matched: map<nat, nat>, g: Gap, anchors: seq<Anchor>)
    requires AnchorsOf(matched, g, anchors) && (|matched| == 0 || |anchors| == 0)
    ensures anchors == []
  {
    hide Inside;
    if |matched| == 0 { assert matched == map[]; }
    assert anchors != [] ==> IsMatch(matched, g, anchors[0]);
  }

  /** A gap divided at anchors of its own. */
  method AlignAround(grid: seq<Row>, f: Files, anchors: seq<Anchor>, sStart: nat, sEnd: nat, dStart: nat, dEnd: nat,
                     scratch: AlignScratch, seqScratch: SeqScratch)
    returns (res: Option<seq<Row>>)
    requires sStart <= sEnd <= |f.src| && dStart <= dEnd <= |f.dst| && InRange(f.score)
    requires anchors != [] && AllInside(anchors, Gap(sStart, sEnd, dStart, dEnd))
    modifies scratch, scratch.dp, seqScratch, seqScratch.dp
    ensures scratch.dp == old(scratch.dp) || fresh(scratch.dp)
    ensures seqScratch.dp == old(seqScratch.dp) || fresh(seqScratch.dp)
    ensures AroundOutcome(f, anchors, 0, Gap(sStart, sEnd, dStart, dEnd), res.Some?)
    ensures res.Some? ==> Extends(grid, res.value, sStart, sEnd, dStart, dEnd)
    decreases sEnd - sStart, 0
  {
    hide Extends, InRange, BestRows, AroundOutcome, Outcome, Leads;
    ghost var whole := Gap(sStart, sEnd, dStart, dEnd);
    var currSrc, currDst := sStart, dStart;
    var rows := grid;
    ExtendsNothing(grid, sStart, dStart);
    LeadsStart(f, anchors, whole);
    for k := 0 to |anchors|
      invariant sStart <= currSrc <= sEnd && dStart <= currDst <= dEnd && (k > 0 ==> currSrc > sStart)
      invariant k < |anchors| ==> currSrc <= anchors[k].src && currDst <= anchors[k].dst
      invariant Extends(grid, rows, sStart, currSrc, dStart, currDst)
      invariant Leads(f, anchors, whole, k, Gap(currSrc, sEnd, currDst, dEnd))
      invariant scratch.dp == old(scratch.dp) || fresh(scratch.dp)
      invariant seqScratch.dp == old(seqScratch.dp) || fresh(seqScratch.dp)
    {
      var sa := anchors[k];
      var gap := AlignGap(rows, f, currSrc, sa.src, currDst, sa.dst, scratch, seqScratch);
      LeadsStep(f, anchors, whole, k, Gap(currSrc, sEnd, currDst, dEnd));
      if gap == None { return None; }
      ExtendsTwice(grid, rows, gap.value, sStart, currSrc, sa.src, dStart, currDst, sa.dst);
      ExtendsRow(gap.value, Pair, sa.src, sa.dst);
      rows := gap.value + [Row(sa.src, sa.dst)];
      ExtendsTwice(grid, gap.value, rows, sStart, sa.src, sa.src + 1, dStart, sa.dst, sa.dst + 1);
      currSrc, currDst := sa.src + 1, sa.dst + 1;
    }
    res := AlignGap(rows, f, currSrc, sEnd, currDst, dEnd, scratch, seqScratch);
    LeadsLast(f, anchors, whole, Gap(currSrc, sEnd, currDst, dEnd), res.Some?);
    if res.Some? { ExtendsTwice(grid, rows, res.value, sStart, currSrc, sEnd, dStart, currDst, dEnd); }
  }

  // ---------------------------------------------------------------- the whole grid

  /** The rows of the first n anchors are in the grid. */
  ghost predicate Shows(grid: seq<Row>, anchors: seq<Anchor>, n: nat) {
    forall k :: 0 <= k < n && k < |anchors| ==> Row(anchors[k].src, anchors[k].dst) in grid
  }

  lemma ShowsMore(grid: seq<Row>, gap: seq<Row>, anchors: seq<Anchor>, n: nat)
    requires Shows(grid, anchors, n) && |grid| <= |gap| && gap[..|grid|] == grid
    ensures Shows(gap, anchors, n)
    ensures n < |anchors| ==> Shows(gap + [Row(anchors[n].src, anchors[n].dst)], anchors, n + 1)
  {
    assert gap == grid + gap[|grid|..];
  }

  function WholeFiles(f: Files): Gap {
    Gap(0, |f.src|, 0, |f.dst|)
  }

  /** The whole grid lists every source line and every target line once and in order, anchors facing each other; there
      is no result just when a traceback has left its gap. */
  method EmitGrid(f: Files, anchors: seq<Anchor>, scratch: AlignScratch, seqScratch: SeqScratch)
    returns (grid: Option<seq<Row>>)
    requires InRange(f.score) && AllInside(anchors, WholeFiles(f))
    modifies scratch, scratch.dp, seqScratch, seqScratch.dp
    ensures AroundOutcome(f, anchors, 0, WholeFiles(f), grid.Some?)
    ensures grid.Some? ==> Covers(grid.value, 0, |f.src|, 0, |f.dst|) && Shows(grid.value, anchors, |anchors|)
  {
    hide Covers, InRange, BestRows, Shows, AroundOutcome, Outcome, Leads;
    ghost var whole := WholeFiles(f);
    var currSrc, currDst := 0, 0;
    var rows := [];
    ExtendsNothing([], 0, 0);
    NothingShown(anchors);
    LeadsStart(f, anchors, whole);
    for k := 0 to |anchors|
      invariant 0 <= currSrc <= |f.src| && 0 <= currDst <= |f.dst|
      invariant k < |anchors| ==> currSrc <= anchors[k].src && currDst <= anchors[k].dst
      invariant Extends([], rows, 0, currSrc, 0, currDst) && Shows(rows, anchors, k)
      invariant Leads(f, anchors, whole, k, Gap(currSrc, |f.src|, currDst, |f.dst|))
      invariant scratch.dp == old(scratch.dp) || fresh(scratch.dp)
      invariant seqScratch.dp == old(seqScratch.dp) || fresh(seqScratch.dp)
    {
      var an := anchors[k];
      var gap := AlignGap(rows, f, currSrc, an.src, currDst, an.dst, scratch, seqScratch);
      LeadsStep(f, anchors, whole, k, Gap(currSrc, |f.src|, currDst, |f.dst|));
      if gap == None { return None; }
      ExtendsTwice([], rows, gap.value, 0, currSrc, an.src, 0, currDst, an.dst);
      ShowsMore(rows, gap.value, anchors, k);
      ExtendsRow(gap.value, Pair, an.src, an.dst);
      rows := gap.value + [Row(an.src, an.dst)];
      ExtendsTwice([], gap.value, rows, 0, an.src, an.src + 1, 0, an.dst, an.dst + 1);
      currSrc, currDst := an.src + 1, an.dst + 1;
    }
    grid := AlignGap(rows, f, currSrc, |f.src|, currDst, |f.dst|, scratch, seqScratch);
    LeadsLast(f, anchors, whole, Gap(currSrc, |f.src|, currDst, |f.dst|), grid.Some?);
    if grid.Some? {
      ExtendsTwice([], rows, grid.value, 0, currSrc, |f.src|, 0, currDst, |f.dst|);
      ShowsMore(rows, grid.value, anchors, |anchors|);
      assert grid.value[0..] == grid.value;
    }
  }

  lemma NothingShown(anchors: seq<Anchor>)
    ensures Shows([], anchors, 0)
  {
  }
}
