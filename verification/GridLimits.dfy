/** For which sizes of its gaps the grid is complete, whatever the lines read and however alike they are. */
module GridLimits {
  import opened Lists
  import opened Anchors
  import opened Gotoh
  import opened GotohDense
  import opened DenseAlign
  import BandedAlign
  import opened LineMatching
  import LineDiff
  import opened LoneMatch
  import opened Grid

  function Rows(g: Gap): int {
    g.s1 - g.s0
  }

  function Columns(g: Gap): int {
    g.d1 - g.d0
  }

  /** A gap with nothing on one side, or one for which the sentinel cannot win; so are all gaps inside it. */
  predicate Small(g: Gap) {
    Rows(g) <= 0 || Columns(g) <= 0 || Safe(Rows(g), Columns(g))
  }

  /** A small gap stays, on every route. */
  lemma {:induction false} SmallStays(f: Files, g: Gap, stays: bool)
    requires InFiles(f, g) && Small(g) && Outcome(f, g, stays)
    ensures stays
    decreases g.s1 - g.s0, 1
  {
    hide Divides, AroundOutcome, DenseRoute;
    var m, n := g.s1 - g.s0, g.d1 - g.d0;
    if m > 0 && n > 0 && m * n > BandedAlign.MAX_CELLS {
      var anchors :| Divides(f, g, anchors) && if anchors == [] then stays else AroundOutcome(f, anchors, 0, g, stays);
      if anchors != [] { SmallAround(f, anchors, 0, g, stays); }
    } else if m > 0 && n > 0 && IsDense(m, n) {
      SafeStays(f, g);
    }
  }

  lemma SafeStays(f: Files, g: Gap)
    requires InFiles(f, g) && g.s0 < g.s1 && g.d0 < g.d1 && Safe(g.s1 - g.s0, g.d1 - g.d0)
    ensures DenseRoute(f.score, g.s0, g.s1, g.d0, g.d1).Some?
  {
    DenseOptimal(Within(f.score, g.s0, g.d0), g.s1 - g.s0, g.d1 - g.d0);
  }

  lemma {:induction false} SmallAround(f: Files, anchors: seq<Anchor>, k: nat, g: Gap, stays: bool)
    requires InFiles(f, g) && Small(g) && AroundOutcome(f, anchors, k, g, stays)
    ensures stays
    decreases g.s1 - g.s0, if k < |anchors| then 0 else 2
  {
    hide Outcome;
    if k >= |anchors| {
      SmallStays(f, g, stays);
    } else if !stays {
      if Outcome(f, PartBefore(g, anchors[k]), false) {
        SmallStays(f, PartBefore(g, anchors[k]), false);
      } else {
        SmallAround(f, anchors, k + 1, PartAfter(g, anchors[k]), false);
      }
    }
  }

  /**
    * The sizes of gaps that stay whatever their lines are. A gap that has its own dense table must be small. One too
    * large for a table is divided, and its parts are smaller on both sides: it may have one line more on either side,
    * or any number of lines against a single one.
    */
  predicate Fits(m: int, n: int) {
    if m <= 0 || n <= 0 then true
    else if m * n <= BandedAlign.MAX_CELLS then IsDense(m, n) ==> Safe(m, n)
    else m == 1 || n == 1 || (m <= SAFE_SIDE + 1 && n <= SAFE_SIDE + 2)
  }

  lemma FitStays(f: Files, g: Gap, stays: bool)
    requires InFiles(f, g) && Fits(Rows(g), Columns(g)) && Outcome(f, g, stays)
    ensures stays
  {
    hide Divides, AroundOutcome, DenseRoute;
    var m, n := g.s1 - g.s0, g.d1 - g.d0;
    if m > 0 && n > 0 && m * n > BandedAlign.MAX_CELLS {
      var anchors :| Divides(f, g, anchors) && if anchors == [] then stays else AroundOutcome(f, anchors, 0, g, stays);
      if anchors != [] { PartsStay(f, anchors, g, stays); }
    } else if m > 0 && n > 0 && IsDense(m, n) {
      SafeStays(f, g);
    }
  }

  lemma PartsStay(f: Files, anchors: seq<Anchor>, g: Gap, stays: bool)
    requires InFiles(f, g) && anchors != [] && AroundOutcome(f, anchors, 0, g, stays)
    requires Rows(g) <= 1 || Columns(g) <= 1 || (Rows(g) <= SAFE_SIDE + 1 && Columns(g) <= SAFE_SIDE + 2)
    ensures stays
  {
    hide Outcome;
    if !stays {
      if Outcome(f, PartBefore(g, anchors[0]), false) {
        SmallStays(f, PartBefore(g, anchors[0]), false);
      } else {
        SmallAround(f, anchors, 1, PartAfter(g, anchors[0]), false);
      }
    }
  }

  // ---------------------------------------------------------------- a gap that does not fit, and does not stay

  /** Where the two texts that show it share a line: a gap of one line against too many lies before it. */
  function Shared(m: nat): (nat, nat) {
    if m >= SAFE_SIDE + 2 then (SAFE_SIDE + 1, 1) else (1, SAFE_SIDE + 2)
  }

  lemma SharedDeep(m: nat, n: nat)
    requires m > 0 && n > 0 && m * n > BandedAlign.MAX_CELLS && !Fits(m, n)
    ensures Deep(m, n, Shared(m).0, Shared(m).1)
    ensures Shared(m).0 * Shared(m).1 <= BandedAlign.MAX_CELLS && IsDense(Shared(m).0, Shared(m).1)
    ensures !Safe(Shared(m).0, Shared(m).1)
  {
    if m >= SAFE_SIDE + 2 {
      assert m == SAFE_SIDE + 2 && n == 2 ==> m * n <= BandedAlign.MAX_CELLS;
    } else {
      assert m == 2 && n == SAFE_SIDE + 3 ==> m * n <= BandedAlign.MAX_CELLS;
    }
  }

  /** Files in which the lines of the gap read alike on each side, but for the shared line, and nothing scores. */
  function Filler(r: LineDiff.LineRules, x: string, y: string, z: string, size: (nat, nat), g: Gap): Files {
    var p := Shared(if g.s0 <= g.s1 then g.s1 - g.s0 else 0);
    Files(r, seq(size.0, k => if k == g.s0 + p.0 then z else x), seq(size.1, k => if k == g.d0 + p.1 then z else y),
          Nothing)
  }

  lemma UnlikeGap(g: Gap)
    requires g.s0 < g.s1 && g.d0 < g.d1 && !Safe(g.s1 - g.s0, g.d1 - g.d0)
    ensures DenseRoute(Nothing, g.s0, g.s1, g.d0, g.d1) == None
  {
    UnlikeLost(Within(Nothing, g.s0, g.d0), g.s1 - g.s0, g.d1 - g.d0);
  }

  /** A dense gap that is not small does not stay when none of its lines score. */
  lemma DenseLost(f: Files, g: Gap, stays: bool)
    requires InFiles(f, g) && f.score == Nothing && Rows(g) > 0 && Columns(g) > 0
    requires Rows(g) * Columns(g) <= BandedAlign.MAX_CELLS && IsDense(Rows(g), Columns(g)) && !Safe(Rows(g), Columns(g))
    ensures Outcome(f, g, stays) <==> !stays
  {
    UnlikeGap(g);
  }

  /** So a file of 499987 lines against one of a single line, unlike all of them, has no grid when there is no
      anchor. */
  lemma LongAgainstOne(f: Files, stays: bool)
    requires |f.src| == SAFE_SIDE + 1 && |f.dst| == 1 && f.score == Nothing
    ensures AroundOutcome(f, [], 0, WholeFiles(f), stays) <==> !stays
  {
    DenseLost(f, WholeFiles(f), stays);
  }

  lemma FillerLines(r: LineDiff.LineRules, x: string, y: string, z: string, size: (nat, nat), g: Gap)
    requires g.s0 <= g.s1 <= size.0 && g.d0 <= g.d1 <= size.1
    ensures var f, p := Filler(r, x, y, z, size, g), Shared(g.s1 - g.s0);
            && f.src[g.s0..g.s1] == Lone(x, z, p.0, g.s1 - g.s0)
            && f.dst[g.d0..g.d1] == Lone(y, z, p.1, g.d1 - g.d0)
  {
  }

  lemma FirstTwo(anchors: seq<Anchor>)
    requires Increasing(anchors)
    ensures |anchors| > 1 ==> anchors[0].src < anchors[1].src
  {
  }

  lemma OneMatch(i: nat, j: nat, g: Gap, anchors: seq<Anchor>)
    requires g.s0 + i < g.s1 && g.d0 + j < g.d1
    ensures AnchorsOf(map[i := j], g, anchors) <==> anchors == [Anchor(g.s0 + i, g.d0 + j)]
  {
    var one, an := map[i := j], Anchor(g.s0 + i, g.d0 + j);
    if AnchorsOf(one, g, anchors) {
      assert Has(one, g, anchors, i);
      FirstTwo(anchors);
      forall k | 0 <= k < |anchors| ensures anchors[k] == an { assert IsMatch(one, g, anchors[k]); }
    }
    assert IsMatch(one, g, an);
    forall h: nat ensures Has(one, g, [an], h) {}
  }

  /** The line diff of the gap divides it at the shared line, and nowhere else. */
  lemma FillerDivides(r: LineDiff.LineRules, x: string, y: string, z: string, size: (nat, nat), g: Gap,
                      anchors: seq<Anchor>)
    requires Tells(r, x, y, z) && g.s0 < g.s1 <= size.0 && g.d0 < g.d1 <= size.1
    requires Rows(g) * Columns(g) > BandedAlign.MAX_CELLS && !Fits(Rows(g), Columns(g))
    ensures var f, p := Filler(r, x, y, z, size, g), Shared(g.s1 - g.s0);
            Divides(f, g, anchors) <==> anchors == [Anchor(g.s0 + p.0, g.d0 + p.1)]
  {
    hide Lone, Matching, LineDiff.Diffed, AnchorsOf, Shared, Filler, Tells;
    var f, p := Filler(r, x, y, z, size, g), Shared(g.s1 - g.s0);
    var m, n := g.s1 - g.s0, g.d1 - g.d0;
    SharedDeep(m, n);
    FillerLines(r, x, y, z, size, g);
    FillerRules(r, x, y, z, size, g);
    var a, b := Lone(x, z, p.0, m), Lone(y, z, p.1, n);
    forall matched
      ensures Matching(r.trim, a, b, matched) && LineDiff.Diffed(r, a, b, matched) <==> matched == map[p.0 := p.1]
    {
      LoneDiff(r, x, y, z, m, n, p.0, p.1, matched);
    }
    OneMatch(p.0, p.1, g, anchors);
  }

  lemma FillerRules(r: LineDiff.LineRules, x: string, y: string, z: string, size: (nat, nat), g: Gap)
    ensures var f := Filler(r, x, y, z, size, g);
            f.rules == r && f.score == Nothing && |f.src| == size.0 && |f.dst| == size.1
  {
  }

  /** A gap that does not fit leaves itself in these files, and can do nothing else. */
  lemma FillerLost(r: LineDiff.LineRules, x: string, y: string, z: string, size: (nat, nat), g: Gap, stays: bool)
    requires Tells(r, x, y, z) && g.s0 <= g.s1 <= size.0 && g.d0 <= g.d1 <= size.1 && !Fits(Rows(g), Columns(g))
    ensures var f := Filler(r, x, y, z, size, g); InFiles(f, g) && (Outcome(f, g, stays) <==> !stays)
  {
    hide Filler, Divides, DenseRoute, Tells;
    var f, p := Filler(r, x, y, z, size, g), Shared(g.s1 - g.s0);
    FillerRules(r, x, y, z, size, g);
    if Rows(g) * Columns(g) <= BandedAlign.MAX_CELLS {
      DenseLost(f, g, stays);
    } else {
      SharedDeep(g.s1 - g.s0, g.d1 - g.d0);
      var only := [Anchor(g.s0 + p.0, g.d0 + p.1)];
      forall anchors ensures Divides(f, g, anchors) <==> anchors == only {
        FillerDivides(r, x, y, z, size, g, anchors);
      }
      SharedLost(f, g, only, stays);
    }
  }

  lemma SharedLost(f: Files, g: Gap, only: seq<Anchor>, stays: bool)
    requires InFiles(f, g) && f.score == Nothing && Rows(g) > 0 && Columns(g) > 0
    requires Rows(g) * Columns(g) > BandedAlign.MAX_CELLS && !Fits(Rows(g), Columns(g))
    requires only == [Anchor(g.s0 + Shared(g.s1 - g.s0).0, g.d0 + Shared(g.s1 - g.s0).1)]
    ensures AroundOutcome(f, only, 0, g, stays) <==> !stays
  {
    SharedDeep(g.s1 - g.s0, g.d1 - g.d0);
    DenseLost(f, PartBefore(g, only[0]), true);
    DenseLost(f, PartBefore(g, only[0]), false);
    hide Outcome;
  }

  /** For rules that tell three lines apart, the size of a gap decides whether it always stays. */
  lemma GapExact(r: LineDiff.LineRules, x: string, y: string, z: string, size: (nat, nat), g: Gap)
    requires Tells(r, x, y, z) && g.s0 <= g.s1 <= size.0 && g.d0 <= g.d1 <= size.1
    ensures (forall f, stays :: OfSize(f, r, size) && InRange(f.score) && Outcome(f, g, stays) ==> stays)
            <==> Fits(Rows(g), Columns(g))
  {
    hide Outcome, Filler;
    if Fits(Rows(g), Columns(g)) {
      forall f, stays | OfSize(f, r, size) && InRange(f.score) && Outcome(f, g, stays) ensures stays {
        FitStays(f, g, stays);
      }
    } else {
      var f := Filler(r, x, y, z, size, g);
      FillerRules(r, x, y, z, size, g);
      FillerLost(r, x, y, z, size, g, false);
      assert OfSize(f, r, size) && InRange(f.score) && Outcome(f, g, false);
    }
  }

  ghost predicate OfSize(f: Files, r: LineDiff.LineRules, size: (nat, nat)) {
    f.rules == r && |f.src| == size.0 && |f.dst| == size.1
  }

  // ---------------------------------------------------------------- the whole grid

  /** The gaps around the anchors from the k-th on, in a stretch g of the files. */
  ghost predicate IsGap(anchors: seq<Anchor>, k: nat, g: Gap, part: Gap)
    decreases |anchors| - k
  {
    if k >= |anchors| then part == g
    else part == PartBefore(g, anchors[k]) || IsGap(anchors, k + 1, PartAfter(g, anchors[k]), part)
  }

  /** Every gap between neighbouring anchors fits. */
  ghost predicate AllFit(anchors: seq<Anchor>, k: nat, g: Gap) {
    forall part :: IsGap(anchors, k, g, part) ==> Fits(Rows(part), Columns(part))
  }

  /** Then the grid is complete. */
  lemma {:induction false} FitGrid(f: Files, anchors: seq<Anchor>, k: nat, g: Gap, stays: bool)
    requires InFiles(f, g) && AllFit(anchors, k, g) && AroundOutcome(f, anchors, k, g, stays)
    ensures stays
    decreases |anchors| - k
  {
    hide Outcome, Fits;
    if k >= |anchors| {
      assert IsGap(anchors, k, g, g);
      FitStays(f, g, stays);
    } else if !stays {
      var an := anchors[k];
      assert IsGap(anchors, k, g, PartBefore(g, an));
      if Outcome(f, PartBefore(g, an), false) {
        FitStays(f, PartBefore(g, an), false);
      } else {
        FitGrid(f, anchors, k + 1, PartAfter(g, an), false);
      }
    }
  }

  /** What one gap comes to decides. */
  lemma {:induction false} OneLost(f: Files, anchors: seq<Anchor>, k: nat, g: Gap, part: Gap, stays: bool)
    requires InFiles(f, g) && k <= |anchors| && InsideFrom(anchors, k, g) && IsGap(anchors, k, g, part)
    requires InFiles(f, part) && forall b :: Outcome(f, part, b) <==> !b
    ensures AroundOutcome(f, anchors, k, g, false) && !AroundOutcome(f, anchors, k, g, true)
    decreases |anchors| - k
  {
    hide Outcome;
    if k < |anchors| && part != PartBefore(g, anchors[k]) {
      OneLost(f, anchors, k + 1, PartAfter(g, anchors[k]), part, stays);
    }
  }

  ghost predicate InsideFrom(anchors: seq<Anchor>, k: nat, g: Gap) {
    && Increasing(anchors)
    && forall i :: k <= i < |anchors| ==> g.s0 <= anchors[i].src < g.s1 && g.d0 <= anchors[i].dst < g.d1
  }

  lemma {:induction false} GapInFiles(size: (nat, nat), anchors: seq<Anchor>, k: nat, g: Gap, part: Gap)
    requires k <= |anchors| && InsideFrom(anchors, k, g) && IsGap(anchors, k, g, part)
    requires g.s0 <= g.s1 <= size.0 && g.d0 <= g.d1 <= size.1
    ensures part.s0 <= part.s1 <= size.0 && part.d0 <= part.d1 <= size.1
    decreases |anchors| - k
  {
    if k < |anchors| && part != PartBefore(g, anchors[k]) {
      GapInFiles(size, anchors, k + 1, PartAfter(g, anchors[k]), part);
    }
  }

  /**
    * The exact condition for the whole grid, given how many lines the files have and where the anchors are: it lists
    * every line for all files and all line scores just when every gap between neighbouring anchors fits.
    */
  lemma GridExact(r: LineDiff.LineRules, x: string, y: string, z: string, size: (nat, nat), anchors: seq<Anchor>)
    requires Tells(r, x, y, z) && AllInside(anchors, Gap(0, size.0, 0, size.1))
    ensures (forall f, stays ::
               OfSize(f, r, size) && InRange(f.score) && AroundOutcome(f, anchors, 0, WholeFiles(f), stays) ==> stays)
            <==> AllFit(anchors, 0, Gap(0, size.0, 0, size.1))
  {
    hide AroundOutcome, Outcome, Filler, Fits, IsGap, Tells;
    var whole := Gap(0, size.0, 0, size.1);
    if AllFit(anchors, 0, whole) {
      forall f, stays | OfSize(f, r, size) && InRange(f.score) && AroundOutcome(f, anchors, 0, WholeFiles(f), stays)
        ensures stays
      {
        FitGrid(f, anchors, 0, whole, stays);
      }
    } else {
      var part :| IsGap(anchors, 0, whole, part) && !Fits(Rows(part), Columns(part));
      var f := Filler(r, x, y, z, size, part);
      GapInFiles(size, anchors, 0, whole, part);
      FillerRules(r, x, y, z, size, part);
      forall b ensures InFiles(f, part) && (Outcome(f, part, b) <==> !b) { FillerLost(r, x, y, z, size, part, b); }
      OneLost(f, anchors, 0, whole, part, false);
      assert OfSize(f, r, size) && InRange(f.score) && AroundOutcome(f, anchors, 0, WholeFiles(f), false);
    }
  }
}
