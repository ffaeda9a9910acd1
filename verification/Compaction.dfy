/** Sliding groups of changed lines to where they read best, without changing what is kept. */
module Compaction {

  /** How well a boundary before this line reads. */
  type Boundary = (seq<string>, nat) -> int

  /** The unchanged lines from lo up to hi, in order. */
  function Kept(lines: seq<string>, changed: seq<bool>, lo: nat, hi: nat): seq<string>
    decreases hi - lo
  {
    if lo >= hi || lo >= |lines| || lo >= |changed| then []
    else (if changed[lo] then [] else [lines[lo]]) + Kept(lines, changed, lo + 1, hi)
  }

  /** All unchanged lines. */
  function KeptLines(lines: seq<string>, changed: seq<bool>): seq<string> {
    Kept(lines, changed, 0, |lines|)
  }

  lemma {:induction false} KeptSplit(lines: seq<string>, changed: seq<bool>, lo: nat, mid: nat, hi: nat)
    requires lo <= mid <= hi <= |lines| == |changed|
    ensures Kept(lines, changed, lo, hi) == Kept(lines, changed, lo, mid) + Kept(lines, changed, mid, hi)
    decreases mid - lo
  {
    if lo < mid {
      KeptSplit(lines, changed, lo + 1, mid, hi);
      var first := if changed[lo] then [] else [lines[lo]];
      assert Kept(lines, changed, lo, hi)
          == first + (Kept(lines, changed, lo + 1, mid) + Kept(lines, changed, mid, hi));
    }
  }

  lemma {:induction false} KeptSame(lines: seq<string>, c1: seq<bool>, c2: seq<bool>, lo: nat, hi: nat)
    requires hi <= |lines| == |c1| == |c2| && forall k :: lo <= k < hi ==> c1[k] == c2[k]
    ensures Kept(lines, c1, lo, hi) == Kept(lines, c2, lo, hi)
    decreases hi - lo
  {
    if lo < hi { KeptSame(lines, c1, c2, lo + 1, hi); }
  }

  lemma {:induction false} KeptAll(lines: seq<string>, changed: seq<bool>, lo: nat, hi: nat)
    requires lo <= hi <= |lines| == |changed| && forall k :: lo <= k < hi ==> !changed[k]
    ensures Kept(lines, changed, lo, hi) == lines[lo..hi]
    decreases hi - lo
  {
    if lo < hi { KeptAll(lines, changed, lo + 1, hi); }
  }

  lemma {:induction false} KeptNone(lines: seq<string>, changed: seq<bool>, lo: nat, hi: nat)
    requires lo <= hi <= |lines| == |changed| && forall k :: lo <= k < hi ==> changed[k]
    ensures Kept(lines, changed, lo, hi) == []
    decreases hi - lo
  {
    if lo < hi { KeptNone(lines, changed, lo + 1, hi); }
  }

  /** The group of g changed lines at from, moved to to. */
  function Slid(changed: seq<bool>, from: nat, to: nat, g: nat): seq<bool> {
    seq(|changed|, k requires 0 <= k < |changed| =>
      if to <= k < to + g then true else if from <= k < from + g then false else changed[k])
  }

  /** The group at from can stand at to: what it passes is unchanged and repeats at its distance. */
  ghost predicate CanSlide(lines: seq<string>, changed: seq<bool>, from: nat, to: nat, g: nat) {
    && |changed| == |lines| && from + g <= |lines| && to + g <= |lines|
    && (forall k :: from <= k < from + g ==> changed[k])
    && (forall k :: to <= k < from ==> !changed[k])
    && (forall k :: to + g <= k < from + g ==> lines[k - g] == lines[k])
    && forall k :: from + g <= k < to + g ==> !changed[k] && lines[k - g] == lines[k]
  }

  lemma SlideRegion(lines: seq<string>, c: seq<bool>, a: nat, x: nat, y: nat, b: nat)
    requires a <= x <= y <= b <= |lines| == |c|
    ensures Kept(lines, c, a, b) == Kept(lines, c, a, x) + Kept(lines, c, x, y) + Kept(lines, c, y, b)
  {
    KeptSplit(lines, c, a, x, b);
    KeptSplit(lines, c, x, y, b);
  }

  /** Lines that repeat at distance g read the same there. */
  lemma SliceShift(lines: seq<string>, a: nat, b: nat, g: nat)
    requires a <= b && b + g <= |lines| && forall k :: a + g <= k < b + g ==> lines[k - g] == lines[k]
    ensures lines[a..b] == lines[a + g..b + g]
  {
    forall k | 0 <= k < b - a ensures lines[a..b][k] == lines[a + g..b + g][k] {
      assert lines[a + g + k - g] == lines[a + g + k];
    }
  }

  /** Sliding up keeps the same texts in the same order. */
  lemma SlideUp(lines: seq<string>, changed: seq<bool>, from: nat, to: nat, g: nat)
    requires CanSlide(lines, changed, from, to, g) && to <= from
    ensures Kept(lines, Slid(changed, from, to, g), to, from + g) == Kept(lines, changed, to, from + g)
  {
    hide Kept;
    var after := Slid(changed, from, to, g);
    KeptSplit(lines, changed, to, from, from + g);
    KeptAll(lines, changed, to, from);
    KeptNone(lines, changed, from, from + g);
    KeptSplit(lines, after, to, to + g, from + g);
    KeptNone(lines, after, to, to + g);
    KeptAll(lines, after, to + g, from + g);
    SliceShift(lines, to, from, g);
  }

  /** So does sliding down. */
  lemma SlideDown(lines: seq<string>, changed: seq<bool>, from: nat, to: nat, g: nat)
    requires CanSlide(lines, changed, from, to, g) && from <= to
    ensures Kept(lines, Slid(changed, from, to, g), from, to + g) == Kept(lines, changed, from, to + g)
  {
    hide Kept;
    var after := Slid(changed, from, to, g);
    KeptSplit(lines, changed, from, from + g, to + g);
    KeptNone(lines, changed, from, from + g);
    KeptAll(lines, changed, from + g, to + g);
    KeptSplit(lines, after, from, to, to + g);
    KeptAll(lines, after, from, to);
    KeptNone(lines, after, to, to + g);
    SliceShift(lines, from, to, g);
  }

  /** A slid group keeps the exact text sequence of the unchanged lines. */
  lemma SlideKeeps(lines: seq<string>, changed: seq<bool>, from: nat, to: nat, g: nat)
    requires CanSlide(lines, changed, from, to, g)
    ensures KeptLines(lines, Slid(changed, from, to, g)) == KeptLines(lines, changed)
  {
    hide Kept;
    var after := Slid(changed, from, to, g);
    var a, b := if to < from then to else from, (if to < from then from else to) + g;
    if to < from { SlideUp(lines, changed, from, to, g); } else { SlideDown(lines, changed, from, to, g); }
    SlideRegion(lines, changed, 0, a, b, |lines|);
    SlideRegion(lines, after, 0, a, b, |lines|);
    KeptSame(lines, changed, after, 0, a);
    KeptSame(lines, changed, after, b, |lines|);
  }

  // ---------------------------------------------------------------- where each group goes

  function GroupScore(boundary: Boundary, lines: seq<string>, start: nat, groupLen: nat): int {
    boundary(lines, start) + boundary(lines, start + groupLen)
  }

  /** The group of g lines at from goes to to: of all places it can stand at, the first one that reads best,
      and where it stands unless another one reads better. */
  ghost predicate BestSlide(boundary: Boundary, lines: seq<string>, changed: seq<bool>, from: nat, to: nat, g: nat) {
    && CanSlide(lines, changed, from, to, g)
    && (forall p: nat :: CanSlide(lines, changed, from, p, g) ==>
          GroupScore(boundary, lines, p, g) <= GroupScore(boundary, lines, to, g))
    && (to != from ==> forall p: nat :: CanSlide(lines, changed, from, p, g) && (p < to || p == from) ==>
          GroupScore(boundary, lines, p, g) < GroupScore(boundary, lines, to, g))
  }

  /** A group of changed lines from start up to end. */
  ghost predicate Group(changed: seq<bool>, start: nat, end: nat) {
    && start < end <= |changed| && (forall k :: start <= k < end ==> changed[k])
    && (end < |changed| ==> !changed[end])
  }

  /** Where the pass goes on after the group from start up to end went to to. */
  function After(start: nat, end: nat, to: nat): nat {
    if to > start then to + end - start else end
  }

  /** The pass over the lines from i on turns the flags was into now: group by group, each goes to its best place. */
  ghost predicate Passed(boundary: Boundary, lines: seq<string>, was: seq<bool>, i: nat, now: seq<bool>)
    decreases |was| - i
  {
    if i >= |was| then now == was
    else if !was[i] then Passed(boundary, lines, was, i + 1, now)
    else exists end: nat, to: nat ::
      && Group(was, i, end) && BestSlide(boundary, lines, was, i, to, end - i)
      && Passed(boundary, lines, Slid(was, i, to, end - i), After(i, end, to), now)
  }

  /** Whichever slides score best, the unchanged lines read the same as before. */
  lemma {:induction false} PassedKeeps(boundary: Boundary, lines: seq<string>, was: seq<bool>, i: nat, now: seq<bool>)
    requires |was| == |lines| && Passed(boundary, lines, was, i, now)
    ensures |now| == |lines| && KeptLines(lines, now) == KeptLines(lines, was)
    decreases |was| - i
  {
    hide KeptLines, CanSlide;
    if i >= |was| {
    } else if !was[i] {
      PassedKeeps(boundary, lines, was, i + 1, now);
    } else {
      var end: nat, to: nat :|
        && Group(was, i, end) && BestSlide(boundary, lines, was, i, to, end - i)
        && Passed(boundary, lines, Slid(was, i, to, end - i), After(i, end, to), now);
      SlideKeeps(lines, was, i, to, end - i);
      PassedKeeps(boundary, lines, Slid(was, i, to, end - i), After(i, end, to), now);
    }
  }

  /** There is no choice in a pass: each group and its best place are given. */
  lemma {:induction false} PassedUnique(boundary: Boundary, lines: seq<string>, was: seq<bool>, i: nat,
                                        now: seq<bool>, now2: seq<bool>)
    requires |was| == |lines| && Passed(boundary, lines, was, i, now) && Passed(boundary, lines, was, i, now2)
    ensures now == now2
    decreases |was| - i
  {
    hide CanSlide;
    if i >= |was| {
    } else if !was[i] {
      PassedUnique(boundary, lines, was, i + 1, now, now2);
    } else {
      var end: nat, to: nat :|
        && Group(was, i, end) && BestSlide(boundary, lines, was, i, to, end - i)
        && Passed(boundary, lines, Slid(was, i, to, end - i), After(i, end, to), now);
      var end2: nat, to2: nat :|
        && Group(was, i, end2) && BestSlide(boundary, lines, was, i, to2, end2 - i)
        && Passed(boundary, lines, Slid(was, i, to2, end2 - i), After(i, end2, to2), now2);
      assert end == end2 && to == to2;
      PassedUnique(boundary, lines, Slid(was, i, to, end - i), After(i, end, to), now, now2);
    }
  }

  /** What a pass makes of the flags from line i on is also what it makes of those before. */
  ghost predicate Leads(boundary: Boundary, lines: seq<string>, before: seq<bool>, was: seq<bool>, i: nat) {
    forall now :: Passed(boundary, lines, was, i, now) ==> Passed(boundary, lines, before, 0, now)
  }

  lemma LeadsPast(boundary: Boundary, lines: seq<string>, before: seq<bool>, was: seq<bool>, i: nat)
    requires Leads(boundary, lines, before, was, i) && i < |was| && !was[i]
    ensures Leads(boundary, lines, before, was, i + 1)
  {
  }

  lemma LeadsOn(boundary: Boundary, lines: seq<string>, before: seq<bool>, was: seq<bool>, i: nat, end: nat, to: nat)
    requires Leads(boundary, lines, before, was, i) && Group(was, i, end)
    requires BestSlide(boundary, lines, was, i, to, end - i)
    ensures Leads(boundary, lines, before, Slid(was, i, to, end - i), After(i, end, to))
  {
    hide BestSlide, Slid, After;
    forall now | Passed(boundary, lines, Slid(was, i, to, end - i), After(i, end, to), now)
      ensures Passed(boundary, lines, before, 0, now)
    {
      PassedGroup(boundary, lines, was, i, end, to, now);
    }
  }

  lemma PassedGroup(boundary: Boundary, lines: seq<string>, was: seq<bool>, i: nat, end: nat, to: nat, now: seq<bool>)
    requires Group(was, i, end) && BestSlide(boundary, lines, was, i, to, end - i)
    requires Passed(boundary, lines, Slid(was, i, to, end - i), After(i, end, to), now)
    ensures Passed(boundary, lines, was, i, now)
  {
    hide BestSlide, Slid;
    assert was[i];
  }

  // ---------------------------------------------------------------- the slides of one group

  /** The earliest start that the group can slide back to. */
  method SlideBack(lines: seq<string>, changed: array<bool>, start: nat, groupLen: nat) returns (earliest: nat)
    requires changed.Length == |lines| && groupLen > 0 && start + groupLen <= |lines|
    ensures earliest <= start && forall k :: earliest <= k < start ==> !changed[k]
    ensures forall k :: earliest + groupLen <= k < start + groupLen ==> lines[k - groupLen] == lines[k]
    ensures earliest > 0 ==> changed[earliest - 1] || lines[earliest - 1] != lines[earliest + groupLen - 1]
  {
    earliest := start;
    while earliest > 0 && lines[earliest - 1] == lines[earliest + groupLen - 1]
      invariant earliest <= start
      invariant forall k :: earliest <= k < start ==> !changed[k]
      invariant forall k :: earliest + groupLen <= k < start + groupLen ==> lines[k - groupLen] == lines[k]
    {
      if changed[earliest - 1] { break; }
      earliest := earliest - 1;
    }
  }

  /** The latest start that it can slide forward to. */
  method SlideForward(lines: seq<string>, changed: array<bool>, start: nat, groupLen: nat) returns (latest: nat)
    requires changed.Length == |lines| && start + groupLen <= |lines|
    ensures start <= latest && latest + groupLen <= |lines|
    ensures forall k :: start + groupLen <= k < latest + groupLen ==> !changed[k] && lines[k - groupLen] == lines[k]
    ensures latest + groupLen < |lines| ==> changed[latest + groupLen] || lines[latest] != lines[latest + groupLen]
  {
    latest := start;
    while latest + groupLen < |lines| && lines[latest] == lines[latest + groupLen]
      invariant start <= latest && latest + groupLen <= |lines|
      invariant forall k :: start + groupLen <= k < latest + groupLen ==> !changed[k] && lines[k - groupLen] == lines[k]
    {
      if changed[latest + groupLen] { break; }
      latest := latest + 1;
    }
  }

  /** The first best position in reach; where the group stands, if none is better. */
  method BestPosition(boundary: Boundary, lines: seq<string>, start: nat, groupLen: nat, earliest: nat, latest: nat)
    returns (bestPos: nat)
    requires earliest <= start <= latest
    ensures earliest <= bestPos <= latest
    ensures forall p :: earliest <= p <= latest ==>
      GroupScore(boundary, lines, p, groupLen) <= GroupScore(boundary, lines, bestPos, groupLen)
    ensures bestPos != start ==> forall p :: earliest <= p <= latest && (p < bestPos || p == start) ==>
      GroupScore(boundary, lines, p, groupLen) < GroupScore(boundary, lines, bestPos, groupLen)
  {
    bestPos := start;
    var bestScore := GroupScore(boundary, lines, start, groupLen);
    for pos := earliest to latest + 1
      invariant earliest <= bestPos <= latest && bestScore == GroupScore(boundary, lines, bestPos, groupLen)
      invariant forall p :: earliest <= p < pos ==> GroupScore(boundary, lines, p, groupLen) <= bestScore
      invariant GroupScore(boundary, lines, start, groupLen) <= bestScore
      invariant bestPos != start ==> GroupScore(boundary, lines, start, groupLen) < bestScore
      invariant bestPos != start ==>
                  forall p :: earliest <= p < bestPos ==> GroupScore(boundary, lines, p, groupLen) < bestScore
    {
      var s := GroupScore(boundary, lines, pos, groupLen);
      if s > bestScore { bestScore, bestPos := s, pos; }
    }
  }

  method Slide(lines: seq<string>, changed: array<bool>, start: nat, bestPos: nat, groupLen: nat)
    requires CanSlide(lines, changed[..], start, bestPos, groupLen)
    modifies changed
    ensures changed[..] == Slid(old(changed[..]), start, bestPos, groupLen)
  {
    ghost var was := changed[..];
    for k := start to start + groupLen
      invariant forall l :: 0 <= l < |lines| ==> changed[l] == if start <= l < k then false else was[l]
    {
      changed[k] := false;
    }
    for k := bestPos to bestPos + groupLen
      invariant forall l :: 0 <= l < |lines| ==>
        changed[l] == if bestPos <= l < k then true else if start <= l < start + groupLen then false else was[l]
    {
      changed[k] := true;
    }
  }

  /** The group can stand exactly at the positions from the earliest to the latest. */
  lemma Reach(lines: seq<string>, changed: seq<bool>, start: nat, groupLen: nat, earliest: nat, latest: nat, p: nat)
    requires |changed| == |lines| && groupLen > 0 && earliest <= start <= latest && latest + groupLen <= |lines|
    requires forall k :: start <= k < start + groupLen ==> changed[k]
    requires forall k :: earliest <= k < start ==> !changed[k]
    requires forall k :: earliest + groupLen <= k < start + groupLen ==> lines[k - groupLen] == lines[k]
    requires earliest > 0 ==> changed[earliest - 1] || lines[earliest - 1] != lines[earliest + groupLen - 1]
    requires forall k :: start + groupLen <= k < latest + groupLen ==> !changed[k] && lines[k - groupLen] == lines[k]
    requires latest + groupLen < |lines| ==> changed[latest + groupLen] || lines[latest] != lines[latest + groupLen]
    ensures CanSlide(lines, changed, start, p, groupLen) <==> earliest <= p <= latest
  {
    SlidesPast(lines, changed, start, p, groupLen, earliest);
    SlidesPast(lines, changed, start, p, groupLen, latest);
  }

  /** A group that can stand beyond q could pass q. */
  lemma SlidesPast(lines: seq<string>, changed: seq<bool>, from: nat, p: nat, g: nat, q: nat)
    requires |changed| == |lines|
    ensures CanSlide(lines, changed, from, p, g) && p < q <= from ==>
              !changed[q - 1] && lines[q - 1] == lines[q + g - 1]
    ensures CanSlide(lines, changed, from, p, g) && from <= q < p ==> !changed[q + g] && lines[q] == lines[q + g]
  {
    if CanSlide(lines, changed, from, p, g) && p < q <= from { assert lines[q + g - 1 - g] == lines[q + g - 1]; }
    if CanSlide(lines, changed, from, p, g) && from <= q < p { assert lines[q + g - g] == lines[q + g]; }
  }

  /** Where the group of changed lines from start on goes. */
  method Target(boundary: Boundary, lines: seq<string>, changed: array<bool>, start: nat,
                groupLen: nat) returns (bestPos: nat)
    requires changed.Length == |lines| && groupLen > 0 && Group(changed[..], start, start + groupLen)
    ensures BestSlide(boundary, lines, changed[..], start, bestPos, groupLen)
  {
    var earliest := SlideBack(lines, changed, start, groupLen);
    var latest := SlideForward(lines, changed, start, groupLen);
    forall p: nat ensures CanSlide(lines, changed[..], start, p, groupLen) <==> earliest <= p <= latest {
      Reach(lines, changed[..], start, groupLen, earliest, latest, p);
    }
    if earliest == latest { return start; }
    bestPos := BestPosition(boundary, lines, start, groupLen, earliest, latest);
  }

  /** One pass over all groups of changed lines. */
  method CompactChanges(boundary: Boundary, lines: seq<string>, changed: array<bool>)
    requires changed.Length == |lines|
    modifies changed
    ensures Passed(boundary, lines, old(changed[..]), 0, changed[..])
    ensures KeptLines(lines, changed[..]) == KeptLines(lines, old(changed[..]))
  {
    hide Passed, BestSlide, KeptLines;
    ghost var before := changed[..];
    var n := |lines|;
    var i := 0;
    while i < n
      invariant 0 <= i <= n
      invariant Leads(boundary, lines, before, changed[..], i)
      decreases n - i
    {
      if !changed[i] {
        LeadsPast(boundary, lines, before, changed[..], i);
        i := i + 1;
        continue;
      }
      var start := i;
      while i < n && changed[i]
        invariant start <= i <= n && (i == start ==> changed[i]) && forall k :: start <= k < i ==> changed[k]
      {
        i := i + 1;
      }
      var bestPos := Target(boundary, lines, changed, start, i - start);
      LeadsOn(boundary, lines, before, changed[..], start, i, bestPos);
      if bestPos != start {
        CanReach(boundary, lines, changed[..], start, bestPos, i - start);
        Slide(lines, changed, start, bestPos, i - start);
        if bestPos > start { i := bestPos + (i - start); }
      } else {
        Unmoved(changed[..], start, i - start);
      }
    }
    PassedEnd(boundary, lines, changed[..], n);
    PassedKeeps(boundary, lines, before, 0, changed[..]);
  }

  lemma CanReach(boundary: Boundary, lines: seq<string>, changed: seq<bool>, from: nat, to: nat, g: nat)
    requires BestSlide(boundary, lines, changed, from, to, g)
    ensures CanSlide(lines, changed, from, to, g)
  {
  }

  lemma Unmoved(changed: seq<bool>, start: nat, g: nat)
    requires start + g <= |changed| && forall k :: start <= k < start + g ==> changed[k]
    ensures Slid(changed, start, start, g) == changed
  {
  }

  lemma PassedEnd(boundary: Boundary, lines: seq<string>, changed: seq<bool>, n: nat)
    requires n >= |changed|
    ensures Passed(boundary, lines, changed, n, changed)
  {
  }

  /** The number of changed lines from lo on. */
  function Changed(changed: seq<bool>, lo: nat): nat
    decreases |changed| - lo
  {
    if lo >= |changed| then 0 else (if changed[lo] then 1 else 0) + Changed(changed, lo + 1)
  }

  /** The unchanged lines and the changed ones make up all lines, so compaction keeps their number. */
  lemma {:induction false} ChangedCount(lines: seq<string>, changed: seq<bool>, lo: nat)
    requires lo <= |lines| == |changed|
    ensures Changed(changed, lo) + |Kept(lines, changed, lo, |lines|)| == |lines| - lo
    decreases |lines| - lo
  {
    if lo < |lines| { ChangedCount(lines, changed, lo + 1); }
  }
}
