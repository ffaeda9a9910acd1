/** The line diff: trim, align what is left by weight or around unique lines, then compact. */
module LineDiff {
  import opened Compaction
  import opened LineMatching
  import opened Patience
  import opened SeqDiff
  import opened SeqTrim

  /** What the diff knows of a line's text: its trimmed form, punctuation, and how boundaries read. */
  datatype LineRules = LineRules(trim: Trim, punctuation: string -> bool, boundary: Boundary)

  const EXACT_WEIGHT := 10
  const REINDENTED_WEIGHT := 8
  const TRIVIAL_WEIGHT := 1
  const MAX_CELLS := 1000000

  function LineWeight(r: LineRules, s: string): int {
    var trimmed := r.trim(s);
    if |trimmed| == 0 then TRIVIAL_WEIGHT
    else if |trimmed| <= 5 && r.punctuation(trimmed) then TRIVIAL_WEIGHT
    else EXACT_WEIGHT
  }

  /** What pairing two lines of the windows is worth. */
  function MatchWeight(r: LineRules, winA: seq<string>, winB: seq<string>): Weight {
    (i: nat, j: nat) =>
      if i >= |winA| || j >= |winB| then 0
      else if winA[i] == winB[j] then LineWeight(r, winA[i])
      else if LineWeight(r, winA[i]) > TRIVIAL_WEIGHT && r.trim(winA[i]) == r.trim(winB[j]) then REINDENTED_WEIGHT
      else 0
  }

  /** A map with the pairs of a window added, counted from where the window starts. */
  function WithPairs(m: map<nat, nat>, ps: Pairs, a0: nat, b0: nat): map<nat, nat> {
    if ps == [] then m
    else WithPairs(m, ps[..|ps| - 1], a0, b0)[a0 + ps[|ps| - 1].0 := b0 + ps[|ps| - 1].1]
  }

  lemma WithPairsPush(m: map<nat, nat>, ps: Pairs, p: (nat, nat), a0: nat, b0: nat)
    ensures WithPairs(m, ps + [p], a0, b0) == WithPairs(m, ps, a0, b0)[a0 + p.0 := b0 + p.1]
  {
    assert (ps + [p])[..|ps|] == ps;
  }

  /** The items after the last pair. */
  function Next(ps: Pairs): (nat, nat) {
    if ps == [] then (0, 0) else (ps[|ps| - 1].0 + 1, ps[|ps| - 1].1 + 1)
  }

  lemma ChainLast(w: Weight, ps: Pairs, n: int, m: int)
    requires ps != [] && Chain(w, ps, n, m)
    ensures var front, last := ps[..|ps| - 1], ps[|ps| - 1];
            && ps == front + [last] && Chain(w, front, n, m)
            && Next(front).0 <= last.0 < n && Next(front).1 <= last.1 < m && w(last.0, last.1) > 0
  {
  }

  lemma PositiveAgrees(r: LineRules, a: seq<string>, b: seq<string>, a0: nat, a1: nat, b0: nat, b1: nat, i: nat, j: nat)
    requires a0 <= a1 <= |a| && b0 <= b1 <= |b| && i < a1 - a0 && j < b1 - b0
    requires MatchWeight(r, a[a0..a1], b[b0..b1])(i, j) > 0
    ensures r.trim(a[a0 + i]) == r.trim(b[b0 + j])
  {
  }

  /** The pairs of a chain of the window match lines that agree after trimming, inside the free region. */
  lemma {:induction false} PairsMatch(r: LineRules, a: seq<string>, b: seq<string>, m: map<nat, nat>, a0: nat, a1: nat,
                                      b0: nat, b1: nat, hiA: nat, hiB: nat, ps: Pairs)
    requires a0 <= a1 <= hiA <= |a| && b0 <= b1 <= hiB <= |b|
    requires Matching(r.trim, a, b, m) && Free(m, a0, hiA, b0, hiB)
    requires Chain(MatchWeight(r, a[a0..a1], b[b0..b1]), ps, a1 - a0, b1 - b0)
    ensures Matching(r.trim, a, b, WithPairs(m, ps, a0, b0))
    ensures Free(WithPairs(m, ps, a0, b0), a0 + Next(ps).0, hiA, b0 + Next(ps).1, hiB)
  {
    hide Matching, Free, Chain, MatchWeight;
    if ps != [] {
      var front, last := ps[..|ps| - 1], ps[|ps| - 1];
      ChainLast(MatchWeight(r, a[a0..a1], b[b0..b1]), ps, a1 - a0, b1 - b0);
      PairsMatch(r, a, b, m, a0, a1, b0, b1, hiA, hiB, front);
      PositiveAgrees(r, a, b, a0, a1, b0, b1, last.0, last.1);
      AddPair(r.trim, a, b, WithPairs(m, front, a0, b0), a0 + Next(front).0, hiA, b0 + Next(front).1, hiB,
              a0 + last.0, b0 + last.1);
    }
  }

  lemma NextInside(w: Weight, ps: Pairs, n: nat, m: nat)
    requires Chain(w, ps, n, m)
    ensures Next(ps).0 <= n && Next(ps).1 <= m
  {
  }

  lemma FreeShrink(m: map<nat, nat>, a0: nat, a1: nat, b0: nat, b1: nat, c0: nat, d0: nat)
    requires Free(m, a0, a1, b0, b1) && a0 <= c0 && b0 <= d0
    ensures Free(m, c0, a1, d0, b1)
  {
  }

  /** A window is aligned by a heaviest chain, unless it is too large. */
  ghost predicate WindowAligned(r: LineRules, winA: seq<string>, winB: seq<string>, a0: nat, b0: nat,
                                m: map<nat, nat>, m2: map<nat, nat>) {
    if |winA| == 0 || |winB| == 0 || |winA| * |winB| > MAX_CELLS then m2 == m
    else exists ps :: Heaviest(MatchWeight(r, winA, winB), ps, |winA|, |winB|) && m2 == WithPairs(m, ps, a0, b0)
  }

  /** The lines a0..a1 against b0..b1, in a region of which they are the start. */
  method AlignLineWindow(r: LineRules, a: seq<string>, b: seq<string>, a0: nat, a1: nat, b0: nat, b1: nat,
                         m: map<nat, nat>, scratch: SeqScratch, ghost hiA: nat, ghost hiB: nat)
    returns (m2: map<nat, nat>)
    requires a0 <= a1 <= hiA <= |a| && b0 <= b1 <= hiB <= |b|
    requires Matching(r.trim, a, b, m) && Free(m, a0, hiA, b0, hiB)
    modifies scratch, scratch.dp
    ensures scratch.dp == old(scratch.dp) || fresh(scratch.dp)
    ensures Matching(r.trim, a, b, m2) && Free(m2, a1, hiA, b1, hiB)
    ensures WindowAligned(r, a[a0..a1], b[b0..b1], a0, b0, m, m2)
  {
    hide Matching, Free, Chain, WithPairs, MatchWeight, Heaviest;
    var winA, winB := a[a0..a1], b[b0..b1];
    m2 := m;
    FreeShrink(m, a0, hiA, b0, hiB, a1, b1);
    if |winA| == 0 || |winB| == 0 || |winA| * |winB| > MAX_CELLS { return; }
    ghost var w := MatchWeight(r, winA, winB);
    var matches := scratch.AlignWeighted(|winA|, |winB|, MatchWeight(r, winA, winB), true);
    m2 := Record(m, matches, a0, b0);
    HeaviestChain(w, matches, |winA|, |winB|);
    PairsMatch(r, a, b, m, a0, a1, b0, b1, hiA, hiB, matches);
    NextInside(w, matches, a1 - a0, b1 - b0);
    FreeShrink(m2, a0 + Next(matches).0, hiA, b0 + Next(matches).1, hiB, a1, b1);
  }

  /** The matches of a window, entered one by one. */
  method Record(m: map<nat, nat>, matches: Pairs, a0: nat, b0: nat) returns (m2: map<nat, nat>)
    ensures m2 == WithPairs(m, matches, a0, b0)
  {
    m2 := m;
    for k := 0 to |matches|
      invariant m2 == WithPairs(m, matches[..k], a0, b0)
    {
      assert matches[..k + 1] == matches[..k] + [matches[k]];
      WithPairsPush(m, matches[..k], matches[k], a0, b0);
      m2 := m2[a0 + matches[k].0 := b0 + matches[k].1];
    }
    assert matches[..|matches|] == matches;
  }

  lemma HeaviestChain(w: Weight, ps: Pairs, n: int, m: int)
    requires Heaviest(w, ps, n, m)
    ensures Chain(w, ps, n, m)
  {
  }

  // ---------------------------------------------------------------- unique lines as anchors

  /** How often each line occurs. */
  method Frequencies(lines: seq<string>) returns (freq: map<string, nat>)
    ensures forall s :: (s in freq <==> s in lines) && (s in freq ==> freq[s] == multiset(lines)[s])
  {
    freq := map[];
    for i := 0 to |lines|
      invariant forall s :: (s in freq <==> s in lines[..i]) && (s in freq ==> freq[s] == multiset(lines[..i])[s])
    {
      assert lines[..i + 1] == lines[..i] + [lines[i]];
      freq := freq[lines[i] := if lines[i] in freq then freq[lines[i]] + 1 else 1];
    }
    assert lines[..|lines|] == lines;
  }

  /** A line that occurs once on either side, at i and j. */
  ghost predicate UniquePair(a: seq<string>, b: seq<string>, i: nat, j: nat) {
    i < |a| && j < |b| && a[i] == b[j] && multiset(a)[a[i]] == 1 && multiset(b)[b[j]] == 1
  }

  /** Where the lines that occur once are. */
  ghost predicate Placed(b: seq<string>, posB: map<string, nat>, n: nat) {
    && (forall s :: s in posB ==> posB[s] < |b| && b[posB[s]] == s && multiset(b)[s] == 1)
    && forall k :: 0 <= k < n && k < |b| && multiset(b)[b[k]] == 1 ==> b[k] in posB
  }

  method Positions(b: seq<string>) returns (posB: map<string, nat>)
    ensures Placed(b, posB, |b|)
  {
    var freqB := Frequencies(b);
    posB := map[];
    for j := 0 to |b|
      invariant Placed(b, posB, j)
    {
      if freqB[b[j]] == 1 { posB := posB[b[j] := j]; }
    }
  }

  /** The pairs of unique lines in the first n lines of a, in order. */
  ghost predicate Candidates(a: seq<string>, b: seq<string>, candidates: Pairs, n: nat) {
    && (forall k :: 0 <= k < |candidates| ==> UniquePair(a, b, candidates[k].0, candidates[k].1) && candidates[k].0 < n)
    && (forall k, l :: 0 <= k < l < |candidates| ==> candidates[k].0 < candidates[l].0)
    && forall i: nat, j: nat :: UniquePair(a, b, i, j) && i < n ==> (i, j) in candidates
  }

  /** Line i has the partner that posB names, if it is unique on both sides, and no other. */
  lemma OnlyPartner(a: seq<string>, b: seq<string>, posB: map<string, nat>, i: nat, j: nat)
    requires Placed(b, posB, |b|) && i < |a|
    ensures UniquePair(a, b, i, j) <==> multiset(a)[a[i]] == 1 && a[i] in posB && j == posB[a[i]]
  {
    if UniquePair(a, b, i, j) {
      assert multiset(b)[b[j]] == 1;
      OnlyOnce(b, j, posB[a[i]]);
    }
  }

  lemma NextCandidate(a: seq<string>, b: seq<string>, posB: map<string, nat>, candidates: Pairs, i: nat)
    requires Placed(b, posB, |b|) && Candidates(a, b, candidates, i) && i < |a|
    ensures Candidates(a, b,
      if multiset(a)[a[i]] == 1 && a[i] in posB then candidates + [(i, posB[a[i]])] else candidates, i + 1)
  {
    hide UniquePair, Placed;
    var after := if multiset(a)[a[i]] == 1 && a[i] in posB then candidates + [(i, posB[a[i]])] else candidates;
    forall k: nat, j: nat | UniquePair(a, b, k, j) && k < i + 1 ensures (k, j) in after {
      if k == i {
        OnlyPartner(a, b, posB, i, j);
        assert after[|candidates|] == (k, j);
      } else {
        assert (k, j) in candidates;
      }
    }
    if multiset(a)[a[i]] == 1 && a[i] in posB { OnlyPartner(a, b, posB, i, posB[a[i]]); }
  }

  /** The lines that are unique on both sides, in the order of the first. */
  method UniquePairs(a: seq<string>, b: seq<string>) returns (candidates: Pairs)
    ensures Candidates(a, b, candidates, |a|)
  {
    var freqA := Frequencies(a);
    var posB := Positions(b);
    candidates := [];
    hide Candidates, Placed;
    NoCandidates(a, b);
    for i := 0 to |a|
      invariant Candidates(a, b, candidates, i)
    {
      NextCandidate(a, b, posB, candidates, i);
      if freqA[a[i]] == 1 && a[i] in posB { candidates := candidates + [(i, posB[a[i]])]; }
    }
  }

  lemma NoCandidates(a: seq<string>, b: seq<string>)
    ensures Candidates(a, b, [], 0)
  {
  }

  lemma Twice(b: seq<string>, lo: nat, hi: nat)
    requires lo < hi < |b| && b[lo] == b[hi]
    ensures multiset(b)[b[lo]] >= 2
  {
    assert b == b[..hi] + b[hi..] && b[..hi][lo] == b[lo] && b[hi..][0] == b[lo];
    assert multiset(b) == multiset(b[..hi]) + multiset(b[hi..]);
    assert b[lo] in multiset(b[..hi]) && b[lo] in multiset(b[hi..]);
  }

  /** A line that occurs once occurs at one position. */
  lemma OnlyOnce(b: seq<string>, i: nat, j: nat)
    requires i < |b| && j < |b| && b[i] == b[j] && multiset(b)[b[i]] == 1
    ensures i == j
  {
    if i < j { Twice(b, i, j); }
    if j < i { Twice(b, j, i); }
  }

  function Seconds(ps: Pairs): seq<int> {
    seq(|ps|, k requires 0 <= k < |ps| => ps[k].1)
  }

  /** Pairs of lines that are unique on both sides, strictly increasing on both sides. */
  ghost predicate UniqueChain(subA: seq<string>, subB: seq<string>, ps: Pairs) {
    && (forall k :: 0 <= k < |ps| ==> UniquePair(subA, subB, ps[k].0, ps[k].1))
    && forall k, l :: 0 <= k < l < |ps| ==> ps[k].0 < ps[l].0 && ps[k].1 < ps[l].1
  }

  /** As many of them as can stand together. */
  ghost predicate MostUnique(subA: seq<string>, subB: seq<string>, ps: Pairs) {
    UniqueChain(subA, subB, ps) && forall others :: UniqueChain(subA, subB, others) ==> |others| <= |ps|
  }

  /** A chain of unique pairs is a rising chain of candidates. */
  lemma {:induction false} ChainOf(subA: seq<string>, subB: seq<string>, candidates: Pairs, ps: Pairs)
    returns (qs: seq<nat>)
    requires Candidates(subA, subB, candidates, |subA|) && UniqueChain(subA, subB, ps)
    ensures |qs| == |ps| && forall k :: 0 <= k < |qs| ==> qs[k] < |candidates| && candidates[qs[k]] == ps[k]
    ensures Rising(Seconds(candidates), qs)
    decreases |ps|
  {
    qs := [];
    if ps != [] {
      var front, last := ps[..|ps| - 1], ps[|ps| - 1];
      var before := ChainOf(subA, subB, candidates, front);
      assert last in candidates;
      var c :| 0 <= c < |candidates| && candidates[c] == last;
      qs := before + [c];
      forall k | 0 <= k < |before| ensures before[k] < c && Seconds(candidates)[before[k]] < Seconds(candidates)[c] {
        assert front[k] == ps[k] && candidates[before[k]] == ps[k];
        assert ps[k].0 < last.0;
      }
    }
  }

  method UniqueAnchors(subA: seq<string>, subB: seq<string>) returns (lis: Pairs)
    ensures MostUnique(subA, subB, lis)
  {
    var candidates := UniquePairs(subA, subB);
    var qs := LongestByPlacing(Seconds(candidates));
    assert forall k :: 0 <= k < |qs| ==> qs[k] < |candidates|;
    lis := seq(|qs|, k requires 0 <= k < |qs| => candidates[qs[k]]);
    forall k, l | 0 <= k < l < |lis| ensures lis[k].0 < lis[l].0 && lis[k].1 < lis[l].1 {
      assert Seconds(candidates)[qs[k]] < Seconds(candidates)[qs[l]];
    }
    forall others | UniqueChain(subA, subB, others) ensures |others| <= |lis| {
      var rs := ChainOf(subA, subB, candidates, others);
    }
  }

  /** The window from one pair of positions in the sub-texts up to another is aligned. */
  ghost predicate OneWindow(r: LineRules, subA: seq<string>, subB: seq<string>, from: (nat, nat), to: (nat, nat),
                            startA: nat, startB: nat, m: map<nat, nat>, m2: map<nat, nat>) {
    && from.0 <= to.0 <= |subA| && from.1 <= to.1 <= |subB|
    && WindowAligned(r, subA[from.0..to.0], subB[from.1..to.1], startA + from.0, startB + from.1, m, m2)
  }

  /** A pair of the sub-texts entered. */
  function Entered(m: map<nat, nat>, p: (nat, nat), startA: nat, startB: nat): map<nat, nat> {
    m[startA + p.0 := startB + p.1]
  }

  function Past(p: (nat, nat)): (nat, nat) {
    (p.0 + 1, p.1 + 1)
  }

  /** The windows between the anchors from the k-th on, and after the last one, are aligned one by one, and the anchors
      entered; from is where the first of these windows starts in the sub-texts. */
  ghost predicate Windows(r: LineRules, subA: seq<string>, subB: seq<string>, lis: Pairs, k: nat, from: (nat, nat),
                          startA: nat, startB: nat, m: map<nat, nat>, m2: map<nat, nat>)
    decreases |lis| - k
  {
    if k >= |lis| then OneWindow(r, subA, subB, from, (|subA|, |subB|), startA, startB, m, m2)
    else exists m1 ::
      && OneWindow(r, subA, subB, from, lis[k], startA, startB, m, m1)
      && Windows(r, subA, subB, lis, k + 1, Past(lis[k]), startA, startB, Entered(m1, lis[k], startA, startB), m2)
  }

  /** What the windows from the k-th on make of m is what all of them make of m0. */
  ghost predicate WindowsLead(r: LineRules, subA: seq<string>, subB: seq<string>, lis: Pairs, k: nat, from: (nat, nat),
                              startA: nat, startB: nat, m0: map<nat, nat>, m: map<nat, nat>) {
    forall m2 :: Windows(r, subA, subB, lis, k, from, startA, startB, m, m2) ==>
      Windows(r, subA, subB, lis, 0, (0, 0), startA, startB, m0, m2)
  }

  lemma WindowStep(r: LineRules, subA: seq<string>, subB: seq<string>, lis: Pairs, k: nat, from: (nat, nat),
                   startA: nat, startB: nat, m0: map<nat, nat>, m: map<nat, nat>, m1: map<nat, nat>)
    requires WindowsLead(r, subA, subB, lis, k, from, startA, startB, m0, m) && k < |lis|
    requires OneWindow(r, subA, subB, from, lis[k], startA, startB, m, m1)
    ensures WindowsLead(r, subA, subB, lis, k + 1, Past(lis[k]), startA, startB, m0,
                        Entered(m1, lis[k], startA, startB))
  {
    hide OneWindow, Entered, Past;
    forall m2 |
      Windows(r, subA, subB, lis, k + 1, Past(lis[k]), startA, startB, Entered(m1, lis[k], startA, startB), m2)
      ensures Windows(r, subA, subB, lis, k, from, startA, startB, m, m2)
    {
    }
  }

  lemma LastWindow(r: LineRules, subA: seq<string>, subB: seq<string>, lis: Pairs, from: (nat, nat),
                   startA: nat, startB: nat, m0: map<nat, nat>, m: map<nat, nat>, m2: map<nat, nat>)
    requires WindowsLead(r, subA, subB, lis, |lis|, from, startA, startB, m0, m)
    requires OneWindow(r, subA, subB, from, (|subA|, |subB|), startA, startB, m, m2)
    ensures Windows(r, subA, subB, lis, 0, (0, 0), startA, startB, m0, m2)
  {
    hide OneWindow;
    assert Windows(r, subA, subB, lis, |lis|, from, startA, startB, m, m2);
  }

  /** A window of the whole texts is one of the sub-texts. */
  lemma SameWindow(r: LineRules, a: seq<string>, b: seq<string>, startA: nat, endA: nat, startB: nat, endB: nat,
                   from: (nat, nat), to: (nat, nat), m: map<nat, nat>, m2: map<nat, nat>)
    requires startA <= endA <= |a| && startB <= endB <= |b|
    requires from.0 <= to.0 <= endA - startA && from.1 <= to.1 <= endB - startB
    requires WindowAligned(r, a[startA + from.0..startA + to.0], b[startB + from.1..startB + to.1],
                           startA + from.0, startB + from.1, m, m2)
    ensures OneWindow(r, a[startA..endA], b[startB..endB], from, to, startA, startB, m, m2)
  {
    hide WindowAligned;
    SliceOfSlice(a, startA, endA, from.0, to.0);
    SliceOfSlice(b, startB, endB, from.1, to.1);
  }

  lemma SliceOfSlice(s: seq<string>, lo: nat, hi: nat, i: nat, j: nat)
    requires lo <= hi <= |s| && i <= j <= hi - lo
    ensures s[lo..hi][i..j] == s[lo + i..lo + j]
  {
    var part := s[lo..hi];
    forall k | 0 <= k < j - i ensures part[i..j][k] == s[lo + i..lo + j][k] {}
  }

  /** The sub-texts are aligned around as many unique lines as can stand together. */
  ghost predicate AlignedAroundUnique(r: LineRules, subA: seq<string>, subB: seq<string>, startA: nat, startB: nat,
                                      m: map<nat, nat>, m2: map<nat, nat>) {
    if |subA| == 0 || |subB| == 0 then m2 == m
    else exists lis :: MostUnique(subA, subB, lis) && Windows(r, subA, subB, lis, 0, (0, 0), startA, startB, m, m2)
  }

  /** Windows between unique lines, each aligned on its own. */
  method LineDiffPatience(r: LineRules, a: seq<string>, b: seq<string>, startA: nat, endA: nat, startB: nat, endB: nat,
                          m: map<nat, nat>, scratch: SeqScratch)
    returns (m2: map<nat, nat>)
    requires startA <= endA <= |a| && startB <= endB <= |b|
    requires Matching(r.trim, a, b, m) && Free(m, startA, endA, startB, endB)
    modifies scratch, scratch.dp
    ensures scratch.dp == old(scratch.dp) || fresh(scratch.dp)
    ensures Matching(r.trim, a, b, m2)
    ensures AlignedAroundUnique(r, a[startA..endA], b[startB..endB], startA, startB, m, m2)
  {
    hide Matching, Free, WindowAligned, Windows;
    m2 := m;
    var subA, subB := a[startA..endA], b[startB..endB];
    NothingAround(r, subA, subB, startA, startB, m);
    hide AlignedAroundUnique;
    if |subA| == 0 || |subB| == 0 { return; }
    var lis := UniqueAnchors(subA, subB);
    WindowsStart(r, subA, subB, lis, startA, startB, m);
    hide MostUnique, WindowsLead, OneWindow, UniqueChain;
    var last: (nat, nat) := (0, 0);
    for k := 0 to |lis|
      invariant last.0 <= |subA| && last.1 <= |subB|
      invariant k < |lis| ==> last.0 <= lis[k].0 && last.1 <= lis[k].1
      invariant Matching(r.trim, a, b, m2) && Free(m2, startA + last.0, endA, startB + last.1, endB)
      invariant WindowsLead(r, subA, subB, lis, k, last, startA, startB, m, m2)
      invariant scratch.dp == old(scratch.dp) || fresh(scratch.dp)
    {
      AnchorInside(subA, subB, lis, k);
      m2 := AlignToAnchor(r, a, b, startA, endA, startB, endB, lis, k, last, m, m2, scratch);
      last := (lis[k].0 + 1, lis[k].1 + 1);
    }
    m2 := AlignRest(r, a, b, startA, endA, startB, endB, lis, last, m, m2, scratch);
    AllAround(r, subA, subB, lis, startA, startB, m, m2);
  }

  lemma NothingAround(r: LineRules, subA: seq<string>, subB: seq<string>, startA: nat, startB: nat, m: map<nat, nat>)
    ensures |subA| == 0 || |subB| == 0 ==> AlignedAroundUnique(r, subA, subB, startA, startB, m, m)
  {
  }

  lemma AllAround(r: LineRules, subA: seq<string>, subB: seq<string>, lis: Pairs, startA: nat, startB: nat,
                  m: map<nat, nat>, m2: map<nat, nat>)
    requires |subA| > 0 && |subB| > 0
    requires MostUnique(subA, subB, lis) && Windows(r, subA, subB, lis, 0, (0, 0), startA, startB, m, m2)
    ensures AlignedAroundUnique(r, subA, subB, startA, startB, m, m2)
  {
  }

  /** The window before the k-th anchor, and the anchor itself. */
  method AlignToAnchor(r: LineRules, a: seq<string>, b: seq<string>, startA: nat, endA: nat, startB: nat, endB: nat,
                       lis: Pairs, k: nat, last: (nat, nat), ghost m0: map<nat, nat>, m: map<nat, nat>,
                       scratch: SeqScratch)
    returns (m2: map<nat, nat>)
    requires startA <= endA <= |a| && startB <= endB <= |b| && k < |lis|
    requires last.0 <= lis[k].0 < endA - startA && last.1 <= lis[k].1 < endB - startB
    requires a[startA..endA][lis[k].0] == b[startB..endB][lis[k].1]
    requires Matching(r.trim, a, b, m) && Free(m, startA + last.0, endA, startB + last.1, endB)
    requires WindowsLead(r, a[startA..endA], b[startB..endB], lis, k, last, startA, startB, m0, m)
    modifies scratch, scratch.dp
    ensures scratch.dp == old(scratch.dp) || fresh(scratch.dp)
    ensures Matching(r.trim, a, b, m2) && Free(m2, startA + lis[k].0 + 1, endA, startB + lis[k].1 + 1, endB)
    ensures WindowsLead(r, a[startA..endA], b[startB..endB], lis, k + 1, Past(lis[k]), startA, startB, m0, m2)
  {
    hide Matching, Free, WindowAligned, WindowsLead, OneWindow;
    var i, j := lis[k].0, lis[k].1;
    m2 := AlignLineWindow(r, a, b, startA + last.0, startA + i, startB + last.1, startB + j, m, scratch, endA, endB);
    SameWindow(r, a, b, startA, endA, startB, endB, last, lis[k], m, m2);
    WindowStep(r, a[startA..endA], b[startB..endB], lis, k, last, startA, startB, m0, m, m2);
    AnchorEnters(r, a, b, startA, endA, startB, endB, m2, lis[k]);
    m2 := m2[startA + i := startB + j];
  }

  /** The window after the last anchor. */
  method AlignRest(r: LineRules, a: seq<string>, b: seq<string>, startA: nat, endA: nat, startB: nat, endB: nat,
                   ghost lis: Pairs, last: (nat, nat), ghost m0: map<nat, nat>, m: map<nat, nat>, scratch: SeqScratch)
    returns (m2: map<nat, nat>)
    requires startA <= endA <= |a| && startB <= endB <= |b|
    requires last.0 <= endA - startA && last.1 <= endB - startB
    requires Matching(r.trim, a, b, m) && Free(m, startA + last.0, endA, startB + last.1, endB)
    requires WindowsLead(r, a[startA..endA], b[startB..endB], lis, |lis|, last, startA, startB, m0, m)
    modifies scratch, scratch.dp
    ensures scratch.dp == old(scratch.dp) || fresh(scratch.dp)
    ensures Matching(r.trim, a, b, m2)
    ensures Windows(r, a[startA..endA], b[startB..endB], lis, 0, (0, 0), startA, startB, m0, m2)
  {
    hide Matching, Free, WindowAligned, WindowsLead, OneWindow, Windows;
    var len := (endA - startA, endB - startB);
    m2 := AlignLineWindow(r, a, b, startA + last.0, endA, startB + last.1, endB, m, scratch, endA, endB);
    SameWindow(r, a, b, startA, endA, startB, endB, last, len, m, m2);
    LastWindow(r, a[startA..endA], b[startB..endB], lis, last, startA, startB, m0, m, m2);
  }

  lemma AnchorEnters(r: LineRules, a: seq<string>, b: seq<string>, startA: nat, endA: nat, startB: nat, endB: nat,
                     m: map<nat, nat>, p: (nat, nat))
    requires startA <= endA <= |a| && startB <= endB <= |b|
    requires p.0 < endA - startA && p.1 < endB - startB && a[startA..endA][p.0] == b[startB..endB][p.1]
    requires Matching(r.trim, a, b, m) && Free(m, startA + p.0, endA, startB + p.1, endB)
    ensures var m2 := m[startA + p.0 := startB + p.1];
            Matching(r.trim, a, b, m2) && Free(m2, startA + p.0 + 1, endA, startB + p.1 + 1, endB)
  {
    AddPair(r.trim, a, b, m, startA + p.0, endA, startB + p.1, endB, startA + p.0, startB + p.1);
  }

  lemma WindowsStart(r: LineRules, subA: seq<string>, subB: seq<string>, lis: Pairs, startA: nat, startB: nat,
                     m: map<nat, nat>)
    ensures WindowsLead(r, subA, subB, lis, 0, (0, 0), startA, startB, m, m)
  {
  }

  lemma AnchorInside(subA: seq<string>, subB: seq<string>, lis: Pairs, k: nat)
    requires MostUnique(subA, subB, lis) && k < |lis|
    ensures lis[k].0 < |subA| && lis[k].1 < |subB| && subA[lis[k].0] == subB[lis[k].1]
    ensures k + 1 < |lis| ==> lis[k].0 < lis[k + 1].0 && lis[k].1 < lis[k + 1].1
  {
  }

  // ---------------------------------------------------------------- compaction

  /** The lines of one side that are in no pair. */
  function LeftOut(used: set<nat>, n: nat): seq<bool> {
    seq(n, i => i !in used)
  }

  lemma LeftOutMarks(trim: Trim, a: seq<string>, b: seq<string>, m: map<nat, nat>)
    requires Matching(trim, a, b, m)
    ensures Marks(m, LeftOut(m.Keys, |a|), LeftOut(m.Values, |b|))
  {
  }

  /** The flags of one side, cleared for every pair. */
  method Flags(used: set<nat>, n: nat) returns (changed: array<bool>)
    ensures fresh(changed) && changed[..] == LeftOut(used, n)
  {
    changed := new bool[n](_ => true);
    for i := 0 to n
      invariant forall k :: 0 <= k < n ==> changed[k] == (k >= i || k !in used)
    {
      if i in used { changed[i] := false; }
    }
  }

  /** The positions whose flag is clear, in order. */
  method Collect(changed: array<bool>) returns (kept: seq<nat>)
    ensures kept == Unchanged(changed[..], 0)
  {
    kept := [];
    ghost var c := changed[..];
    for i := 0 to changed.Length
      invariant kept + Unchanged(c, i) == Unchanged(c, 0)
    {
      UnchangedStep(c, kept, i);
      if !changed[i] { kept := kept + [i]; }
    }
  }

  lemma UnchangedStep(c: seq<bool>, kept: seq<nat>, i: nat)
    requires i < |c|
    ensures kept + Unchanged(c, i) == (if c[i] then kept else kept + [i]) + Unchanged(c, i + 1)
  {
    assert [] + Unchanged(c, i + 1) == Unchanged(c, i + 1);
  }

  /** The k-th kept line of one side, paired with the k-th of the other. */
  method Zip(ua: seq<nat>, ub: seq<nat>) returns (result: map<nat, nat>)
    requires Ascending(ua)
    ensures Zips(result, ua, ub, if |ua| <= |ub| then |ua| else |ub|)
  {
    result := map[];
    var minLen := if |ua| <= |ub| then |ua| else |ub|;
    for k := 0 to minLen
      invariant Zips(result, ua, ub, k)
    {
      result := result[ua[k] := ub[k]];
    }
  }

  /** The matching whose unpaired lines are those that a pass over either side leaves changed. */
  ghost predicate CompactedTo(r: LineRules, a: seq<string>, b: seq<string>, m: map<nat, nat>, res: map<nat, nat>) {
    if |a| == 0 || |b| == 0 || |m| == 0 then res == m
    else
      && Passed(r.boundary, a, LeftOut(m.Keys, |a|), 0, LeftOut(res.Keys, |a|))
      && Passed(r.boundary, b, LeftOut(m.Values, |b|), 0, LeftOut(res.Values, |b|))
  }

  /** The pairs after compaction: a matching again, of the same texts in the same order. */
  method CompactLineDiff(r: LineRules, a: seq<string>, b: seq<string>, m: map<nat, nat>) returns (res: map<nat, nat>)
    requires Matching(r.trim, a, b, m)
    ensures Matching(r.trim, a, b, res)
    ensures KeptLines(a, LeftOut(res.Keys, |a|)) == KeptLines(a, LeftOut(m.Keys, |a|))
    ensures KeptLines(b, LeftOut(res.Values, |b|)) == KeptLines(b, LeftOut(m.Values, |b|))
    ensures CompactedTo(r, a, b, m, res)
  {
    hide Matching, KeptLines, Passed;
    if |a| == 0 || |b| == 0 || |m| == 0 { return m; }
    var changedA := Flags(m.Keys, |a|);
    var changedB := Flags(m.Values, |b|);
    CompactChanges(r.boundary, a, changedA);
    CompactChanges(r.boundary, b, changedB);
    var keptA := Collect(changedA);
    var keptB := Collect(changedB);
    UnchangedAscends(changedA[..], 0);
    res := Zip(keptA, keptB);
    Compacted(r.trim, a, b, m, changedA[..], changedB[..], res);
  }

  /** Flags that keep the same texts on either side pair up to the same texts. */
  lemma Compacted(trim: Trim, a: seq<string>, b: seq<string>, m: map<nat, nat>, changedA: seq<bool>,
                  changedB: seq<bool>, res: map<nat, nat>)
    requires Matching(trim, a, b, m) && |changedA| == |a| && |changedB| == |b|
    requires KeptLines(a, changedA) == KeptLines(a, LeftOut(m.Keys, |a|))
    requires KeptLines(b, changedB) == KeptLines(b, LeftOut(m.Values, |b|))
    requires var ua, ub := Unchanged(changedA, 0), Unchanged(changedB, 0);
             Zips(res, ua, ub, if |ua| <= |ub| then |ua| else |ub|)
    ensures Matching(trim, a, b, res)
    ensures changedA == LeftOut(res.Keys, |a|) && changedB == LeftOut(res.Values, |b|)
  {
    var ua, ub := Unchanged(changedA, 0), Unchanged(changedB, 0);
    SameTexts(trim, a, b, m, changedA, changedB);
    UnchangedAscends(changedA, 0);
    UnchangedAscends(changedB, 0);
    ZipMatches(trim, a, b, ua, ub, |ua|, res);
    ZipFlags(res, ua, ub, changedA, changedB);
  }

  lemma ZipFlags(res: map<nat, nat>, ua: seq<nat>, ub: seq<nat>, changedA: seq<bool>, changedB: seq<bool>)
    requires ua == Unchanged(changedA, 0) && ub == Unchanged(changedB, 0) && |ua| == |ub| && Zips(res, ua, ub, |ua|)
    ensures changedA == LeftOut(res.Keys, |changedA|) && changedB == LeftOut(res.Values, |changedB|)
  {
    UnchangedMembers(changedA, 0);
    UnchangedMembers(changedB, 0);
    forall i | 0 <= i < |changedA| ensures changedA[i] == (i !in res) {
      if !changedA[i] { assert i in ua; }
      if i in res { assert i in ua; }
    }
    forall j | 0 <= j < |changedB| ensures changedB[j] == (j !in res.Values) {
      if !changedB[j] {
        assert j in ub;
        var k :| 0 <= k < |ub| && ub[k] == j;
        assert res[ua[k]] == j;
      }
      if j in res.Values {
        var i :| i in res && res[i] == j;
        var k :| 0 <= k < |ua| && ua[k] == i;
        assert ub[k] in ub;
      }
    }
  }

  /** The k-th kept lines of the two sides agree after trimming. */
  lemma SameTexts(trim: Trim, a: seq<string>, b: seq<string>, m: map<nat, nat>, changedA: seq<bool>,
                  changedB: seq<bool>)
    requires Matching(trim, a, b, m) && |changedA| == |a| && |changedB| == |b|
    requires KeptLines(a, changedA) == KeptLines(a, LeftOut(m.Keys, |a|))
    requires KeptLines(b, changedB) == KeptLines(b, LeftOut(m.Values, |b|))
    ensures var ua, ub := Unchanged(changedA, 0), Unchanged(changedB, 0);
            && |ua| == |ub|
            && forall k :: 0 <= k < |ua| ==> ua[k] < |a| && ub[k] < |b| && trim(a[ua[k]]) == trim(b[ub[k]])
  {
    hide Matching, Unchanged;
    var ua, ub := Unchanged(changedA, 0), Unchanged(changedB, 0);
    var va, vb := Unchanged(LeftOut(m.Keys, |a|), 0), Unchanged(LeftOut(m.Values, |b|), 0);
    KeptTexts(a, changedA, 0);
    KeptTexts(b, changedB, 0);
    KeptTexts(a, LeftOut(m.Keys, |a|), 0);
    KeptTexts(b, LeftOut(m.Values, |b|), 0);
    assert Texts(a, ua) == Texts(a, va) && Texts(b, ub) == Texts(b, vb);
    LeftOutMarks(trim, a, b, m);
    MarkedPairs(trim, a, b, m, LeftOut(m.Keys, |a|), LeftOut(m.Values, |b|));
    UnchangedMembers(changedA, 0);
    UnchangedMembers(changedB, 0);
    hide LeftOut;
    forall k | 0 <= k < |ua| ensures ua[k] < |a| && ub[k] < |b| && trim(a[ua[k]]) == trim(b[ub[k]]) {
      assert ua[k] in ua && ub[k] in ub;
      assert Texts(a, ua)[k] == Texts(a, va)[k] && Texts(b, ub)[k] == Texts(b, vb)[k];
    }
  }

  // ---------------------------------------------------------------- the whole diff

  function SameLine(a: seq<string>, b: seq<string>): (nat, nat) -> bool {
    (i: nat, j: nat) => i < |a| && j < |b| && a[i] == b[j]
  }

  /** The first start lines paired with each other, and the lines after endA with those after endB, up to line n. */
  function Ends(start: nat, endA: int, endB: int, n: nat): map<nat, nat>
    requires -1 <= endB
  {
    map i: nat | i < n && AtEnd(i, start, endA) :: if i < start then i else endB + i - endA
  }

  predicate AtEnd(i: nat, start: nat, endA: int) {
    i < start || i > endA
  }

  lemma EndsLow(i: nat, n: nat)
    ensures Ends(0, n, 0, n) == map[]
    ensures i < n ==> Ends(i, n, 0, n)[i := i] == Ends(i + 1, n, 0, n)
  {
  }

  lemma EndsHigh(start: nat, endA: int, endB: int, n: nat, x: nat)
    requires -1 <= endB && start <= endA + 1 <= x <= n
    ensures Ends(start, n, 0, n) == Ends(start, endA, endB, endA + 1)
    ensures Ends(start, endA, endB, x)[x := endB + x - endA] == Ends(start, endA, endB, x + 1)
  {
  }

  /** As much as possible is trimmed at both ends. */
  ghost predicate FullyTrimmed(a: seq<string>, b: seq<string>, start: nat, endA: int, endB: int) {
    && Trimmed(SameLine(a, b), |a|, |b|, start, endA, endB)
    && (start <= endA && start <= endB ==> a[start] != b[start] && a[endA] != b[endB])
  }

  /** The trimmed ends, line by line. */
  method MatchEnds(r: LineRules, a: seq<string>, b: seq<string>)
    returns (m: map<nat, nat>, start: nat, endA: int, endB: int)
    ensures FullyTrimmed(a, b, start, endA, endB) && m == Ends(start, endA, endB, |a|)
    ensures Matching(r.trim, a, b, m) && Free(m, start, endA + 1, start, endB + 1)
  {
    hide Matching, Free, Ends;
    start, endA, endB := TrimBounds(|a|, |b|, SameLine(a, b));
    m := map[];
    NothingMatched(r.trim, a, b, |a|, |b|);
    EndsLow(0, |a|);
    for i := 0 to start
      invariant m == Ends(i, |a|, 0, |a|)
      invariant Matching(r.trim, a, b, m) && Free(m, i, |a|, i, |b|)
    {
      assert SameLine(a, b)(i, i);
      AddPair(r.trim, a, b, m, i, |a|, i, |b|, i, i);
      EndsLow(i, |a|);
      m := m[i := i];
    }
    FreeSplit(m, start, endA + 1, |a|, start, endB + 1, |b|);
    var x: nat, y: nat := endA + 1, endB + 1;
    EndsHigh(start, endA, endB, |a|, x);
    while x < |a| && y < |b|
      invariant endA < x <= |a| && endB < y <= |b| && |a| - x == |b| - y
      invariant m == Ends(start, endA, endB, x)
      invariant Matching(r.trim, a, b, m) && Free(m, x, |a|, y, |b|) && Free(m, start, endA + 1, start, endB + 1)
    {
      assert SameLine(a, b)(x, y);
      AddPair(r.trim, a, b, m, x, |a|, y, |b|, x, y);
      FreeBefore(m, start, endA + 1, start, endB + 1, x, y);
      EndsHigh(start, endA, endB, |a|, x);
      m := m[x := y];
      x, y := x + 1, y + 1;
    }
  }

  lemma NothingMatched(trim: Trim, a: seq<string>, b: seq<string>, n: nat, k: nat)
    ensures Matching(trim, a, b, map[]) && Free(map[], 0, n, 0, k)
  {
  }

  lemma FreeSplit(m: map<nat, nat>, a0: nat, a1: nat, a2: nat, b0: nat, b1: nat, b2: nat)
    requires Free(m, a0, a2, b0, b2) && a0 <= a1 <= a2 && b0 <= b1 <= b2
    ensures Free(m, a0, a1, b0, b1) && Free(m, a1, a2, b1, b2)
  {
  }

  /** The matching before compaction: the ends, and the middle by the route that its size asks for. */
  ghost predicate MiddleAligned(r: LineRules, a: seq<string>, b: seq<string>, start: nat, endA: int, endB: int,
                                m: map<nat, nat>)
    requires FullyTrimmed(a, b, start, endA, endB)
  {
    var ends := Ends(start, endA, endB, |a|);
    if start > endA || start > endB then m == ends
    else
      var subA, subB := a[start..endA + 1], b[start..endB + 1];
      if |subA| * |subB| > MAX_CELLS then AlignedAroundUnique(r, subA, subB, start, start, ends, m)
      else WindowAligned(r, subA, subB, start, start, ends, m)
  }

  /** A line diff: trimmed as far as possible, aligned in the middle, and compacted. */
  ghost predicate Diffed(r: LineRules, a: seq<string>, b: seq<string>, res: map<nat, nat>) {
    exists start: nat, endA: int, endB: int, m: map<nat, nat> ::
      FullyTrimmed(a, b, start, endA, endB) && MiddleAligned(r, a, b, start, endA, endB, m)
        && CompactedTo(r, a, b, m, res)
  }

  /**
    * The line diff, on every route: a matching inside both texts, strictly increasing on both sides, whose paired
    * lines agree but for blanks around them; and it is the one that trimming, the alignment of the middle and the
    * compaction of what is left give.
    */
  method LineDiff(r: LineRules, a: seq<string>, b: seq<string>, scratch: SeqScratch) returns (res: map<nat, nat>)
    modifies scratch, scratch.dp
    ensures scratch.dp == old(scratch.dp) || fresh(scratch.dp)
    ensures Matching(r.trim, a, b, res) && Diffed(r, a, b, res)
  {
    hide Matching, Free, WindowAligned, AlignedAroundUnique, CompactedTo;
    var m, start, endA, endB := MatchEnds(r, a, b);
    if start <= endA && start <= endB {
      if (endA + 1 - start) * (endB + 1 - start) > MAX_CELLS {
        m := LineDiffPatience(r, a, b, start, endA + 1, start, endB + 1, m, scratch);
      } else {
        m := AlignLineWindow(r, a, b, start, endA + 1, start, endB + 1, m, scratch, endA + 1, endB + 1);
      }
    }
    assert MiddleAligned(r, a, b, start, endA, endB, m);
    res := CompactLineDiff(r, a, b, m);
  }
}
