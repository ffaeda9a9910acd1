/** Two texts that share one line only, deep inside both: the line diff pairs that line, and nothing else. */
module LoneMatch {
  import opened Compaction
  import opened LineDiff
  import opened LineMatching
  import opened SeqDiff

  /** The rules tell the three lines apart, blanks or not. */
  predicate Tells(r: LineRules, x: string, y: string, z: string) {
    x != y && x != z && y != z && r.trim(x) != r.trim(y) && r.trim(x) != r.trim(z) && r.trim(y) != r.trim(z)
  }

  /** A text of n lines that read x, but for line i, which reads z. */
  function Lone(x: string, z: string, i: nat, n: nat): seq<string> {
    seq(n, k => if k == i then z else x)
  }

  /** A line inside both texts, and not the last one of both, so that nothing can be trimmed. */
  predicate Deep(m: nat, n: nat, i: nat, j: nat) {
    0 < i < m && 0 < j < n && !(i == m - 1 && j == n - 1)
  }

  // ---------------------------------------------------------------- the middle is everything

  lemma NothingTrimmed(x: string, y: string, z: string, m: nat, n: nat, i: nat, j: nat, start: nat, endA: int,
                       endB: int)
    requires Deep(m, n, i, j) && x != y && x != z && y != z
    ensures FullyTrimmed(Lone(x, z, i, m), Lone(y, z, j, n), start, endA, endB)
       <==> start == 0 && endA == m - 1 && endB == n - 1
  {
    var a, b := Lone(x, z, i, m), Lone(y, z, j, n);
    assert a[0] != b[0] && a[m - 1] != b[n - 1];
    assert SameLine(a, b)(0, 0) == (a[0] == b[0]) && SameLine(a, b)(m - 1, n - 1) == (a[m - 1] == b[n - 1]);
  }

  // ---------------------------------------------------------------- the only anchor

  lemma LoneOnce(x: string, z: string, i: nat, n: nat)
    requires i < n && x != z
    ensures multiset(Lone(x, z, i, n))[z] == 1
  {
    var a := Lone(x, z, i, n);
    assert a == a[..i] + [z] + a[i + 1..];
    assert z !in a[..i] && z !in a[i + 1..];
    assert multiset(a) == multiset(a[..i]) + multiset([z]) + multiset(a[i + 1..]);
  }

  lemma OnlyPair(x: string, y: string, z: string, m: nat, n: nat, i: nat, j: nat, k: nat, l: nat)
    requires i < m && j < n && x != y && x != z && y != z
    ensures UniquePair(Lone(x, z, i, m), Lone(y, z, j, n), k, l) <==> k == i && l == j
  {
    LoneOnce(x, z, i, m);
    LoneOnce(y, z, j, n);
  }

  lemma OnlyAnchor(x: string, y: string, z: string, m: nat, n: nat, i: nat, j: nat, lis: Pairs)
    requires i < m && j < n && x != y && x != z && y != z
    ensures MostUnique(Lone(x, z, i, m), Lone(y, z, j, n), lis) <==> lis == [(i, j)]
  {
    hide UniquePair, Lone;
    var a, b := Lone(x, z, i, m), Lone(y, z, j, n);
    forall k: nat, l: nat ensures UniquePair(a, b, k, l) <==> k == i && l == j {
      OnlyPair(x, y, z, m, n, i, j, k, l);
    }
    assert UniqueChain(a, b, [(i, j)]);
    forall ps: Pairs | UniqueChain(a, b, ps) ensures |ps| <= 1 && (ps != [] ==> ps == [(i, j)]) {
      assert |ps| > 1 ==> ps[0] == (i, j) && ps[1] == (i, j);
    }
  }

  // ---------------------------------------------------------------- nothing in the windows

  ghost predicate NoMatch(r: LineRules, winA: seq<string>, winB: seq<string>) {
    forall p: nat, q: nat :: MatchWeight(r, winA, winB)(p, q) <= 0
  }

  lemma FirstPositive(w: Weight, ps: Pairs, n: int, m: int)
    requires Chain(w, ps, n, m)
    ensures ps != [] ==> w(ps[0].0, ps[0].1) > 0
  {
  }

  lemma EmptyWindow(r: LineRules, winA: seq<string>, winB: seq<string>, a0: nat, b0: nat, m: map<nat, nat>,
                    m2: map<nat, nat>)
    requires NoMatch(r, winA, winB)
    ensures WindowAligned(r, winA, winB, a0, b0, m, m2) <==> m2 == m
  {
    hide MatchWeight;
    var w := MatchWeight(r, winA, winB);
    forall ps: Pairs | Chain(w, ps, |winA|, |winB|) ensures ps == [] {
      FirstPositive(w, ps, |winA|, |winB|);
    }
    assert Heaviest(w, [], |winA|, |winB|);
    assert WithPairs(m, [], a0, b0) == m;
  }

  lemma LoneWindow(r: LineRules, x: string, y: string, z: string, m: nat, n: nat, i: nat, j: nat,
                   from: (nat, nat), to: (nat, nat), was: map<nat, nat>, now: map<nat, nat>)
    requires Tells(r, x, y, z) && from.0 <= to.0 <= m && from.1 <= to.1 <= n
    requires to == (i, j) || from == (i + 1, j + 1)
    ensures OneWindow(r, Lone(x, z, i, m), Lone(y, z, j, n), from, to, 0, 0, was, now) <==> now == was
  {
    var winA, winB := Lone(x, z, i, m)[from.0..to.0], Lone(y, z, j, n)[from.1..to.1];
    assert forall k :: 0 <= k < |winA| ==> winA[k] == x;
    assert forall k :: 0 <= k < |winB| ==> winB[k] == y;
    EmptyWindow(r, winA, winB, from.0, from.1, was, now);
  }

  lemma LoneWindows(r: LineRules, x: string, y: string, z: string, m: nat, n: nat, i: nat, j: nat, now: map<nat, nat>)
    requires Tells(r, x, y, z) && i < m && j < n
    ensures Windows(r, Lone(x, z, i, m), Lone(y, z, j, n), [(i, j)], 0, (0, 0), 0, 0, map[], now)
       <==> now == map[i := j]
  {
    hide OneWindow, Lone;
    var a, b, lis := Lone(x, z, i, m), Lone(y, z, j, n), [(i, j)];
    assert |a| == m && |b| == n by { LoneLength(x, z, i, m); LoneLength(y, z, j, n); }
    forall m1 ensures OneWindow(r, a, b, (0, 0), lis[0], 0, 0, map[], m1) <==> m1 == map[] {
      LoneWindow(r, x, y, z, m, n, i, j, (0, 0), (i, j), map[], m1);
    }
    var after := map[i := j];
    assert Entered(map[], lis[0], 0, 0) == after;
    LoneWindow(r, x, y, z, m, n, i, j, (i + 1, j + 1), (m, n), after, now);
    assert Windows(r, a, b, lis, 1, (i + 1, j + 1), 0, 0, after, now) <==> now == after;
  }

  lemma LoneLength(x: string, z: string, i: nat, n: nat)
    ensures |Lone(x, z, i, n)| == n
  {
  }

  // ---------------------------------------------------------------- nothing to slide

  /** A group that can stand nowhere else stays. */
  lemma GroupStays(boundary: Boundary, lines: seq<string>, was: seq<bool>, from: nat, g: nat, now: seq<bool>)
    requires |was| == |lines| && Group(was, from, from + g)
    requires forall p: nat :: CanSlide(lines, was, from, p, g) ==> p == from
    ensures Passed(boundary, lines, was, from, now) <==> Passed(boundary, lines, was, from + g, now)
  {
    assert CanSlide(lines, was, from, from, g);
    assert BestSlide(boundary, lines, was, from, from, g);
    assert Slid(was, from, from, g) == was && After(from, from + g, from) == from + g;
    forall e: nat | Group(was, from, e) ensures e == from + g {}
    forall to: nat | BestSlide(boundary, lines, was, from, to, g) ensures to == from {}
  }

  lemma LonePassed(boundary: Boundary, x: string, z: string, i: nat, n: nat, now: seq<bool>)
    requires 0 < i < n && x != z
    ensures Passed(boundary, Lone(x, z, i, n), LeftOut({i}, n), 0, now) <==> now == LeftOut({i}, n)
  {
    var lines, was := Lone(x, z, i, n), LeftOut({i}, n);
    forall p: nat | CanSlide(lines, was, 0, p, i) ensures p == 0 {
      SlidesPast(lines, was, 0, p, i, 0);
    }
    GroupStays(boundary, lines, was, 0, i, now);
    assert Passed(boundary, lines, was, i, now) <==> Passed(boundary, lines, was, i + 1, now);
    if i + 1 < n {
      var from, g := i + 1, n - i - 1;
      forall p: nat | CanSlide(lines, was, from, p, g) ensures p == from {
        SlidesPast(lines, was, from, p, g, from);
      }
      GroupStays(boundary, lines, was, from, g, now);
    }
  }

  // ---------------------------------------------------------------- the whole diff

  lemma LoneMiddle(r: LineRules, x: string, y: string, z: string, m: nat, n: nat, i: nat, j: nat, now: map<nat, nat>)
    requires Tells(r, x, y, z) && Deep(m, n, i, j) && m * n > LineDiff.MAX_CELLS
    requires FullyTrimmed(Lone(x, z, i, m), Lone(y, z, j, n), 0, m - 1, n - 1)
    ensures MiddleAligned(r, Lone(x, z, i, m), Lone(y, z, j, n), 0, m - 1, n - 1, now) <==> now == map[i := j]
  {
    hide Windows, MostUnique, FullyTrimmed, Lone;
    var a, b := Lone(x, z, i, m), Lone(y, z, j, n);
    LoneLength(x, z, i, m);
    LoneLength(y, z, j, n);
    assert a[0..m] == a && b[0..n] == b;
    assert Ends(0, m - 1, n - 1, m) == map[];
    forall lis: Pairs ensures MostUnique(a, b, lis) <==> lis == [(i, j)] { OnlyAnchor(x, y, z, m, n, i, j, lis); }
    LoneWindows(r, x, y, z, m, n, i, j, now);
  }

  lemma LoneCompacted(r: LineRules, x: string, y: string, z: string, m: nat, n: nat, i: nat, j: nat, res: map<nat, nat>)
    requires Tells(r, x, y, z) && Deep(m, n, i, j)
    requires Matching(r.trim, Lone(x, z, i, m), Lone(y, z, j, n), res)
    ensures CompactedTo(r, Lone(x, z, i, m), Lone(y, z, j, n), map[i := j], res) <==> res == map[i := j]
  {
    var a, b, one := Lone(x, z, i, m), Lone(y, z, j, n), map[i := j];
    assert one.Keys == {i} && one.Values == {j};
    LonePassed(r.boundary, x, z, i, m, LeftOut(res.Keys, m));
    LonePassed(r.boundary, y, z, j, n, LeftOut(res.Values, n));
    MatchedInside(r.trim, a, b, res);
    hide Passed, Lone, LeftOut, Matching, Tells;
    LoneLength(x, z, i, m);
    LoneLength(y, z, j, n);
    if CompactedTo(r, a, b, one, res) {
      SameFlags(res.Keys, {i}, m);
      SameFlags(res.Values, {j}, n);
      OneEntry(res, i, j);
    }
  }

  lemma OneEntry(res: map<nat, nat>, i: nat, j: nat)
    requires res.Keys == {i} && res.Values == {j}
    ensures res == map[i := j]
  {
    assert i in res && res[i] in res.Values;
  }

  lemma MatchedInside(trim: Trim, a: seq<string>, b: seq<string>, res: map<nat, nat>)
    requires Matching(trim, a, b, res)
    ensures (forall k :: k in res.Keys ==> k < |a|) && forall k :: k in res.Values ==> k < |b|
  {
  }

  lemma SameFlags(s: set<nat>, t: set<nat>, n: nat)
    requires LeftOut(s, n) == LeftOut(t, n) && forall k :: k in s || k in t ==> k < n
    ensures s == t
  {
    forall k: nat | k < n ensures k in s <==> k in t {
      assert LeftOut(s, n)[k] == LeftOut(t, n)[k];
    }
  }

  /** Before compaction the diff can only be the pair. */
  lemma LoneDiffed(r: LineRules, x: string, y: string, z: string, m: nat, n: nat, i: nat, j: nat, res: map<nat, nat>)
    requires Tells(r, x, y, z) && Deep(m, n, i, j) && m * n > LineDiff.MAX_CELLS
    ensures var a, b := Lone(x, z, i, m), Lone(y, z, j, n);
            Diffed(r, a, b, res) <==> CompactedTo(r, a, b, map[i := j], res)
  {
    hide FullyTrimmed, MiddleAligned, CompactedTo, Lone, Tells;
    var a, b, one := Lone(x, z, i, m), Lone(y, z, j, n), map[i := j];
    var lastA: int, lastB: int := m - 1, n - 1;
    forall start: nat, endA: int, endB: int
      ensures FullyTrimmed(a, b, start, endA, endB) <==> start == 0 && endA == lastA && endB == lastB
    {
      ToldApart(r, x, y, z);
      NothingTrimmed(x, y, z, m, n, i, j, start, endA, endB);
    }
    forall now ensures MiddleAligned(r, a, b, 0, lastA, lastB, now) <==> now == one {
      LoneMiddle(r, x, y, z, m, n, i, j, now);
    }
    if CompactedTo(r, a, b, one, res) {
      assert FullyTrimmed(a, b, 0, lastA, lastB) && MiddleAligned(r, a, b, 0, lastA, lastB, one);
    }
  }

  lemma ToldApart(r: LineRules, x: string, y: string, z: string)
    requires Tells(r, x, y, z)
    ensures x != y && x != z && y != z
  {
  }

  /** The line diff of the two texts, when they are long, pairs the line they share and nothing else. */
  lemma LoneDiff(r: LineRules, x: string, y: string, z: string, m: nat, n: nat, i: nat, j: nat, res: map<nat, nat>)
    requires Tells(r, x, y, z) && Deep(m, n, i, j) && m * n > LineDiff.MAX_CELLS
    ensures var a, b := Lone(x, z, i, m), Lone(y, z, j, n);
            Matching(r.trim, a, b, res) && Diffed(r, a, b, res) <==> res == map[i := j]
  {
    hide Diffed, CompactedTo;
    assert Matching(r.trim, Lone(x, z, i, m), Lone(y, z, j, n), map[i := j]);
    hide Matching, Lone;
    if Matching(r.trim, Lone(x, z, i, m), Lone(y, z, j, n), res) {
      LoneDiffed(r, x, y, z, m, n, i, j, res);
      LoneCompacted(r, x, y, z, m, n, i, j, res);
    }
  }
}
