/** The whole recovery of a pair of small subtrees: the tables filled from the outermost key roots inwards, the mapping
    read back from them, and for which shapes of trees it is a cheapest one. */
module ZsRun {
  import opened ForestDistance
  import opened ZhangShasha
  import opened ZsShape
  import opened ZsTrees
  import opened ZsBacktrack
  import TreeMappings

  /** The starts of the subtrees of a tree with at least one node, in postorder. */
  ghost predicate TreeStarts(lld: seq<nat>) {
    |lld| > 0 && Nested(lld) && (forall k :: 0 <= k < |lld| ==> lld[k] <= k) && lld[|lld| - 1] == 0
  }

  function Zero(x: nat, y: nat): int {
    0
  }

  /** What the run leaves as the distance of the subtrees before x and y: the recurrence with zero for all pairs inside
      them that are not on their leftmost paths. */
  ghost function Z(t: Trees, x: nat, y: nat): int
    requires 0 < x <= |t.lld1| && 0 < y <= |t.lld2|
  {
    G(t, Zero, t.lld1[x - 1], x, t.lld2[y - 1], y)
  }

  // ---------------------------------------------------------------- filling the tables

  predicate SameStart(lld: seq<nat>, x: nat, i: nat)
    requires 0 < x <= |lld| && 0 < i <= |lld|
  {
    lld[x - 1] == lld[i - 1]
  }

  /** The key root of x is among the first n. */
  ghost predicate Reached(lld: seq<nat>, kr: seq<nat>, n: nat, x: nat)
    requires KeyRoots(lld, kr) && 0 < x <= |lld|
  {
    exists k :: 0 <= k < n && k < |kr| && SameStart(lld, x, kr[k])
  }

  /** The pair was filled when the outer loop was at a and the inner loop at b. */
  ghost predicate Done(t: Trees, kr1: seq<nat>, kr2: seq<nat>, a: nat, b: nat, x: nat, y: nat)
    requires KeyRoots(t.lld1, kr1) && KeyRoots(t.lld2, kr2) && 0 < x <= |t.lld1| && 0 < y <= |t.lld2|
  {
    Reached(t.lld1, kr1, a, x) || (a < |kr1| && SameStart(t.lld1, x, kr1[a]) && Reached(t.lld2, kr2, b, y))
  }

  ghost predicate Progress(t: Trees, kr1: seq<nat>, kr2: seq<nat>, td: array2<int>, a: nat, b: nat)
    requires KeyRoots(t.lld1, kr1) && KeyRoots(t.lld2, kr2) && td.Length0 == |t.lld1| + 1 && td.Length1 == |t.lld2| + 1
    reads td
  {
    forall x: nat, y: nat :: 0 < x <= |t.lld1| && 0 < y <= |t.lld2| ==>
      td[x, y] == if Done(t, kr1, kr2, a, b, x, y) then Z(t, x, y) else 0
  }

  /** A node inside the subtree of a key root has not been reached before it, unless on its leftmost path. */
  lemma NotReached(lld: seq<nat>, kr: seq<nat>, n: nat, x: nat)
    requires TreeStarts(lld) && KeyRoots(lld, kr) && n < |kr| && lld[kr[n] - 1] < x <= kr[n]
    ensures !Reached(lld, kr, n, x)
  {
    var i := kr[n];
    assert i in kr && Topmost(lld, i);
    forall k | 0 <= k < n ensures !SameStart(lld, x, kr[k]) { AboveKey(lld, i, kr[k], x); }
  }

  lemma AboveKey(lld: seq<nat>, i: nat, top: nat, x: nat)
    requires TreeStarts(lld) && 0 < i < top <= |lld| && lld[i - 1] < x <= i && Topmost(lld, i)
    ensures !SameStart(lld, x, top)
  {
    assert lld[i - 1] <= lld[x - 1];
    assert lld[top - 1] <= i - 1 ==> lld[top - 1] <= lld[i - 1];
  }

  /** Every node has a key root. */
  lemma {:induction false} HasKeyRoot(lld: seq<nat>, kr: seq<nat>, x: nat, i: nat)
    requires KeyRoots(lld, kr) && 0 < x <= i <= |lld| && SameStart(lld, x, i)
    ensures Reached(lld, kr, |kr|, x)
    decreases |lld| - i
  {
    if Topmost(lld, i) {
      assert i in kr;
      var k :| 0 <= k < |kr| && kr[k] == i;
    } else {
      var k :| i <= k < |lld| && lld[k] == lld[i - 1];
      HasKeyRoot(lld, kr, x, k + 1);
    }
  }

  lemma ReachedNext(lld: seq<nat>, kr: seq<nat>, n: nat, x: nat)
    requires KeyRoots(lld, kr) && n < |kr| && 0 < x <= |lld|
    ensures Reached(lld, kr, n + 1, x) <==> Reached(lld, kr, n, x) || SameStart(lld, x, kr[n])
  {
  }

  /** Off the leftmost paths of two key roots nothing has been filled yet. */
  lemma StillZero(t: Trees, kr1: seq<nat>, kr2: seq<nat>, a: nat, b: nat, x: nat, y: nat)
    requires TreeStarts(t.lld1) && TreeStarts(t.lld2) && KeyRoots(t.lld1, kr1) && KeyRoots(t.lld2, kr2) && a < |kr1|
    requires b < |kr2|
    requires t.lld1[kr1[a] - 1] < x <= kr1[a] && t.lld2[kr2[b] - 1] < y <= kr2[b]
    ensures !Done(t, kr1, kr2, a, b, x, y)
  {
    NotReached(t.lld1, kr1, a, x);
    NotReached(t.lld2, kr2, b, y);
  }

  /** What one step fills. */
  lemma DoneNext(t: Trees, kr1: seq<nat>, kr2: seq<nat>, a: nat, b: nat, x: nat, y: nat)
    requires KeyRoots(t.lld1, kr1) && KeyRoots(t.lld2, kr2) && 0 < x <= |t.lld1| && 0 < y <= |t.lld2|
    requires a < |kr1| && b < |kr2|
    ensures Done(t, kr1, kr2, a, b + 1, x, y)
       <==> Done(t, kr1, kr2, a, b, x, y) || (SameStart(t.lld1, x, kr1[a]) && SameStart(t.lld2, y, kr2[b]))
  {
    ReachedNext(t.lld2, kr2, b, y);
  }

  lemma DoneRow(t: Trees, kr1: seq<nat>, kr2: seq<nat>, a: nat, x: nat, y: nat)
    requires KeyRoots(t.lld1, kr1) && KeyRoots(t.lld2, kr2) && 0 < x <= |t.lld1| && 0 < y <= |t.lld2| && a < |kr1|
    ensures Done(t, kr1, kr2, a, |kr2|, x, y) <==> Done(t, kr1, kr2, a + 1, 0, x, y)
  {
    ReachedNext(t.lld1, kr1, a, x);
    HasKeyRoot(t.lld2, kr2, y, y);
  }

  /** The nodes with the start of a key root are those on its leftmost path. */
  lemma PathOfKey(lld: seq<nat>, kr: seq<nat>, n: nat, x: nat)
    requires TreeStarts(lld) && KeyRoots(lld, kr) && n < |kr| && 0 < x <= |lld| && SameStart(lld, x, kr[n])
    ensures lld[kr[n] - 1] < x <= kr[n]
  {
    assert kr[n] in kr && Topmost(lld, kr[n]);
  }

  method FillTables(t: Trees, kr1: seq<nat>, kr2: seq<nat>, td: array2<int>, fd: array2<int>)
    requires Ready(t, td, fd) && TreeStarts(t.lld1) && TreeStarts(t.lld2) && KeyRoots(t.lld1, kr1)
    requires KeyRoots(t.lld2, kr2)
    requires forall x: nat, y: nat :: x < td.Length0 && y < td.Length1 ==> td[x, y] == 0
    modifies td, fd
    ensures forall x: nat, y: nat :: 0 < x <= |t.lld1| && 0 < y <= |t.lld2| ==> td[x, y] == Z(t, x, y)
  {
    hide Z, KeyRoots, Nested, Progress;
    ProgressStart(t, kr1, kr2, td);
    for a := 0 to |kr1|
      invariant Progress(t, kr1, kr2, td, a, 0)
    {
      for b := 0 to |kr2|
        invariant Progress(t, kr1, kr2, td, a, b)
      {
        FillPair(t, kr1, kr2, td, fd, a, b);
      }
      ProgressRow(t, kr1, kr2, td, a);
    }
    ProgressEnd(t, kr1, kr2, td);
  }

  lemma ProgressStart(t: Trees, kr1: seq<nat>, kr2: seq<nat>, td: array2<int>)
    requires KeyRoots(t.lld1, kr1) && KeyRoots(t.lld2, kr2) && td.Length0 == |t.lld1| + 1 && td.Length1 == |t.lld2| + 1
    requires forall x: nat, y: nat :: x < td.Length0 && y < td.Length1 ==> td[x, y] == 0
    ensures Progress(t, kr1, kr2, td, 0, 0)
  {
  }

  lemma ProgressRow(t: Trees, kr1: seq<nat>, kr2: seq<nat>, td: array2<int>, a: nat)
    requires KeyRoots(t.lld1, kr1) && KeyRoots(t.lld2, kr2) && td.Length0 == |t.lld1| + 1 && td.Length1 == |t.lld2| + 1
    requires a < |kr1| && Progress(t, kr1, kr2, td, a, |kr2|)
    ensures Progress(t, kr1, kr2, td, a + 1, 0)
  {
    hide Done, Z, KeyRoots;
    forall x: nat, y: nat | 0 < x <= |t.lld1| && 0 < y <= |t.lld2|
      ensures Done(t, kr1, kr2, a, |kr2|, x, y) <==> Done(t, kr1, kr2, a + 1, 0, x, y)
    {
      DoneRow(t, kr1, kr2, a, x, y);
    }
  }

  lemma ProgressEnd(t: Trees, kr1: seq<nat>, kr2: seq<nat>, td: array2<int>)
    requires KeyRoots(t.lld1, kr1) && KeyRoots(t.lld2, kr2) && td.Length0 == |t.lld1| + 1 && td.Length1 == |t.lld2| + 1
    requires Progress(t, kr1, kr2, td, |kr1|, 0)
    ensures forall x: nat, y: nat :: 0 < x <= |t.lld1| && 0 < y <= |t.lld2| ==> td[x, y] == Z(t, x, y)
  {
    hide Reached, Z, KeyRoots;
    forall x: nat, y: nat | 0 < x <= |t.lld1| && 0 < y <= |t.lld2| ensures Done(t, kr1, kr2, |kr1|, 0, x, y) {
      HasKeyRoot(t.lld1, kr1, x, x);
    }
  }

  /** One step of the run: the distances inside the two subtrees are still zero, but for those on their leftmost
      paths. */
  method FillPair(t: Trees, kr1: seq<nat>, kr2: seq<nat>, td: array2<int>, fd: array2<int>, a: nat, b: nat)
    requires Ready(t, td, fd) && TreeStarts(t.lld1) && TreeStarts(t.lld2) && KeyRoots(t.lld1, kr1)
    requires KeyRoots(t.lld2, kr2)
    requires a < |kr1| && b < |kr2| && Progress(t, kr1, kr2, td, a, b)
    modifies td, fd
    ensures Progress(t, kr1, kr2, td, a, b + 1)
  {
    hide G, Done, TreeStarts;
    var i, j := kr1[a], kr2[b];
    assert TreesKnown(t, Zero, td, i, j, 0, 0) by {
      forall x: nat, y: nat | t.lld1[i - 1] < x <= i && t.lld2[j - 1] < y <= j ensures td[x, y] == 0 {
        StillZero(t, kr1, kr2, a, b, x, y);
      }
    }
    ForestDist(t, i, j, td, fd, Zero);
    forall x: nat, y: nat | 0 < x <= |t.lld1| && 0 < y <= |t.lld2|
      ensures td[x, y] == if Done(t, kr1, kr2, a, b + 1, x, y) then Z(t, x, y) else 0
    {
      DoneNext(t, kr1, kr2, a, b, x, y);
      if SameStart(t.lld1, x, i) && SameStart(t.lld2, y, j) {
        PathOfKey(t.lld1, kr1, a, x);
        PathOfKey(t.lld2, kr2, b, y);
      }
    }
  }

  // ---------------------------------------------------------------- shapes for which the tables are right

  /** Nothing below x branches. */
  predicate Chain(lld: seq<nat>, x: nat)
    requires 0 < x <= |lld|
  {
    forall k :: lld[x - 1] <= k < x ==> lld[k] == lld[x - 1]
  }

  predicate Path(lld: seq<nat>) {
    forall k :: 0 <= k < |lld| ==> lld[k] == 0
  }

  /** All that hangs off the leftmost path is chains. */
  predicate Shallow(lld: seq<nat>) {
    forall x: nat :: 0 < x <= |lld| && lld[x - 1] != 0 ==> Chain(lld, x)
  }

  /** One tree is a path, and the other has nothing but chains off its leftmost path. */
  predicate Simple(t: Trees) {
    (Path(t.lld1) && Shallow(t.lld2)) || (Shallow(t.lld1) && Path(t.lld2))
  }

  /** The tables that the run leaves, as a guess. */
  ghost function Left(t: Trees): Guess {
    (x: nat, y: nat) => if 0 < x <= |t.lld1| && 0 < y <= |t.lld2| then Z(t, x, y) else 0
  }

  lemma ChainsRight(t: Trees, x: nat, y: nat)
    requires TreeStarts(t.lld1) && TreeStarts(t.lld2) && 0 < x <= |t.lld1| && 0 < y <= |t.lld2|
    requires Chain(t.lld1, x) && Chain(t.lld2, y)
    ensures Z(t, x, y) == TD(t, x, y)
  {
    hide G, D;
    RightGuess(t, Zero, t.lld1[x - 1], x, t.lld2[y - 1], y);
  }

  lemma SimpleRight(t: Trees)
    requires TreeStarts(t.lld1) && TreeStarts(t.lld2) && Simple(t)
    ensures Right(t, Left(t), 0, |t.lld1|, 0, |t.lld2|)
  {
    hide Z, TD;
    forall x: nat, y: nat | 0 < x <= |t.lld1| && 0 < y <= |t.lld2| && !(t.lld1[x - 1] == 0 && t.lld2[y - 1] == 0)
      ensures Left(t)(x, y) == TD(t, x, y)
    {
      assert Chain(t.lld1, x) && Chain(t.lld2, y);
      ChainsRight(t, x, y);
    }
  }

  // ---------------------------------------------------------------- for the other shapes they can be wrong

  /** Going on from a cell costs at most one for each node. */
  lemma {:induction false} Climb(t: Trees, w: Guess, l1: nat, a: nat, x: nat, l2: nat, b: nat, y: nat)
    requires l1 <= a <= x && l2 <= b <= y
    ensures G(t, w, l1, x, l2, y) <= G(t, w, l1, a, l2, b) + (x - a) + (y - b)
    decreases x - a + (y - b)
  {
    if x > a {
      Climb(t, w, l1, a, x - 1, l2, b, y);
    } else if y > b {
      Climb(t, w, l1, a, x, l2, b, y - 1);
    }
  }

  lemma {:induction false} Rim(t: Trees, w: Guess, l1: nat, r1: nat, l2: nat, r2: nat)
    requires l1 <= r1 && l2 <= r2
    ensures G(t, w, l1, r1, l2, l2) == r1 - l1 && G(t, w, l1, l1, l2, r2) == r2 - l2
    decreases r1 - l1 + (r2 - l2)
  {
    if l1 < r1 { Rim(t, w, l1, r1 - 1, l2, r2); } else if l2 < r2 { Rim(t, w, l1, r1, l2, r2 - 1); }
  }

  /** A pair inside that is off the leftmost paths comes at no cost, as if its subtrees were alike. */
  lemma FreePair(t: Trees, l1: nat, x: nat, l2: nat, y: nat, a: nat, b: nat)
    requires l1 < a <= x <= |t.lld1| && l2 < b <= y <= |t.lld2|
    requires l1 <= t.lld1[a - 1] < a && l2 <= t.lld2[b - 1] < b && !(t.lld1[a - 1] == l1 && t.lld2[b - 1] == l2)
    ensures G(t, Zero, l1, x, l2, y) <= x - l1 + (y - l2) - 2
  {
    hide G;
    var f1, f2 := t.lld1[a - 1], t.lld2[b - 1];
    Inside(t, Zero, l1, a, l2, b);
    Climb(t, Zero, l1, l1, f1, l2, l2, f2);
    Rim(t, Zero, l1, l1, l2, l2);
    Climb(t, Zero, l1, a, x, l2, b, y);
  }

  lemma BlockStart(lld: seq<nat>, x: nat, k: nat)
    requires TreeStarts(lld) && 0 < x <= |lld| && lld[x - 1] <= k < x
    ensures lld[x - 1] <= lld[k] <= k
  {
  }

  lemma TooLow(t: Trees, x: nat, y: nat)
    requires TreeStarts(t.lld1) && TreeStarts(t.lld2) && 0 < x <= |t.lld1| && 0 < y <= |t.lld2|
    requires !Chain(t.lld1, x) || !Chain(t.lld2, y)
    ensures Z(t, x, y) <= x - t.lld1[x - 1] + (y - t.lld2[y - 1]) - 2
  {
    hide G;
    var l1, l2 := t.lld1[x - 1], t.lld2[y - 1];
    BlockStart(t.lld1, x, l1);
    BlockStart(t.lld2, y, l2);
    if !Chain(t.lld1, x) {
      var k :| l1 <= k < x && t.lld1[k] != l1;
      BlockStart(t.lld1, x, k);
      FreePair(t, l1, x, l2, y, k + 1, l2 + 1);
    } else {
      var k :| l2 <= k < y && t.lld2[k] != l2;
      BlockStart(t.lld2, y, k);
      FreePair(t, l1, x, l2, y, l1 + 1, k + 1);
    }
  }

  /** A pair off the leftmost paths of the two trees, below which something branches. */
  ghost predicate Wrong(t: Trees, x: nat, y: nat) {
    && 0 < x <= |t.lld1| && 0 < y <= |t.lld2| && !(t.lld1[x - 1] == 0 && t.lld2[y - 1] == 0)
    && (!Chain(t.lld1, x) || !Chain(t.lld2, y))
  }

  lemma WrongPair(t: Trees) returns (x: nat, y: nat)
    requires TreeStarts(t.lld1) && TreeStarts(t.lld2) && !Simple(t)
    ensures Wrong(t, x, y)
  {
    x, y := |t.lld1|, |t.lld2|;
    if !Path(t.lld1) && !Path(t.lld2) {
      var k :| 0 <= k < |t.lld1| && t.lld1[k] != 0;
      x := k + 1;
    } else if Path(t.lld1) {
      y :| 0 < y <= |t.lld2| && t.lld2[y - 1] != 0 && !Chain(t.lld2, y);
    } else {
      x :| 0 < x <= |t.lld1| && t.lld1[x - 1] != 0 && !Chain(t.lld1, x);
    }
  }

  /** Such a pair makes the forests up to it look closer than two nodes less than all. */
  lemma LowCell(t: Trees, x: nat, y: nat)
    requires TreeStarts(t.lld1) && TreeStarts(t.lld2) && Wrong(t, x, y)
    ensures G(t, Left(t), 0, x, 0, y) <= G(t, Left(t), 0, t.lld1[x - 1], 0, t.lld2[y - 1]) + Z(t, x, y)
    ensures G(t, Left(t), 0, t.lld1[x - 1], 0, t.lld2[y - 1]) + Z(t, x, y) <= x + y - 2
  {
    hide G, Z;
    Inside(t, Left(t), 0, x, 0, y);
    Climb(t, Left(t), 0, 0, t.lld1[x - 1], 0, 0, t.lld2[y - 1]);
    Rim(t, Left(t), 0, 0, 0, 0);
    TooLow(t, x, y);
  }

  /** Two roots with two leaves each are not simple; with no two nodes alike the run takes the second leaf and the other
      root to be two apart, and they are four. */
  lemma TwoLeaves(t: Trees)
    requires t.lld1 == [0, 1, 0] && t.lld2 == [0, 1, 0] && forall i: nat, j: nat :: t.ren(i, j) == 1000
    ensures TreeStarts(t.lld1) && TreeStarts(t.lld2) && !Simple(t) && Wrong(t, 2, 3)
    ensures Z(t, 2, 3) <= 2 && TD(t, 2, 3) == 4
  {
    assert t.lld1[1] != 0 && t.lld2[1] != 0;
    assert !Chain(t.lld2, 3);
    TooLow(t, 2, 3);
    assert D(t, 1, 2, 0, 0) == 1 && D(t, 1, 1, 0, 1) == 1;
    assert D(t, 1, 2, 0, 1) == 2;
    assert D(t, 1, 1, 0, 2) == 2;
    assert D(t, 1, 2, 0, 2) == 3;
    assert D(t, 1, 1, 0, 3) == 3;
  }

  /** The one pair of nodes that is alike in the worst case: the last node and the first one, or the two first. */
  function Pick(t: Trees): (nat, nat) {
    (if |t.lld2| > 1 then |t.lld1| else 1, 1)
  }

  /** No two nodes are alike but this pair. */
  ghost predicate Adverse(t: Trees) {
    forall i: nat, j: nat :: t.ren(i, j) == if (i + 1, j + 1) == Pick(t) then 0 else 1000
  }

  lemma {:induction false} AlongRow(t: Trees, w: Guess, i: nat, j: nat, y: nat)
    requires 0 < i <= |t.lld1| && 0 < j <= |t.lld2| && t.lld1[i - 1] == 0 && t.lld2[j - 1] == 0 && 0 < y <= j
    requires forall k: nat :: 1 < k <= j ==> InsertedAt(t, w, i, j, k)
    ensures G(t, w, 0, i, 0, y) == G(t, w, 0, i, 0, 1) + y - 1
  {
    hide G;
    if y > 1 {
      AlongRow(t, w, i, j, y - 1);
      assert InsertedAt(t, w, i, j, y);
    }
  }

  lemma {:induction false} AlongColumn(t: Trees, w: Guess, i: nat, j: nat, x: nat)
    requires 0 < i <= |t.lld1| && 0 < j <= |t.lld2| && t.lld1[i - 1] == 0 && t.lld2[j - 1] == 0 && 0 < x <= i
    requires forall k: nat :: 1 < k <= i ==> DeletedAt(t, w, i, j, k)
    ensures G(t, w, 0, x, 0, j) == G(t, w, 0, 1, 0, j) + x - 1
  {
    hide G;
    if x > 1 {
      AlongColumn(t, w, i, j, x - 1);
      assert DeletedAt(t, w, i, j, x);
    }
  }

  /** The way along the last row to the first column is barred. */
  lemma RowBarred(t: Trees, x: nat, y: nat)
    requires TreeStarts(t.lld1) && TreeStarts(t.lld2) && |t.lld2| > 1 && Wrong(t, x, y)
    requires G(t, Left(t), 0, |t.lld1|, 0, 1) == |t.lld1| - 1
    ensures !Straight(t, Left(t), |t.lld1|, |t.lld2|, |t.lld1|, 1)
  {
    hide G, Z;
    var w, n, m := Left(t), |t.lld1|, |t.lld2|;
    assert t.lld2[0] == 0;
    if Straight(t, w, n, m, n, 1) {
      assert InsertedAt(t, w, n, m, m) && (y > 1 ==> InsertedAt(t, w, n, m, y));
      AlongRow(t, w, n, m, y);
      AlongRow(t, w, n, m, m);
      if x < n {
        Climb(t, w, 0, x, n - 1, 0, y, m);
        Climb(t, w, 0, n - 1, n, 0, m, m);
      }
      LowCell(t, x, y);
    }
  }

  /** So is the way up the only column to the first row. */
  lemma ColumnBarred(t: Trees, x: nat, y: nat)
    requires TreeStarts(t.lld1) && TreeStarts(t.lld2) && |t.lld2| == 1 && Wrong(t, x, y)
    requires G(t, Left(t), 0, 1, 0, 1) == 0
    ensures !Straight(t, Left(t), |t.lld1|, 1, 1, 1)
  {
    hide G, Z;
    var w, n := Left(t), |t.lld1|;
    assert t.lld1[0] == 0;
    if Straight(t, w, n, 1, 1, 1) {
      assert DeletedAt(t, w, n, 1, x);
      AlongColumn(t, w, n, 1, x);
      LowCell(t, x, y);
    }
  }

  lemma AdverseUnread(t: Trees)
    requires TreeStarts(t.lld1) && TreeStarts(t.lld2) && !Simple(t) && Adverse(t)
    ensures Unread(t, Left(t), |t.lld1|, |t.lld2|, Pick(t).0, Pick(t).1)
  {
    hide G, Z, Straight;
    var x, y := WrongPair(t);
    var w, n := Left(t), |t.lld1|;
    Rim(t, w, 0, Pick(t).0 - 1, 0, 0);
    if G(t, w, 0, Pick(t).0 - 1, 0, 0) == G(t, w, 0, Pick(t).0, 0, 1) {
      if |t.lld2| > 1 { RowBarred(t, x, y); } else { ColumnBarred(t, x, y); }
    }
  }

  /** Entries without the pair pay for every node. */
  lemma {:induction false} AllPaid(t: Trees, es: Entries)
    requires Adverse(t) && Pick(t) !in es
    ensures EntriesCost(t, es) >= Nodes(es)
  {
    if es != [] { AllPaid(t, es[1..]); }
  }

  lemma NotCheapest(t: Trees, es: Entries)
    requires TreeStarts(t.lld1) && TreeStarts(t.lld2) && Adverse(t) && Complete(t, es) && Pick(t) !in es
    ensures !Cheapest(t, es)
  {
    AllPaid(t, es);
    var one: TreeMappings.Mapped := [(Pick(t).0 - 1, Pick(t).1 - 1)];
    TreeMappings.RenamesOne(t, one[0]);
    assert TreeMappings.Valid(t, one, 0, |t.lld1|, 0, |t.lld2|);
    assert TreeMappings.Cost(t, one, |t.lld1|, |t.lld2|) == |t.lld1| + |t.lld2| - 2;
  }

  // ---------------------------------------------------------------- the whole run

  /** The starts of the subtrees of a tree. */
  ghost predicate Starts(root: Node, lld: seq<nat>) {
    |lld| == |PostOrder(root)| && forall i: nat :: i < |lld| ==> lld[i] == StartOf(PostOrder(root), i)
  }

  lemma StartsOfTree(root: Node, lld: seq<nat>)
    requires Starts(root, lld)
    ensures TreeStarts(lld)
  {
    StartsNest(root, lld);
  }

  /**
    * The mapping of two trees: complete and in shape always; a cheapest one, whatever the costs, for simple shapes; and
    * for no others: there it is not when no two nodes are alike but the pair picked. For any shape it is a cheapest one
    * under costs for which the run leaves the tree distances right off the leftmost paths.
    */
  method Recover(t1: Node, t2: Node, ren: (nat, nat) -> int) returns (t: Trees, mapping: Entries)
    requires DistinctIds(PostOrder(t1)) && DistinctIds(PostOrder(t2))
    ensures t.ren == ren && Starts(t1, t.lld1) && Starts(t2, t.lld2)
    ensures Complete(t, mapping) && Shaped(t, mapping)
    ensures Simple(t) ==> Cheapest(t, mapping)
    ensures Right(t, Left(t), 0, |t.lld1|, 0, |t.lld2|) ==> Cheapest(t, mapping)
    ensures !Simple(t) && Adverse(t) ==> !Cheapest(t, mapping)
  {
    hide PostOrder, Simple, Adverse, Cheapest, Complete, Shaped, Z, G, DistinctIds, Blocked, Right, Unread;
    var nodes1, nodes2 := PostOrder(t1), PostOrder(t2);
    TreeBlocked(t1);
    TreeBlocked(t2);
    var lld1 := ComputeLLD(nodes1);
    var lld2 := ComputeLLD(nodes2);
    t := Trees(lld1, lld2, ren);
    StartsOfTree(t1, lld1);
    StartsOfTree(t2, lld2);
    var kr1 := ComputeKeyRoots(lld1);
    var kr2 := ComputeKeyRoots(lld2);
    var treedist := new int[|lld1| + 1, |lld2| + 1]((_, _) => 0);
    var forestdist := new int[|lld1| + 1, |lld2| + 1]((_, _) => 0);
    FillTables(t, kr1, kr2, treedist, forestdist);
    ghost var p, q := |lld1| + 1, 1;
    if !Simple(t) && Adverse(t) {
      AdverseUnread(t);
      p, q := Pick(t).0, Pick(t).1;
    } else {
      BeyondUnread(t);
    }
    mapping := Backtrack(t, treedist, forestdist, Left(t), p, q);
    if Simple(t) {
      SimpleRight(t);
    } else if Adverse(t) {
      NotCheapest(t, mapping);
    }
  }

  lemma BeyondUnread(t: Trees)
    requires |t.lld1| > 0 && |t.lld2| > 0
    ensures Unread(t, Left(t), |t.lld1|, |t.lld2|, |t.lld1| + 1, 1)
  {
  }
}
