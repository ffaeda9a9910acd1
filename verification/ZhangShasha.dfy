/** The Zhang-Shasha table step over two trees in postorder. */
module ZhangShasha {
  import opened ForestDistance
  import opened Numbers

  /** The starts of the subtrees of two postorders. */
  ghost predicate Postorders(t: Trees) {
    && Nested(t.lld1) && Nested(t.lld2)
    && (forall k :: 0 <= k < |t.lld1| ==> t.lld1[k] <= k) && (forall k :: 0 <= k < |t.lld2| ==> t.lld2[k] <= k)
  }

  /** Two postorders with room for their tables. */
  ghost predicate Ready(t: Trees, treedist: array2<int>, forestdist: array2<int>) {
    && treedist != forestdist
    && treedist.Length0 == |t.lld1| + 1 && treedist.Length1 == |t.lld2| + 1
    && forestdist.Length0 == |t.lld1| + 1 && forestdist.Length1 == |t.lld2| + 1
    && Postorders(t)
  }

  /** Both subtrees start where the trees at i and j do. */
  predicate Leftmost(t: Trees, i: nat, j: nat, x: nat, y: nat)
    requires 0 < i <= |t.lld1| && 0 < j <= |t.lld2| && 0 < x <= |t.lld1| && 0 < y <= |t.lld2|
  {
    t.lld1[x - 1] == t.lld1[i - 1] && t.lld2[y - 1] == t.lld2[j - 1]
  }

  /** What has been filled when the step has come to row di and column dj. */
  ghost predicate Filled(t: Trees, l1: nat, l2: nat, j: nat, di: nat, dj: nat, x: nat, y: nat) {
    l1 <= x && l2 <= y <= j && ((x < di && (di > l1 + 1 || y < dj)) || (x == di && y < dj))
  }

  ghost predicate ForestKnown(t: Trees, w: Guess, fd: array2<int>, l1: nat, l2: nat, j: nat, di: nat, dj: nat)
    reads fd
  {
    forall x: nat, y: nat :: x < fd.Length0 && y < fd.Length1 && Filled(t, l1, l2, j, di, dj, x, y) ==>
      fd[x, y] == G(t, w, l1, x, l2, y)
  }

  /** The rows before di are filled; of the first one, so far only the corner when no other row is. */
  ghost predicate RowsKnown(t: Trees, w: Guess, fd: array2<int>, l1: nat, l2: nat, j: nat, di: nat)
    reads fd
  {
    forall x: nat, y: nat ::
      x < fd.Length0 && y < fd.Length1 && l1 <= x < di && l2 <= y <= j && (di > l1 + 1 || y == l2) ==>
      fd[x, y] == G(t, w, l1, x, l2, y)
  }

  /** The tree distances in range: as guessed off the leftmost paths, and on them as computed once filled. */
  ghost predicate TreesKnown(t: Trees, w: Guess, td: array2<int>, i: nat, j: nat, di: nat, dj: nat)
    requires 0 < i <= |t.lld1| && 0 < j <= |t.lld2| && td.Length0 == |t.lld1| + 1 && td.Length1 == |t.lld2| + 1
    reads td
  {
    forall x: nat, y: nat :: t.lld1[i - 1] < x <= i && t.lld2[j - 1] < y <= j ==>
      if !Leftmost(t, i, j, x, y) then td[x, y] == w(x, y)
      else x < di || (x == di && y < dj) ==> td[x, y] == G(t, w, t.lld1[i - 1], x, t.lld2[j - 1], y)
  }

  /** All tree distances in range, as computed from the guess. */
  ghost predicate TreesFilled(t: Trees, w: Guess, td: array2<int>, i: nat, j: nat)
    requires 0 < i <= |t.lld1| && 0 < j <= |t.lld2| && td.Length0 == |t.lld1| + 1 && td.Length1 == |t.lld2| + 1
    reads td
  {
    forall x: nat, y: nat :: t.lld1[i - 1] < x <= i && t.lld2[j - 1] < y <= j ==>
      td[x, y] == if Leftmost(t, i, j, x, y) then G(t, w, t.lld1[i - 1], x, t.lld2[j - 1], y) else w(x, y)
  }

  /** The forest distances of all prefixes of the two trees, as computed from the guess. */
  ghost predicate ForestFilled(t: Trees, w: Guess, fd: array2<int>, i: nat, j: nat)
    requires 0 < i <= |t.lld1| && 0 < j <= |t.lld2| && fd.Length0 == |t.lld1| + 1 && fd.Length1 == |t.lld2| + 1
    reads fd
  {
    forall x: nat, y: nat :: t.lld1[i - 1] <= x <= i && t.lld2[j - 1] <= y <= j ==>
      fd[x, y] == G(t, w, t.lld1[i - 1], x, t.lld2[j - 1], y)
  }

  lemma TreeCuts(lld: seq<nat>, i: nat, r: nat)
    requires Nested(lld) && 0 < i <= |lld| && lld[i - 1] <= r <= i && forall k :: 0 <= k < |lld| ==> lld[k] <= k
    ensures Cut(lld, lld[i - 1], r)
    ensures r > lld[i - 1] ==> lld[i - 1] <= lld[r - 1] < r
  {
  }

  method FillCell(t: Trees, i: nat, j: nat, td: array2<int>, fd: array2<int>, di: nat, dj: nat, ghost w: Guess)
    requires Ready(t, td, fd) && 0 < i <= |t.lld1| && 0 < j <= |t.lld2|
    requires t.lld1[i - 1] < di <= i && t.lld2[j - 1] < dj <= j
    requires ForestKnown(t, w, fd, t.lld1[i - 1], t.lld2[j - 1], j, di, dj) && TreesKnown(t, w, td, i, j, di, dj)
    modifies td, fd
    ensures ForestKnown(t, w, fd, t.lld1[i - 1], t.lld2[j - 1], j, di, dj + 1) && TreesKnown(t, w, td, i, j, di, dj + 1)
    ensures forall x: nat, y: nat :: x < td.Length0 && y < td.Length1 && (x != di || y != dj) ==>
      td[x, y] == old(td[x, y])
    ensures !Leftmost(t, i, j, di, dj) ==> td[di, dj] == old(td[di, dj])
  {
    hide G;
    var firstI, firstJ := t.lld1[i - 1], t.lld2[j - 1];
    TreeCuts(t.lld1, i, di);
    TreeCuts(t.lld2, j, dj);
    Edges(t, w, firstI, di, firstJ, dj);
    Inside(t, w, firstI, di, firstJ, dj);
    assert Filled(t, firstI, firstJ, j, di, dj, firstI, dj - 1);
    fd[firstI, dj] := fd[firstI, dj - 1] + 1;
    assert Filled(t, firstI, firstJ, j, di, dj, di, dj - 1);
    assert Filled(t, firstI, firstJ, j, di, dj, di - 1, dj - 1);
    assert Filled(t, firstI, firstJ, j, di, dj, t.lld1[di - 1], t.lld2[dj - 1]);
    assert di - 1 > firstI ==> Filled(t, firstI, firstJ, j, di, dj, di - 1, dj);
    if t.lld1[di - 1] == firstI && t.lld2[dj - 1] == firstJ {
      var ren := t.ren(di - 1, dj - 1);
      fd[di, dj] := Min3(fd[di - 1, dj] + 1, fd[di, dj - 1] + 1, fd[di - 1, dj - 1] + ren);
      td[di, dj] := fd[di, dj];
    } else {
      fd[di, dj] := Min3(fd[di - 1, dj] + 1, fd[di, dj - 1] + 1, fd[t.lld1[di - 1], t.lld2[dj - 1]] + td[di, dj]);
    }
  }

  /** A pair on the leftmost paths of the trees at i and j: the ones that the step sets. */
  predicate OnPaths(t: Trees, i: nat, j: nat, x: nat, y: nat)
    requires 0 < i <= |t.lld1| && 0 < j <= |t.lld2|
  {
    t.lld1[i - 1] < x <= i && t.lld2[j - 1] < y <= j && Leftmost(t, i, j, x, y)
  }

  /**
    * The table step, from any table: it leaves the forest distances of all prefixes and the tree distances on the two
    * leftmost paths, computed from whatever the table holds off these paths, and touches nothing else.
    */
  method ForestDist(t: Trees, i: nat, j: nat, td: array2<int>, fd: array2<int>, ghost w: Guess)
    requires Ready(t, td, fd) && 0 < i <= |t.lld1| && 0 < j <= |t.lld2| && TreesKnown(t, w, td, i, j, 0, 0)
    modifies td, fd
    ensures ForestFilled(t, w, fd, i, j) && TreesFilled(t, w, td, i, j)
    ensures forall x: nat, y: nat :: x < td.Length0 && y < td.Length1 && !OnPaths(t, i, j, x, y) ==>
      td[x, y] == old(td[x, y])
  {
    hide G;
    var firstI, firstJ := t.lld1[i - 1], t.lld2[j - 1];
    fd[firstI, firstJ] := 0;
    Edges(t, w, firstI, firstI, firstJ, firstJ);
    for di := firstI + 1 to i + 1
      invariant RowsKnown(t, w, fd, firstI, firstJ, j, di)
      invariant TreesKnown(t, w, td, i, j, di, 0)
      invariant forall x: nat, y: nat :: x < td.Length0 && y < td.Length1 && !OnPaths(t, i, j, x, y) ==>
        td[x, y] == old(td[x, y])
    {
      Edges(t, w, firstI, di, firstJ, firstJ);
      fd[di, firstJ] := fd[di - 1, firstJ] + 1;
      for dj := firstJ + 1 to j + 1
        invariant ForestKnown(t, w, fd, firstI, firstJ, j, di, dj) && TreesKnown(t, w, td, i, j, di, dj)
        invariant forall x: nat, y: nat :: x < td.Length0 && y < td.Length1 && !OnPaths(t, i, j, x, y) ==>
          td[x, y] == old(td[x, y])
      {
        FillCell(t, i, j, td, fd, di, dj, w);
      }
    }
  }

  /** From a right guess the step leaves the distances. */
  lemma FilledRight(t: Trees, w: Guess, i: nat, j: nat, x: nat, y: nat)
    requires Postorders(t) && 0 < i <= |t.lld1| && 0 < j <= |t.lld2|
    requires Right(t, w, t.lld1[i - 1], i, t.lld2[j - 1], j) && t.lld1[i - 1] <= x <= i && t.lld2[j - 1] <= y <= j
    ensures G(t, w, t.lld1[i - 1], x, t.lld2[j - 1], y) == D(t, t.lld1[i - 1], x, t.lld2[j - 1], y)
  {
    TreeCuts(t.lld1, i, x);
    TreeCuts(t.lld2, j, y);
    RightGuess(t, w, t.lld1[i - 1], x, t.lld2[j - 1], y);
  }
}
