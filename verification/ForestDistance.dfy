/** The edit distance between forests over postorder intervals, and the table step that computes it. */
module ForestDistance {
  import opened Numbers

  /**
    * Two trees in postorder: for every position the position of the leftmost leaf below it, and what turning one
    * node into another costs. Deleting or inserting a node costs one.
    */
  datatype Trees = Trees(lld1: seq<nat>, lld2: seq<nat>, ren: (nat, nat) -> int)

  /** The first position of the tree that ends before r, in a forest that starts at l. */
  function First(lld: seq<nat>, l: nat, r: nat): nat {
    if 0 < r <= |lld| && l <= lld[r - 1] < r then lld[r - 1] else l
  }

  /**
    * The edit distance of the forests l1..r1 and l2..r2: take off the last root on either side, or keep both last roots
    * and solve what is below them and what is before them apart.
    */
  ghost function D(t: Trees, l1: nat, r1: nat, l2: nat, r2: nat): int
    decreases (if l1 < r1 then r1 - l1 else 0) + (if l2 < r2 then r2 - l2 else 0)
  {
    if r1 <= l1 && r2 <= l2 then 0
    else if r1 <= l1 then D(t, l1, r1, l2, r2 - 1) + 1
    else if r2 <= l2 then D(t, l1, r1 - 1, l2, r2) + 1
    else
      var f1, f2 := First(t.lld1, l1, r1), First(t.lld2, l2, r2);
      Min3(D(t, l1, r1 - 1, l2, r2) + 1, D(t, l1, r1, l2, r2 - 1) + 1,
           D(t, l1, f1, l2, f2) + D(t, f1, r1 - 1, f2, r2 - 1) + t.ren(r1 - 1, r2 - 1))
  }

  /** The intervals below the positions nest: a postorder. */
  ghost predicate Nested(lld: seq<nat>) {
    forall i, k :: 0 <= i < |lld| && lld[i] <= k <= i ==> lld[i] <= lld[k] <= k
  }

  /** The edit distance of two whole subtrees, the ones that end before r1 and r2. */
  ghost function TD(t: Trees, r1: nat, r2: nat): int
    requires 0 < r1 <= |t.lld1| && 0 < r2 <= |t.lld2|
  {
    D(t, t.lld1[r1 - 1], r1, t.lld2[r2 - 1], r2)
  }

  /** The position m cuts the forest before r without cutting a tree. */
  ghost predicate Cut(lld: seq<nat>, m: nat, r: nat) {
    r <= |lld| && forall k :: m <= k < r ==> m <= lld[k] <= k
  }

  /** Solving two halves of the forests apart is never cheaper than solving them together. */
  lemma {:induction false} SubAdditive(t: Trees, l1: nat, m1: nat, r1: nat, l2: nat, m2: nat, r2: nat)
    requires l1 <= m1 <= r1 && l2 <= m2 <= r2 && Cut(t.lld1, m1, r1) && Cut(t.lld2, m2, r2)
    ensures D(t, l1, r1, l2, r2) <= D(t, l1, m1, l2, m2) + D(t, m1, r1, m2, r2)
    decreases (r1 - m1) + (r2 - m2)
  {
    if m1 < r1 { SubAdditive(t, l1, m1, r1 - 1, l2, m2, r2); }
    if m2 < r2 { SubAdditive(t, l1, m1, r1, l2, m2, r2 - 1); }
    if m1 < r1 && m2 < r2 {
      SubAdditive(t, l1, m1, t.lld1[r1 - 1], l2, m2, t.lld2[r2 - 1]);
    }
  }

  lemma LastRoots(t: Trees, l1: nat, r1: nat, l2: nat, r2: nat)
    requires l1 < r1 && l2 < r2 && Cut(t.lld1, l1, r1) && Cut(t.lld2, l2, r2)
    ensures D(t, l1, r1, l2, r2)
         == Min3(D(t, l1, r1 - 1, l2, r2) + 1, D(t, l1, r1, l2, r2 - 1) + 1,
                 D(t, l1, t.lld1[r1 - 1], l2, t.lld2[r2 - 1])
                 + D(t, t.lld1[r1 - 1], r1 - 1, t.lld2[r2 - 1], r2 - 1) + t.ren(r1 - 1, r2 - 1))
  {
  }

  lemma Itself(t: Trees, l1: nat, l2: nat)
    ensures D(t, l1, l1, l2, l2) == 0
  {
  }

  /** Above the leftmost paths, the tree distance may stand for keeping both last roots. */
  lemma SplitTree(t: Trees, l1: nat, r1: nat, l2: nat, r2: nat)
    requires l1 < r1 && l2 < r2 && Cut(t.lld1, l1, r1) && Cut(t.lld2, l2, r2)
    requires Nested(t.lld1) && Nested(t.lld2)
    ensures D(t, l1, r1, l2, r2)
         == Min3(D(t, l1, r1 - 1, l2, r2) + 1, D(t, l1, r1, l2, r2 - 1) + 1,
                 D(t, l1, t.lld1[r1 - 1], l2, t.lld2[r2 - 1]) + TD(t, r1, r2))
  {
    hide D;
    var f1, f2 := t.lld1[r1 - 1], t.lld2[r2 - 1];
    assert Cut(t.lld1, f1, r1) && Cut(t.lld2, f2, r2);
    SubAdditive(t, l1, f1, r1 - 1, l2, f2, r2);
    SubAdditive(t, l1, f1, r1, l2, f2, r2 - 1);
    LastRoots(t, l1, r1, l2, r2);
    LastRoots(t, f1, r1, f2, r2);
    Itself(t, f1, f2);
  }

  /** On the leftmost paths, nothing stands before the two trees. */
  lemma LeftmostTree(t: Trees, l1: nat, r1: nat, l2: nat, r2: nat)
    requires l1 < r1 <= |t.lld1| && l2 < r2 <= |t.lld2| && t.lld1[r1 - 1] == l1 && t.lld2[r2 - 1] == l2
    ensures D(t, l1, r1, l2, r2)
         == Min3(D(t, l1, r1 - 1, l2, r2) + 1, D(t, l1, r1, l2, r2 - 1) + 1,
                 D(t, l1, r1 - 1, l2, r2 - 1) + t.ren(r1 - 1, r2 - 1))
    ensures D(t, l1, r1, l2, r2) == TD(t, r1, r2)
  {
  }

  // ---------------------------------------------------------------- with distances taken from elsewhere

  /** Distances of pairs of subtrees, by the positions after their roots. */
  type Guess = (nat, nat) -> int

  /**
    * What the recurrence makes of the forests when it takes the distance of two subtrees off the leftmost paths from w,
    * whether that is their distance or not.
    */
  ghost function G(t: Trees, w: Guess, l1: nat, r1: nat, l2: nat, r2: nat): int
    decreases (if l1 < r1 then r1 - l1 else 0) + (if l2 < r2 then r2 - l2 else 0)
  {
    if r1 <= l1 && r2 <= l2 then 0
    else if r1 <= l1 then G(t, w, l1, r1, l2, r2 - 1) + 1
    else if r2 <= l2 then G(t, w, l1, r1 - 1, l2, r2) + 1
    else
      var f1, f2 := First(t.lld1, l1, r1), First(t.lld2, l2, r2);
      Min3(G(t, w, l1, r1 - 1, l2, r2) + 1, G(t, w, l1, r1, l2, r2 - 1) + 1,
           if f1 == l1 && f2 == l2 then G(t, w, l1, r1 - 1, l2, r2 - 1) + t.ren(r1 - 1, r2 - 1)
           else G(t, w, l1, f1, l2, f2) + w(r1, r2))
  }

  /** The guess is right for all pairs off the leftmost paths of the two forests. */
  ghost predicate Right(t: Trees, w: Guess, l1: nat, r1: nat, l2: nat, r2: nat)
    requires r1 <= |t.lld1| && r2 <= |t.lld2|
  {
    forall x: nat, y: nat :: l1 < x <= r1 && l2 < y <= r2 && !(t.lld1[x - 1] == l1 && t.lld2[y - 1] == l2) ==>
      w(x, y) == TD(t, x, y)
  }

  /** Along the edges only deletions or insertions are left. */
  lemma Edges(t: Trees, w: Guess, l1: nat, r1: nat, l2: nat, r2: nat)
    ensures l1 < r1 ==> D(t, l1, r1, l2, l2) == D(t, l1, r1 - 1, l2, l2) + 1
    ensures l1 < r1 ==> G(t, w, l1, r1, l2, l2) == G(t, w, l1, r1 - 1, l2, l2) + 1
    ensures l2 < r2 ==> D(t, l1, l1, l2, r2) == D(t, l1, l1, l2, r2 - 1) + 1
    ensures l2 < r2 ==> G(t, w, l1, l1, l2, r2) == G(t, w, l1, l1, l2, r2 - 1) + 1
    ensures D(t, l1, l1, l2, l2) == 0 && G(t, w, l1, l1, l2, l2) == 0
  {
  }

  /** A cell inside, from the cells above, to the left, and before the two trees. */
  lemma Inside(t: Trees, w: Guess, l1: nat, r1: nat, l2: nat, r2: nat)
    requires l1 < r1 <= |t.lld1| && l2 < r2 <= |t.lld2| && l1 <= t.lld1[r1 - 1] < r1 && l2 <= t.lld2[r2 - 1] < r2
    ensures G(t, w, l1, r1, l2, r2)
         == Min3(G(t, w, l1, r1 - 1, l2, r2) + 1, G(t, w, l1, r1, l2, r2 - 1) + 1,
                 if t.lld1[r1 - 1] == l1 && t.lld2[r2 - 1] == l2
                 then G(t, w, l1, r1 - 1, l2, r2 - 1) + t.ren(r1 - 1, r2 - 1)
                 else G(t, w, l1, t.lld1[r1 - 1], l2, t.lld2[r2 - 1]) + w(r1, r2))
  {
  }

  /** With a right guess the recurrence yields the distance. */
  lemma {:induction false} RightGuess(t: Trees, w: Guess, l1: nat, r1: nat, l2: nat, r2: nat)
    requires Nested(t.lld1) && Nested(t.lld2) && Cut(t.lld1, l1, r1) && Cut(t.lld2, l2, r2)
    requires l1 <= r1 && l2 <= r2 && Right(t, w, l1, r1, l2, r2)
    ensures G(t, w, l1, r1, l2, r2) == D(t, l1, r1, l2, r2)
    decreases r1 - l1 + (r2 - l2)
  {
    hide G, D, TD;
    Edges(t, w, l1, r1, l2, r2);
    if l1 < r1 { RightGuess(t, w, l1, r1 - 1, l2, r2); }
    if l2 < r2 { RightGuess(t, w, l1, r1, l2, r2 - 1); }
    if l1 < r1 && l2 < r2 {
      var f1, f2 := t.lld1[r1 - 1], t.lld2[r2 - 1];
      Inside(t, w, l1, r1, l2, r2);
      if f1 == l1 && f2 == l2 {
        RightGuess(t, w, l1, r1 - 1, l2, r2 - 1);
        LeftmostTree(t, l1, r1, l2, r2);
      } else {
        RightGuess(t, w, l1, f1, l2, f2);
        SplitTree(t, l1, r1, l2, r2);
      }
    }
  }
}
