/** Reading the node mapping back from the tables: every node of both trees once, and in shape, from any table; at the
    least cost from a right one. */
module ZsBacktrack {
  import opened Lists
  import opened ForestDistance
  import opened ZhangShasha
  import opened ZsShape
  import TreeMappings

  /** One if x is among the numbers a + 1 to b. */
  function Within(a: nat, b: nat, x: nat): nat {
    if a < x <= b then 1 else 0
  }

  /** How many entries mention node x of the first tree. */
  function RowCount(es: Entries, x: nat): nat {
    if es == [] then 0 else (if es[0].0 == x then 1 else 0) + RowCount(es[1..], x)
  }

  /** How many entries mention node x of the second tree. */
  function ColCount(es: Entries, x: nat): nat {
    if es == [] then 0 else (if es[0].1 == x then 1 else 0) + ColCount(es[1..], x)
  }

  /** Matched nodes are renamed, single ones deleted or inserted. */
  function EntryCost(t: Trees, e: (nat, nat)): int {
    if e.0 > 0 && e.1 > 0 then t.ren(e.0 - 1, e.1 - 1) else 1
  }

  function EntriesCost(t: Trees, es: Entries): int {
    if es == [] then 0 else EntryCost(t, es[0]) + EntriesCost(t, es[1..])
  }

  /** How many nodes the entries mention. */
  function Nodes(es: Entries): nat {
    if es == [] then 0 else (if es[0].0 > 0 then 1 else 0) + (if es[0].1 > 0 then 1 else 0) + Nodes(es[1..])
  }

  lemma {:induction false} PushNodes(es: Entries, e: (nat, nat))
    ensures Nodes(es + [e]) == Nodes(es) + (if e.0 > 0 then 1 else 0) + (if e.1 > 0 then 1 else 0)
  {
    if es == [] {
      assert es + [e] == [e] && [e][1..] == [];
    } else {
      assert (es + [e])[1..] == es[1..] + [e];
      PushNodes(es[1..], e);
    }
  }

  lemma {:induction false} PushCounts(es: Entries, e: (nat, nat), x: nat)
    ensures RowCount(es + [e], x) == RowCount(es, x) + (if e.0 == x then 1 else 0)
    ensures ColCount(es + [e], x) == ColCount(es, x) + (if e.1 == x then 1 else 0)
  {
    if es == [] {
      assert es + [e] == [e] && [e][1..] == [];
    } else {
      assert (es + [e])[1..] == es[1..] + [e];
      PushCounts(es[1..], e, x);
    }
  }

  lemma {:induction false} PushCost(t: Trees, es: Entries, e: (nat, nat))
    ensures EntriesCost(t, es + [e]) == EntriesCost(t, es) + EntryCost(t, e)
  {
    if es == [] {
      assert es + [e] == [e] && [e][1..] == [];
    } else {
      assert (es + [e])[1..] == es[1..] + [e];
      PushCost(t, es[1..], e);
    }
  }

  lemma {:induction false} Backwards(t: Trees, es: Entries, x: nat)
    ensures RowCount(Reversed(es), x) == RowCount(es, x) && ColCount(Reversed(es), x) == ColCount(es, x)
    ensures EntriesCost(t, Reversed(es)) == EntriesCost(t, es) && Nodes(Reversed(es)) == Nodes(es)
    ensures forall e :: e in Reversed(es) <==> e in es
  {
    if es != [] {
      Backwards(t, es[1..], x);
      PushCounts(Reversed(es[1..]), es[0], x);
      PushNodes(Reversed(es[1..]), es[0]);
      PushCost(t, Reversed(es[1..]), es[0]);
    }
  }

  // ---------------------------------------------------------------- the subtrees still to read

  ghost predicate InTrees(t: Trees, p: (nat, nat)) {
    0 < p.0 <= |t.lld1| && 0 < p.1 <= |t.lld2| && t.lld1[p.0 - 1] < p.0 && t.lld2[p.1 - 1] < p.1
  }

  ghost predicate AllInTrees(t: Trees, ps: Entries) {
    forall k :: 0 <= k < |ps| ==> InTrees(t, ps[k])
  }

  function Low(lld: seq<nat>, x: nat): nat {
    if 0 < x <= |lld| then lld[x - 1] else x
  }

  function PendingRow(t: Trees, ps: Entries, x: nat): nat {
    if ps == [] then 0 else Within(Low(t.lld1, ps[0].0), ps[0].0, x) + PendingRow(t, ps[1..], x)
  }

  function PendingCol(t: Trees, ps: Entries, x: nat): nat {
    if ps == [] then 0 else Within(Low(t.lld2, ps[0].1), ps[0].1, x) + PendingCol(t, ps[1..], x)
  }

  ghost function PendingCost(t: Trees, ps: Entries): int {
    if ps == [] then 0
    else D(t, Low(t.lld1, ps[0].0), ps[0].0, Low(t.lld2, ps[0].1), ps[0].1) + PendingCost(t, ps[1..])
  }

  function PendingSize(t: Trees, ps: Entries): int {
    if ps == [] then 0
    else (ps[0].0 - Low(t.lld1, ps[0].0)) + (ps[0].1 - Low(t.lld2, ps[0].1)) + PendingSize(t, ps[1..])
  }

  lemma AllTail(t: Trees, ps: Entries)
    requires ps != [] && AllInTrees(t, ps)
    ensures InTrees(t, ps[0]) && AllInTrees(t, ps[1..])
  {
  }

  lemma {:induction false} PendingPositive(t: Trees, ps: Entries)
    requires AllInTrees(t, ps)
    ensures PendingSize(t, ps) >= 0
  {
    if ps != [] {
      AllTail(t, ps);
      PendingPositive(t, ps[1..]);
    }
  }

  /** Every node is accounted for once: in an entry, in a subtree still to read, or in the forest at hand. */
  ghost predicate RowsAccounted(t: Trees, es: Entries, ps: Entries, l1: nat, row: nat) {
    forall x: nat :: x > 0 ==> RowCount(es, x) + PendingRow(t, ps, x) + Within(l1, row, x) == Within(0, |t.lld1|, x)
  }

  ghost predicate ColsAccounted(t: Trees, es: Entries, ps: Entries, l2: nat, col: nat) {
    forall x: nat :: x > 0 ==> ColCount(es, x) + PendingCol(t, ps, x) + Within(l2, col, x) == Within(0, |t.lld2|, x)
  }

  ghost predicate NodesAccounted(t: Trees, es: Entries, ps: Entries, l1: nat, row: nat, l2: nat, col: nat) {
    Nodes(es) + PendingSize(t, ps) + (row - l1) + (col - l2) == |t.lld1| + |t.lld2|
  }

  /** And so is every bit of the distance. */
  ghost predicate CostAccounted(t: Trees, es: Entries, ps: Entries, l1: nat, row: nat, l2: nat, col: nat) {
    EntriesCost(t, es) + PendingCost(t, ps) + D(t, l1, row, l2, col) == D(t, 0, |t.lld1|, 0, |t.lld2|)
  }

  /** The nodes always, the distance when the table is known to be right. */
  ghost predicate Accounted(t: Trees, known: bool, es: Entries, ps: Entries, l1: nat, row: nat, l2: nat, col: nat) {
    && RowsAccounted(t, es, ps, l1, row) && ColsAccounted(t, es, ps, l2, col)
    && NodesAccounted(t, es, ps, l1, row, l2, col)
    && (known ==> CostAccounted(t, es, ps, l1, row, l2, col))
  }

  /** One entry more, its nodes taken off the ends of the forests at hand. */
  lemma KeepEntry(t: Trees, known: bool, es: Entries, ps: Entries, l1: nat, row: nat, l2: nat, col: nat, e: (nat, nat))
    requires Accounted(t, known, es, ps, l1, row, l2, col)
    requires e.0 == 0 || (e.0 == row && l1 < row)
    requires e.1 == 0 || (e.1 == col && l2 < col)
    requires known ==>
      D(t, l1, row, l2, col) - D(t, l1, if e.0 > 0 then row - 1 else row, l2, if e.1 > 0 then col - 1 else col)
      == EntryCost(t, e)
    ensures Accounted(t, known, es + [e], ps, l1, if e.0 > 0 then row - 1 else row, l2,
                      if e.1 > 0 then col - 1 else col)
  {
    hide D, EntryCost, EntriesCost, PendingCost;
    PushCost(t, es, e);
    PushNodes(es, e);
    forall x: nat | x > 0
      ensures RowCount(es + [e], x) + Within(l1, if e.0 > 0 then row - 1 else row, x)
        == RowCount(es, x) + Within(l1, row, x)
      ensures ColCount(es + [e], x) + Within(l2, if e.1 > 0 then col - 1 else col, x)
        == ColCount(es, x) + Within(l2, col, x)
    {
      PushCounts(es, e, x);
    }
  }

  /** One subtree more to read, taken off the ends of the forests at hand. */
  lemma KeepSubtree(t: Trees, known: bool, es: Entries, ps: Entries, l1: nat, row: nat, l2: nat, col: nat)
    requires Accounted(t, known, es, ps, l1, row, l2, col) && InTrees(t, (row, col))
    requires l1 <= t.lld1[row - 1] && l2 <= t.lld2[col - 1]
    requires known ==> D(t, l1, row, l2, col) == D(t, l1, t.lld1[row - 1], l2, t.lld2[col - 1]) + TD(t, row, col)
    ensures Accounted(t, known, es, [(row, col)] + ps, l1, t.lld1[row - 1], l2, t.lld2[col - 1])
    ensures PendingSize(t, [(row, col)] + ps) == PendingSize(t, ps) + (row - t.lld1[row - 1]) + (col - t.lld2[col - 1])
  {
    hide D, RowCount, ColCount;
    assert ([(row, col)] + ps)[1..] == ps;
  }

  lemma KeepAll(t: Trees, ps: Entries, p: (nat, nat))
    requires AllInTrees(t, ps) && InTrees(t, p)
    ensures AllInTrees(t, [p] + ps)
  {
  }

  lemma TakeSubtree(t: Trees, known: bool, es: Entries, ps: Entries)
    requires ps != [] && InTrees(t, ps[0]) && Accounted(t, known, es, ps, 0, 0, 0, 0)
    ensures Accounted(t, known, es, ps[1..], t.lld1[ps[0].0 - 1], ps[0].0, t.lld2[ps[0].1 - 1], ps[0].1)
    ensures PendingSize(t, ps)
         == PendingSize(t, ps[1..]) + (ps[0].0 - t.lld1[ps[0].0 - 1]) + (ps[0].1 - t.lld2[ps[0].1 - 1])
  {
    Itself(t, 0, 0);
    hide D, RowCount, ColCount;
  }

  lemma SubtreeDone(t: Trees, known: bool, es: Entries, ps: Entries, l1: nat, l2: nat)
    requires Accounted(t, known, es, ps, l1, l1, l2, l2)
    ensures Accounted(t, known, es, ps, 0, 0, 0, 0)
  {
    Itself(t, 0, 0);
    Itself(t, l1, l2);
    hide D, RowCount, ColCount, PendingRow, PendingCol;
  }

  // ---------------------------------------------------------------- which matches a reading passes by

  /** Column y of the last row was left by an insertion, all that is tried before having failed. */
  ghost predicate InsertedAt(t: Trees, w: Guess, i: nat, j: nat, y: nat)
    requires 0 < i <= |t.lld1| && 0 < j <= |t.lld2| && 0 < y <= |t.lld2|
  {
    var l1, l2 := t.lld1[i - 1], t.lld2[j - 1];
    && G(t, w, l1, i, l2, y - 1) + 1 == G(t, w, l1, i, l2, y)
    && G(t, w, l1, i - 1, l2, y) + 1 != G(t, w, l1, i, l2, y)
    && (t.lld2[y - 1] != l2 ==> G(t, w, l1, l1, l2, t.lld2[y - 1]) + w(i, y) != G(t, w, l1, i, l2, y))
  }

  /** Row x of the last column was left by a deletion. */
  ghost predicate DeletedAt(t: Trees, w: Guess, i: nat, j: nat, x: nat)
    requires 0 < i <= |t.lld1| && 0 < j <= |t.lld2| && 0 < x <= |t.lld1|
  {
    var l1, l2 := t.lld1[i - 1], t.lld2[j - 1];
    && G(t, w, l1, x - 1, l2, j) + 1 == G(t, w, l1, x, l2, j)
    && (t.lld1[x - 1] != l1 ==> G(t, w, l1, t.lld1[x - 1], l2, l2) + w(x, j) != G(t, w, l1, x, l2, j))
  }

  /** While the reading has not left the last row, or the last column, it went there step by step. */
  ghost predicate Straight(t: Trees, w: Guess, i: nat, j: nat, row: nat, col: nat)
    requires 0 < i <= |t.lld1| && 0 < j <= |t.lld2| && row <= i && col <= j
  {
    && (row == i ==> forall y: nat :: col < y <= j ==> InsertedAt(t, w, i, j, y))
    && (col == j ==> forall x: nat :: row < x <= i ==> DeletedAt(t, w, i, j, x))
  }

  /** The reading of the trees at i and j cannot match p and q: they lie outside, or in the last row and the first
      column, or in the first row and the only column, and the way there is barred. */
  ghost predicate Unread(t: Trees, w: Guess, i: nat, j: nat, p: nat, q: nat)
    requires 0 < i <= |t.lld1| && 0 < j <= |t.lld2|
  {
    var l1, l2 := t.lld1[i - 1], t.lld2[j - 1];
    || !(l1 < p <= i && l2 < q <= j)
    || (p == i && q == l2 + 1 &&
        !(G(t, w, l1, p - 1, l2, q - 1) + t.ren(p - 1, q - 1) == G(t, w, l1, p, l2, q) && Straight(t, w, i, j, p, q)))
    || (p == l1 + 1 && q == j == l2 + 1 &&
        !(G(t, w, l1, p - 1, l2, q - 1) + t.ren(p - 1, q - 1) == G(t, w, l1, p, l2, q) && Straight(t, w, i, j, p, q)))
  }

  lemma PassedBy(t: Trees, w: Guess, i: nat, j: nat, p: nat, q: nat, row: nat, col: nat)
    requires 0 < i <= |t.lld1| && 0 < j <= |t.lld2| && t.lld1[i - 1] < row <= i && t.lld2[j - 1] < col <= j
    requires Unread(t, w, i, j, p, q) && Straight(t, w, i, j, row, col)
    requires var l1, l2 := t.lld1[i - 1], t.lld2[j - 1];
             G(t, w, l1, row - 1, l2, col - 1) + t.ren(row - 1, col - 1) == G(t, w, l1, row, l2, col)
    ensures (row, col) != (p, q)
  {
  }

  lemma StraightInsert(t: Trees, w: Guess, i: nat, j: nat, row: nat, col: nat)
    requires 0 < i <= |t.lld1| && 0 < j <= |t.lld2| && row <= i && 0 < col <= j && Straight(t, w, i, j, row, col)
    requires row == i ==> InsertedAt(t, w, i, j, col)
    ensures Straight(t, w, i, j, row, col - 1)
  {
  }

  lemma StraightDelete(t: Trees, w: Guess, i: nat, j: nat, row: nat, col: nat)
    requires 0 < i <= |t.lld1| && 0 < j <= |t.lld2| && 0 < row <= i && col <= j && Straight(t, w, i, j, row, col)
    requires col == j ==> DeletedAt(t, w, i, j, row)
    ensures Straight(t, w, i, j, row - 1, col)
  {
  }

  lemma StraightOff(t: Trees, w: Guess, i: nat, j: nat, row: nat, col: nat)
    requires 0 < i <= |t.lld1| && 0 < j <= |t.lld2| && row < i && col < j
    ensures Straight(t, w, i, j, row, col)
  {
  }

  /** The two subtrees do not hold p and q. */
  ghost predicate Avoids(t: Trees, e: (nat, nat), p: nat, q: nat) {
    !(Low(t.lld1, e.0) < p <= e.0 && Low(t.lld2, e.1) < q <= e.1)
  }

  ghost predicate AllAvoid(t: Trees, ps: Entries, p: nat, q: nat) {
    forall k :: 0 <= k < |ps| ==> Avoids(t, ps[k], p, q)
  }

  lemma PushAvoids(t: Trees, w: Guess, i: nat, j: nat, ps: Entries, p: nat, q: nat, row: nat, col: nat)
    requires 0 < i <= |t.lld1| && 0 < j <= |t.lld2| && t.lld1[i - 1] < row <= i && t.lld2[j - 1] < col <= j
    requires t.lld1[i - 1] <= t.lld1[row - 1] && t.lld2[j - 1] <= t.lld2[col - 1] && !Leftmost(t, i, j, row, col)
    requires Unread(t, w, i, j, p, q) && AllAvoid(t, ps, p, q)
    ensures AllAvoid(t, [(row, col)] + ps, p, q)
  {
  }

  lemma TailAvoids(t: Trees, ps: Entries, p: nat, q: nat)
    requires ps != [] && AllAvoid(t, ps, p, q)
    ensures Avoids(t, ps[0], p, q) && AllAvoid(t, ps[1..], p, q)
  {
  }

  // ---------------------------------------------------------------- reading

  /** What one step can do at (row, col), by the recurrence. */
  lemma Choices(t: Trees, w: Guess, i: nat, j: nat, row: nat, col: nat)
    requires Postorders(t) && 0 < i <= |t.lld1| && 0 < j <= |t.lld2|
    requires t.lld1[i - 1] <= row <= i && t.lld2[j - 1] <= col <= j
    ensures var l1, l2 := t.lld1[i - 1], t.lld2[j - 1];
            (row > l1 || col > l2) ==>
              || (row > l1 && G(t, w, l1, row, l2, col) == G(t, w, l1, row - 1, l2, col) + 1)
              || (col > l2 && G(t, w, l1, row, l2, col) == G(t, w, l1, row, l2, col - 1) + 1)
              || (row > l1 && col > l2 &&
                  if Leftmost(t, i, j, row, col) then
                    G(t, w, l1, row, l2, col) == G(t, w, l1, row - 1, l2, col - 1) + t.ren(row - 1, col - 1)
                  else
                    G(t, w, l1, row, l2, col) == G(t, w, l1, t.lld1[row - 1], l2, t.lld2[col - 1]) + w(row, col))
    ensures row > t.lld1[i - 1] ==> t.lld1[i - 1] <= t.lld1[row - 1] < row
    ensures col > t.lld2[j - 1] ==> t.lld2[j - 1] <= t.lld2[col - 1] < col
  {
    hide G;
    var l1, l2 := t.lld1[i - 1], t.lld2[j - 1];
    TreeCuts(t.lld1, i, row);
    TreeCuts(t.lld2, j, col);
    if row > l1 && col > l2 { Inside(t, w, l1, row, l2, col); } else { Edges(t, w, l1, row, l2, col); }
  }

  /** All tree distances of the two trees. */
  ghost predicate AllTrees(t: Trees, td: array2<int>)
    requires td.Length0 == |t.lld1| + 1 && td.Length1 == |t.lld2| + 1
    reads td
  {
    forall x: nat, y: nat :: 0 < x <= |t.lld1| && 0 < y <= |t.lld2| ==> td[x, y] == TD(t, x, y)
  }

  /** What a step means for the distance when the table is right. */
  lemma StepKnown(t: Trees, w: Guess, i: nat, j: nat, row: nat, col: nat, r: nat, c: nat)
    requires Postorders(t) && 0 < i <= |t.lld1| && 0 < j <= |t.lld2|
    requires t.lld1[i - 1] <= r <= row <= i && t.lld2[j - 1] <= c <= col <= j
    requires Right(t, w, t.lld1[i - 1], i, t.lld2[j - 1], j)
    ensures var l1, l2 := t.lld1[i - 1], t.lld2[j - 1];
            D(t, l1, row, l2, col) - D(t, l1, r, l2, c) == G(t, w, l1, row, l2, col) - G(t, w, l1, r, l2, c)
  {
    hide G, D, Right;
    FilledRight(t, w, i, j, row, col);
    FilledRight(t, w, i, j, r, c);
  }

  /** What the reading of the trees at i and j keeps: the nodes accounted for, the entries in shape, p and q apart. */
  ghost predicate Reading(t: Trees, w: Guess, known: bool, p: nat, q: nat, i: nat, j: nat,
                          es: Entries, ps: Entries, row: nat, col: nat)
    requires 0 < i <= |t.lld1| && 0 < j <= |t.lld2|
  {
    var l1, l2 := t.lld1[i - 1], t.lld2[j - 1];
    && l1 <= row <= i && l2 <= col <= j && AllInTrees(t, ps)
    && Accounted(t, known, es, ps, l1, row, l2, col) && Consistent(t, es, ps, Region(l1, row, l2, col))
    && Straight(t, w, i, j, row, col) && (p, q) !in es && AllAvoid(t, ps, p, q)
  }

  /** What a step may rely on. */
  ghost predicate Reads(t: Trees, w: Guess, known: bool, p: nat, q: nat, i: nat, j: nat) {
    && Postorders(t) && 0 < i <= |t.lld1| && 0 < j <= |t.lld2| && p > 0 && q > 0 && Unread(t, w, i, j, p, q)
    && (known ==> Right(t, w, t.lld1[i - 1], i, t.lld2[j - 1], j))
  }

  lemma MatchStep(t: Trees, w: Guess, known: bool, p: nat, q: nat, i: nat, j: nat,
                  es: Entries, ps: Entries, row: nat, col: nat)
    requires Reads(t, w, known, p, q, i, j) && Reading(t, w, known, p, q, i, j, es, ps, row, col)
    requires t.lld1[i - 1] < row && t.lld2[j - 1] < col && Leftmost(t, i, j, row, col)
    requires var l1, l2 := t.lld1[i - 1], t.lld2[j - 1];
             G(t, w, l1, row - 1, l2, col - 1) + t.ren(row - 1, col - 1) == G(t, w, l1, row, l2, col)
    ensures Reading(t, w, known, p, q, i, j, es + [(row, col)], ps, row - 1, col - 1)
  {
    hide D, G, Accounted, AllInTrees, Nested, Consistent, Straight, Unread, AllAvoid, Right;
    var l1, l2 := t.lld1[i - 1], t.lld2[j - 1];
    if known { StepKnown(t, w, i, j, row, col, row - 1, col - 1); }
    KeepEntry(t, known, es, ps, l1, row, l2, col, (row, col));
    KeepMatch(t, es, ps, Region(l1, row, l2, col));
    PassedBy(t, w, i, j, p, q, row, col);
    StraightOff(t, w, i, j, row - 1, col - 1);
  }

  lemma LaterStep(t: Trees, w: Guess, known: bool, p: nat, q: nat, i: nat, j: nat,
                  es: Entries, ps: Entries, row: nat, col: nat)
    requires Reads(t, w, known, p, q, i, j) && Reading(t, w, known, p, q, i, j, es, ps, row, col)
    requires t.lld1[i - 1] < row && t.lld2[j - 1] < col && !Leftmost(t, i, j, row, col)
    requires t.lld1[i - 1] <= t.lld1[row - 1] < row && t.lld2[j - 1] <= t.lld2[col - 1] < col
    requires var l1, l2 := t.lld1[i - 1], t.lld2[j - 1];
             G(t, w, l1, t.lld1[row - 1], l2, t.lld2[col - 1]) + w(row, col) == G(t, w, l1, row, l2, col)
    ensures Reading(t, w, known, p, q, i, j, es, [(row, col)] + ps, t.lld1[row - 1], t.lld2[col - 1])
    ensures PendingSize(t, [(row, col)] + ps) == PendingSize(t, ps) + (row - t.lld1[row - 1]) + (col - t.lld2[col - 1])
  {
    hide D, G, Accounted, AllInTrees, Nested, Consistent, Straight, Unread, AllAvoid, Right, PendingSize;
    var l1, l2 := t.lld1[i - 1], t.lld2[j - 1];
    if known {
      StepKnown(t, w, i, j, row, col, t.lld1[row - 1], t.lld2[col - 1]);
      RightAt(t, w, i, j, row, col);
    }
    KeepSubtree(t, known, es, ps, l1, row, l2, col);
    KeepLater(t, es, ps, Region(l1, row, l2, col));
    KeepAll(t, ps, (row, col));
    PushAvoids(t, w, i, j, ps, p, q, row, col);
    StraightOff(t, w, i, j, t.lld1[row - 1], t.lld2[col - 1]);
  }

  lemma DeleteStep(t: Trees, w: Guess, known: bool, p: nat, q: nat, i: nat, j: nat,
                   es: Entries, ps: Entries, row: nat, col: nat)
    requires Reads(t, w, known, p, q, i, j) && Reading(t, w, known, p, q, i, j, es, ps, row, col)
    requires t.lld1[i - 1] < row && (col == j ==> DeletedAt(t, w, i, j, row))
    requires var l1, l2 := t.lld1[i - 1], t.lld2[j - 1];
             G(t, w, l1, row - 1, l2, col) + 1 == G(t, w, l1, row, l2, col)
    ensures Reading(t, w, known, p, q, i, j, es + [(row, 0)], ps, row - 1, col)
  {
    hide D, G, Accounted, AllInTrees, Nested, Consistent, Straight, Unread, AllAvoid, Right, DeletedAt;
    var l1, l2 := t.lld1[i - 1], t.lld2[j - 1];
    if known { StepKnown(t, w, i, j, row, col, row - 1, col); }
    KeepEntry(t, known, es, ps, l1, row, l2, col, (row, 0));
    KeepSingle(t, es, ps, Region(l1, row, l2, col), (row, 0), Region(l1, row - 1, l2, col));
    StraightDelete(t, w, i, j, row, col);
  }

  lemma InsertStep(t: Trees, w: Guess, known: bool, p: nat, q: nat, i: nat, j: nat,
                   es: Entries, ps: Entries, row: nat, col: nat)
    requires Reads(t, w, known, p, q, i, j) && Reading(t, w, known, p, q, i, j, es, ps, row, col)
    requires t.lld2[j - 1] < col && (row == i ==> InsertedAt(t, w, i, j, col))
    requires var l1, l2 := t.lld1[i - 1], t.lld2[j - 1];
             G(t, w, l1, row, l2, col - 1) + 1 == G(t, w, l1, row, l2, col)
    ensures Reading(t, w, known, p, q, i, j, es + [(0, col)], ps, row, col - 1)
  {
    hide D, G, Accounted, AllInTrees, Nested, Consistent, Straight, Unread, AllAvoid, Right, InsertedAt;
    var l1, l2 := t.lld1[i - 1], t.lld2[j - 1];
    if known { StepKnown(t, w, i, j, row, col, row, col - 1); }
    KeepEntry(t, known, es, ps, l1, row, l2, col, (0, col));
    KeepSingle(t, es, ps, Region(l1, row, l2, col), (0, col), Region(l1, row, l2, col - 1));
    StraightInsert(t, w, i, j, row, col);
  }

  /** One pair of subtrees: its own entries, and the pairs of subtrees to read next put before the others. */
  method ReadTree(t: Trees, lastRow: nat, lastCol: nat, td: array2<int>, fd: array2<int>, es0: Entries, ps0: Entries,
                  ghost w: Guess, ghost known: bool, ghost p: nat, ghost q: nat)
    returns (es: Entries, ps: Entries)
    requires Ready(t, td, fd) && Reads(t, w, known, p, q, lastRow, lastCol)
    requires ForestFilled(t, w, fd, lastRow, lastCol) && TreesFilled(t, w, td, lastRow, lastCol) && AllInTrees(t, ps0)
    requires Accounted(t, known, es0, ps0, t.lld1[lastRow - 1], lastRow, t.lld2[lastCol - 1], lastCol)
    requires Consistent(t, es0, ps0, Region(t.lld1[lastRow - 1], lastRow, t.lld2[lastCol - 1], lastCol))
    requires (p, q) !in es0 && AllAvoid(t, ps0, p, q)
    ensures AllInTrees(t, ps) && Accounted(t, known, es, ps, 0, 0, 0, 0) && Consistent(t, es, ps, NOTHING)
    ensures PendingSize(t, ps)
          < PendingSize(t, ps0) + (lastRow - t.lld1[lastRow - 1]) + (lastCol - t.lld2[lastCol - 1])
    ensures (p, q) !in es && AllAvoid(t, ps, p, q)
  {
    hide D, G, Accounted, AllInTrees, PendingSize, Nested, Consistent, Straight, Unread, AllAvoid, Right, Reading;
    var firstRow, firstCol := t.lld1[lastRow - 1], t.lld2[lastCol - 1];
    var row, col := lastRow, lastCol;
    es, ps := es0, ps0;
    ghost var size := PendingSize(t, ps0) + (lastRow - firstRow) + (lastCol - firstCol);
    ReadingStart(t, w, known, p, q, lastRow, lastCol, es, ps);
    while row > firstRow || col > firstCol
      invariant firstRow <= row <= lastRow && firstCol <= col <= lastCol
      invariant Reading(t, w, known, p, q, lastRow, lastCol, es, ps, row, col)
      invariant PendingSize(t, ps) + (row - firstRow) + (col - firstCol) <= size
      invariant row != lastRow || col != lastCol ==> PendingSize(t, ps) + (row - firstRow) + (col - firstCol) < size
      decreases row + col
    {
      Choices(t, w, lastRow, lastCol, row, col);
      if row > firstRow && col > firstCol {
        if t.lld1[row - 1] == t.lld1[lastRow - 1] && t.lld2[col - 1] == t.lld2[lastCol - 1] {
          if fd[row - 1, col - 1] + t.ren(row - 1, col - 1) == fd[row, col] {
            MatchStep(t, w, known, p, q, lastRow, lastCol, es, ps, row, col);
            es := es + [(row, col)];
            row, col := row - 1, col - 1;
            continue;
          }
        } else {
          if fd[t.lld1[row - 1], t.lld2[col - 1]] + td[row, col] == fd[row, col] {
            LaterStep(t, w, known, p, q, lastRow, lastCol, es, ps, row, col);
            ps := [(row, col)] + ps;
            row, col := t.lld1[row - 1], t.lld2[col - 1];
            continue;
          }
        }
      }
      if row > firstRow && fd[row - 1, col] + 1 == fd[row, col] {
        DeleteStep(t, w, known, p, q, lastRow, lastCol, es, ps, row, col);
        es := es + [(row, 0)];
        row := row - 1;
      } else if col > firstCol && fd[row, col - 1] + 1 == fd[row, col] {
        InsertStep(t, w, known, p, q, lastRow, lastCol, es, ps, row, col);
        es := es + [(0, col)];
        col := col - 1;
      } else {
        assert false;
        break;
      }
    }
    ReadingDone(t, w, known, p, q, lastRow, lastCol, es, ps);
  }

  lemma ReadingDone(t: Trees, w: Guess, known: bool, p: nat, q: nat, i: nat, j: nat, es: Entries, ps: Entries)
    requires 0 < i <= |t.lld1| && 0 < j <= |t.lld2|
    requires Reading(t, w, known, p, q, i, j, es, ps, t.lld1[i - 1], t.lld2[j - 1])
    ensures AllInTrees(t, ps) && Accounted(t, known, es, ps, 0, 0, 0, 0) && Consistent(t, es, ps, NOTHING)
    ensures (p, q) !in es && AllAvoid(t, ps, p, q)
  {
    hide Accounted, Consistent;
    SubtreeDone(t, known, es, ps, t.lld1[i - 1], t.lld2[j - 1]);
    NothingLeft(t, es, ps, Region(t.lld1[i - 1], t.lld1[i - 1], t.lld2[j - 1], t.lld2[j - 1]));
  }

  lemma ReadingStart(t: Trees, w: Guess, known: bool, p: nat, q: nat, i: nat, j: nat, es: Entries, ps: Entries)
    requires Reads(t, w, known, p, q, i, j) && AllInTrees(t, ps)
    requires Accounted(t, known, es, ps, t.lld1[i - 1], i, t.lld2[j - 1], j)
    requires Consistent(t, es, ps, Region(t.lld1[i - 1], i, t.lld2[j - 1], j))
    requires (p, q) !in es && AllAvoid(t, ps, p, q)
    ensures Reading(t, w, known, p, q, i, j, es, ps, i, j)
  {
    hide Accounted, Consistent, AllInTrees, AllAvoid, InsertedAt, DeletedAt;
  }

  lemma RightAt(t: Trees, w: Guess, i: nat, j: nat, x: nat, y: nat)
    requires 0 < i <= |t.lld1| && 0 < j <= |t.lld2| && t.lld1[i - 1] < x <= i && t.lld2[j - 1] < y <= j
    requires Right(t, w, t.lld1[i - 1], i, t.lld2[j - 1], j) && !Leftmost(t, i, j, x, y)
    ensures w(x, y) == TD(t, x, y)
  {
  }

  /** The entries mention every node of both trees exactly once. */
  ghost predicate Complete(t: Trees, es: Entries) {
    && (forall x: nat :: 0 < x ==> RowCount(es, x) == Within(0, |t.lld1|, x))
    && (forall x: nat :: 0 < x ==> ColCount(es, x) == Within(0, |t.lld2|, x))
    && Nodes(es) == |t.lld1| + |t.lld2|
  }

  /** No mapping between the two trees that keeps order and ancestry costs less than the entries. */
  ghost predicate Cheapest(t: Trees, es: Entries) {
    forall ms: TreeMappings.Mapped :: TreeMappings.Valid(t, ms, 0, |t.lld1|, 0, |t.lld2|) ==>
      EntriesCost(t, es) <= TreeMappings.Cost(t, ms, |t.lld1|, |t.lld2|)
  }

  lemma DistanceCheapest(t: Trees, es: Entries)
    requires EntriesCost(t, es) == D(t, 0, |t.lld1|, 0, |t.lld2|)
    requires Cut(t.lld1, 0, |t.lld1|) && Cut(t.lld2, 0, |t.lld2|) && Nested(t.lld1) && Nested(t.lld2)
    ensures Cheapest(t, es)
  {
    forall ms: TreeMappings.Mapped | TreeMappings.Valid(t, ms, 0, |t.lld1|, 0, |t.lld2|)
      ensures EntriesCost(t, es) <= TreeMappings.Cost(t, ms, |t.lld1|, |t.lld2|)
    {
      TreeMappings.MappingBound(t, ms, 0, |t.lld1|, 0, |t.lld2|);
    }
  }

  lemma AccountedComplete(t: Trees, known: bool, es: Entries)
    requires Accounted(t, known, es, [], 0, 0, 0, 0)
    ensures Complete(t, Reversed(es)) && forall e :: e in Reversed(es) <==> e in es
    ensures known ==> EntriesCost(t, Reversed(es)) == D(t, 0, |t.lld1|, 0, |t.lld2|)
  {
    Itself(t, 0, 0);
    forall x: nat | x > 0
      ensures RowCount(Reversed(es), x) == RowCount(es, x) && ColCount(Reversed(es), x) == ColCount(es, x)
    {
      Backwards(t, es, x);
    }
    Backwards(t, es, 0);
  }

  /** The table as it stands, as a guess. */
  lemma Snapshot(td: array2<int>) returns (w: Guess)
    ensures forall x: nat, y: nat :: x < td.Length0 && y < td.Length1 ==> w(x, y) == td[x, y]
  {
    var rows := seq(td.Length0, x requires 0 <= x < td.Length0 reads td =>
                  seq(td.Length1, y requires 0 <= y < td.Length1 reads td => td[x, y]));
    w := (x: nat, y: nat) => if x < |rows| && y < |rows[x]| then rows[x][y] else 0;
  }

  lemma RightTable(t: Trees, w: Guess, td: array2<int>, i: nat, j: nat)
    requires td.Length0 == |t.lld1| + 1 && td.Length1 == |t.lld2| + 1 && 0 < i <= |t.lld1| && 0 < j <= |t.lld2|
    requires AllTrees(t, td) && forall x: nat, y: nat :: x < td.Length0 && y < td.Length1 ==> w(x, y) == td[x, y]
    ensures Right(t, w, t.lld1[i - 1], i, t.lld2[j - 1], j)
  {
    hide TD;
  }

  /** From a right guess the step leaves right tree distances. */
  lemma FilledTrees(t: Trees, w: Guess, td: array2<int>, fd: array2<int>, i: nat, j: nat)
    requires Ready(t, td, fd) && 0 < i <= |t.lld1| && 0 < j <= |t.lld2| && TreesFilled(t, w, td, i, j)
    requires Right(t, w, t.lld1[i - 1], i, t.lld2[j - 1], j)
    ensures forall x: nat, y: nat :: t.lld1[i - 1] < x <= i && t.lld2[j - 1] < y <= j ==> td[x, y] == TD(t, x, y)
  {
    hide G, D;
    forall x: nat, y: nat | t.lld1[i - 1] < x <= i && t.lld2[j - 1] < y <= j ensures td[x, y] == TD(t, x, y) {
      FilledRight(t, w, i, j, x, y);
    }
  }

  /**
    * The mapping read back from any table: it never gets stuck, mentions every node of both trees exactly once, and
    * matches them in the same order and below the same matched nodes. When the tree distances off the leftmost paths of
    * the two whole trees are right, no such mapping costs less. It misses any match that the first reading is barred
    * from.
    */
  method Backtrack(t: Trees, td: array2<int>, fd: array2<int>, ghost w0: Guess, ghost p: nat, ghost q: nat)
    returns (editMapping: Entries)
    requires Ready(t, td, fd) && |t.lld1| > 0 && |t.lld2| > 0
    requires t.lld1[|t.lld1| - 1] == 0 && t.lld2[|t.lld2| - 1] == 0
    requires TreesKnown(t, w0, td, |t.lld1|, |t.lld2|, 0, 0)
    requires p > 0 && q > 0 && Unread(t, w0, |t.lld1|, |t.lld2|, p, q)
    modifies td, fd
    ensures Complete(t, editMapping) && Shaped(t, editMapping) && (p, q) !in editMapping
    ensures Right(t, w0, 0, |t.lld1|, 0, |t.lld2|) ==> Cheapest(t, editMapping)
  {
    hide D, G, Accounted, PendingSize, Consistent, Shaped, Complete, Cheapest, Right, Unread, AllAvoid, Nested;
    editMapping := [];
    var treePairs: Entries := [(|t.lld1|, |t.lld2|)];
    ghost var known := Right(t, w0, 0, |t.lld1|, 0, |t.lld2|);
    WholeTrees(t, known);
    StartConsistent(t, treePairs[0]);
    ghost var first := true;
    while |treePairs| > 0
      invariant AllInTrees(t, treePairs) && Accounted(t, known, editMapping, treePairs, 0, 0, 0, 0)
      invariant Consistent(t, editMapping, treePairs, NOTHING) && (p, q) !in editMapping
      invariant if first then treePairs == [(|t.lld1|, |t.lld2|)] && TreesKnown(t, w0, td, |t.lld1|, |t.lld2|, 0, 0)
                else (known ==> AllTrees(t, td)) && AllAvoid(t, treePairs, p, q)
      decreases PendingSize(t, treePairs)
    {
      var lastRow, lastCol := treePairs[0].0, treePairs[0].1;
      PendingPositive(t, treePairs);
      AllTail(t, treePairs);
      TakeSubtree(t, known, editMapping, treePairs);
      TakeNext(t, editMapping, treePairs, NOTHING);
      ghost var w := w0;
      if first {
        NoneAvoid(t, p, q);
      } else {
        w := Snapshot(td);
        if known { RightTable(t, w, td, lastRow, lastCol); }
        TailAvoids(t, treePairs, p, q);
        AvoidsUnread(t, w, lastRow, lastCol, p, q);
      }
      treePairs := treePairs[1..];
      ForestDist(t, lastRow, lastCol, td, fd, w);
      if known { FilledTrees(t, w, td, fd, lastRow, lastCol); }
      first := false;
      editMapping, treePairs := ReadTree(t, lastRow, lastCol, td, fd, editMapping, treePairs, w, known, p, q);
      PendingPositive(t, treePairs);
    }
    AccountedComplete(t, known, editMapping);
    IsShaped(t, editMapping, treePairs, NOTHING);
    ShapedBackwards(t, editMapping);
    editMapping := Reversed(editMapping);
    if known {
      WholeCut(t, td, fd);
      DistanceCheapest(t, editMapping);
    }
  }

  lemma WholeCut(t: Trees, td: array2<int>, fd: array2<int>)
    requires Ready(t, td, fd)
    ensures Cut(t.lld1, 0, |t.lld1|) && Cut(t.lld2, 0, |t.lld2|) && Nested(t.lld1) && Nested(t.lld2)
  {
  }

  lemma NoneAvoid(t: Trees, p: nat, q: nat)
    ensures AllAvoid(t, [(|t.lld1|, |t.lld2|)][1..], p, q)
  {
  }

  lemma AvoidsUnread(t: Trees, w: Guess, i: nat, j: nat, p: nat, q: nat)
    requires 0 < i <= |t.lld1| && 0 < j <= |t.lld2| && Avoids(t, (i, j), p, q)
    ensures Unread(t, w, i, j, p, q)
  {
  }

  lemma WholeTrees(t: Trees, known: bool)
    requires |t.lld1| > 0 && |t.lld2| > 0 && t.lld1[|t.lld1| - 1] == 0 && t.lld2[|t.lld2| - 1] == 0
    ensures AllInTrees(t, [(|t.lld1|, |t.lld2|)]) && Accounted(t, known, [], [(|t.lld1|, |t.lld2|)], 0, 0, 0, 0)
  {
    Itself(t, 0, 0);
    hide D;
    var ps: Entries := [(|t.lld1|, |t.lld2|)];
    assert ps[1..] == [];
    assert PendingCost(t, ps) == D(t, 0, |t.lld1|, 0, |t.lld2|);
    assert PendingSize(t, ps) == |t.lld1| + |t.lld2|;
    forall x: nat | x > 0
      ensures PendingRow(t, ps, x) == Within(0, |t.lld1|, x) && PendingCol(t, ps, x) == Within(0, |t.lld2|, x)
    {
      assert PendingRow(t, ps[1..], x) == 0 && PendingCol(t, ps[1..], x) == 0;
    }
  }
}
