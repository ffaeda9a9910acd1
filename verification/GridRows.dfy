/** The rows of the side-by-side grid, and what it means that they list every line. */
module GridRows {
  import opened Gotoh

  /** One row of the grid: a source line and a target line, -1 for a filler. */
  datatype Row = Row(left: int, right: int)

  /** The lines from lo up to hi, in order. */
  function Lines(lo: int, hi: int): seq<int>
    decreases hi - lo
  {
    if lo >= hi then [] else [lo] + Lines(lo + 1, hi)
  }

  lemma {:induction false} LinesSplit(lo: int, mid: int, hi: int)
    requires lo <= mid <= hi
    ensures Lines(lo, hi) == Lines(lo, mid) + Lines(mid, hi)
    decreases mid - lo
  {
    if lo < mid { LinesSplit(lo + 1, mid, hi); }
  }

  /** The source lines the rows show, in row order. */
  function Lefts(rows: seq<Row>): seq<int> {
    if rows == [] then [] else (if rows[0].left == -1 then [] else [rows[0].left]) + Lefts(rows[1..])
  }

  function Rights(rows: seq<Row>): seq<int> {
    if rows == [] then [] else (if rows[0].right == -1 then [] else [rows[0].right]) + Rights(rows[1..])
  }

  /** The rows list the source lines s0..s1 and the target lines d0..d1, each once and in order, without an empty
      row. */
  ghost predicate Covers(rows: seq<Row>, s0: nat, s1: nat, d0: nat, d1: nat) {
    && s0 <= s1 && d0 <= d1
    && Lefts(rows) == Lines(s0, s1) && Rights(rows) == Lines(d0, d1)
    && Row(-1, -1) !in rows
  }

  lemma {:induction false} LeftsConcat(a: seq<Row>, b: seq<Row>)
    ensures Lefts(a + b) == Lefts(a) + Lefts(b)
  {
    if a == [] {
      assert a + b == b;
    } else {
      assert (a + b)[1..] == a[1..] + b;
      LeftsConcat(a[1..], b);
      var first := if a[0].left == -1 then [] else [a[0].left];
      assert Lefts(a + b) == first + (Lefts(a[1..]) + Lefts(b));
    }
  }

  lemma {:induction false} RightsConcat(a: seq<Row>, b: seq<Row>)
    ensures Rights(a + b) == Rights(a) + Rights(b)
  {
    if a == [] {
      assert a + b == b;
    } else {
      assert (a + b)[1..] == a[1..] + b;
      RightsConcat(a[1..], b);
      var first := if a[0].right == -1 then [] else [a[0].right];
      assert Rights(a + b) == first + (Rights(a[1..]) + Rights(b));
    }
  }

  lemma CoversConcat(a: seq<Row>, b: seq<Row>, s0: nat, s1: nat, s2: nat, d0: nat, d1: nat, d2: nat)
    requires Covers(a, s0, s1, d0, d1) && Covers(b, s1, s2, d1, d2)
    ensures Covers(a + b, s0, s2, d0, d2)
  {
    LeftsConcat(a, b);
    RightsConcat(a, b);
    LinesSplit(s0, s1, s2);
    LinesSplit(d0, d1, d2);
  }

  /** The row that op makes of the lines s and d. */
  function RowOf(op: Op, s: int, d: int): Row {
    match op
    case Pair => Row(s, d)
    case Del => Row(s, -1)
    case Ins => Row(-1, d)
  }

  lemma CoversRow(op: Op, s: nat, d: nat)
    ensures Covers([RowOf(op, s, d)], s, Down(op, s), d, Right(op, d))
  {
    assert [RowOf(op, s, d)][1..] == [];
    assert Lines(s, s) == [] && Lines(d, d) == [] && Lines(s + 1, s + 1) == [] && Lines(d + 1, d + 1) == [];
  }

  /** The grid rows of an alignment that starts at source line s and target line d. */
  function Emitted(ops: seq<Op>, s: nat, d: nat): seq<Row> {
    if ops == [] then [] else [RowOf(ops[0], s, d)] + Emitted(ops[1..], Down(ops[0], s), Right(ops[0], d))
  }

  /** An alignment of the gap lists each of its lines once. */
  lemma {:induction false} EmittedCovers(ops: seq<Op>, s: nat, d: nat)
    ensures Covers(Emitted(ops, s, d), s, s + Rows(ops), d, d + Cols(ops))
  {
    if ops != [] {
      var s1, d1 := Down(ops[0], s), Right(ops[0], d);
      EmittedCovers(ops[1..], s1, d1);
      CoversRow(ops[0], s, d);
      CoversConcat([RowOf(ops[0], s, d)], Emitted(ops[1..], s1, d1), s, s1, s + Rows(ops), d, d1, d + Cols(ops));
    }
  }
}
