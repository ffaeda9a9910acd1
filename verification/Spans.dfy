/** Resolving the overlapping spans of one line, and looking the result up column by column. */
module Spans {
  import opened Lists

  datatype Kind = Delete | Insert | Update | Move | MoveUpdate | Unknown

  /** A range of columns, what to paint it as, and the action behind it. */
  datatype Span = Span(start: int, end: int, action: Kind, ref: nat, color: int)

  /** What the partition asks of actions: the length of the node, the color of a move, whether it is a comment. */
  datatype Painter = Painter(nodeLen: nat -> int, moveColor: nat -> int, isComment: nat -> bool)

  function AstLength(p: Painter, sp: Span): int {
    if p.nodeLen(sp.ref) > 0 then p.nodeLen(sp.ref) else sp.end - sp.start
  }

  function Priority(k: Kind): int {
    match k
    case MoveUpdate => 5
    case Update => 4
    case Move => 3
    case Insert => 2
    case Delete => 1
    case Unknown => 0
  }

  /** Shorter in the tree, then narrower, then of the higher priority. */
  predicate Better(p: Painter, a: Span, b: Span) {
    || AstLength(p, a) < AstLength(p, b)
    || (AstLength(p, a) == AstLength(p, b) && a.end - a.start < b.end - b.start)
    || (AstLength(p, a) == AstLength(p, b) && a.end - a.start == b.end - b.start
        && Priority(a.action) > Priority(b.action))
  }

  /** The span covers all columns from lo up to hi. */
  predicate Spreads(sp: Span, lo: int, hi: int) {
    sp.start <= lo && sp.end >= hi
  }

  predicate Covers(sp: Span, c: int) {
    Spreads(sp, c, c + 1)
  }

  /** The span that decides the columns from lo up to hi, of the first n. */
  function Winner(p: Painter, spans: seq<Span>, n: nat, lo: int, hi: int): Option<Span> {
    if n == 0 || n > |spans| then None
    else
      var before, sp := Winner(p, spans, n - 1, lo, hi), spans[n - 1];
      if Spreads(sp, lo, hi) && (before == None || Better(p, sp, before.value)) then Some(sp) else before
  }

  /** The shortest move over the columns, of the first n. */
  function MoveOver(p: Painter, spans: seq<Span>, n: nat, lo: int, hi: int): Option<Span> {
    if n == 0 || n > |spans| then None
    else
      var before, sp := MoveOver(p, spans, n - 1, lo, hi), spans[n - 1];
      if Spreads(sp, lo, hi) && sp.action == Move && (before == None || AstLength(p, sp) < AstLength(p, before.value))
      then Some(sp) else before
  }

  /** The winner covers the columns and no span that covers them is better; it is one of the spans. */
  lemma {:induction false} WinnerIsLeast(p: Painter, spans: seq<Span>, n: nat, lo: int, hi: int)
    requires n <= |spans|
    ensures var w := Winner(p, spans, n, lo, hi);
            if w == None then forall k :: 0 <= k < n ==> !Spreads(spans[k], lo, hi)
            else w.value in spans && Spreads(w.value, lo, hi) &&
                 forall k :: 0 <= k < n && Spreads(spans[k], lo, hi) ==> !Better(p, spans[k], w.value)
  {
    if n > 0 { WinnerIsLeast(p, spans, n - 1, lo, hi); }
  }

  /** The move over the columns is one of the spans, a move that covers them, and no other such move is shorter in the
      tree; there is none only if no move covers them. */
  lemma {:induction false} MoveOverIsLeast(p: Painter, spans: seq<Span>, n: nat, lo: int, hi: int)
    requires n <= |spans|
    ensures var m := MoveOver(p, spans, n, lo, hi);
            if m == None then forall k :: 0 <= k < n && Spreads(spans[k], lo, hi) ==> spans[k].action != Move
            else m.value in spans && m.value.action == Move && Spreads(m.value, lo, hi) &&
                 forall k :: 0 <= k < n && Spreads(spans[k], lo, hi) && spans[k].action == Move ==>
                   AstLength(p, m.value) <= AstLength(p, spans[k])
  {
    if n > 0 { MoveOverIsLeast(p, spans, n - 1, lo, hi); }
  }

  /** What to paint where w wins and m is the move over it. */
  function Paint(p: Painter, w: Span, m: Option<Span>): (Kind, int) {
    if w.action == Move then (Move, p.moveColor(w.ref))
    else if m.Some? && (w.action == Update || (p.isComment(w.ref) && (w.action == Insert || w.action == Delete))) then
      (MoveUpdate, p.moveColor(m.value.ref))
    else (w.action, 0)
  }

  /** What column c is to be painted as. */
  function Decided(p: Painter, spans: seq<Span>, c: int): Option<(Kind, int)> {
    var w := Winner(p, spans, |spans|, c, c + 1);
    if w == None then None else Some(Paint(p, w.value, MoveOver(p, spans, |spans|, c, c + 1)))
  }

  /** No span starts or ends between lo and hi. */
  ghost predicate NoBoundary(spans: seq<Span>, lo: int, hi: int) {
    forall k :: 0 <= k < |spans| ==>
      (spans[k].start <= lo || spans[k].start >= hi) && (spans[k].end <= lo || spans[k].end >= hi)
  }

  /** Between two neighbouring boundaries every column is decided alike. */
  lemma {:induction false} SegmentDecides(p: Painter, spans: seq<Span>, n: nat, lo: int, hi: int, c: int)
    requires NoBoundary(spans, lo, hi) && lo <= c < hi && n <= |spans|
    ensures Winner(p, spans, n, lo, hi) == Winner(p, spans, n, c, c + 1)
    ensures MoveOver(p, spans, n, lo, hi) == MoveOver(p, spans, n, c, c + 1)
  {
    if n > 0 { SegmentDecides(p, spans, n - 1, lo, hi, c); }
  }

  // ---------------------------------------------------------------- what the result promises

  ghost predicate Shown(out: seq<Span>, c: int) {
    exists k :: 0 <= k < |out| && Covers(out[k], c)
  }

  ghost predicate Apart(a: Span, b: Span) {
    a.end <= b.start || b.end <= a.start
  }

  ghost predicate Disjoint(out: seq<Span>) {
    forall k, l :: 0 <= k < l < |out| ==> Apart(out[k], out[l])
  }

  ghost predicate Proper(out: seq<Span>) {
    forall k :: 0 <= k < |out| ==> out[k].start < out[k].end
  }

  predicate Overlap(a: Span, b: Span) {
    a.start < b.end && b.start < a.end
  }

  ghost predicate Overlapping(spans: seq<Span>) {
    exists k, l :: 0 <= k < l < |spans| && Overlap(spans[k], spans[l])
  }

  /** Column c is painted as decided: every color where spans overlap, the color of moves everywhere. */
  ghost predicate PaintedRight(p: Painter, spans: seq<Span>, r: Span, c: int) {
    var d := Decided(p, spans, c);
    d.Some? && r.action == d.value.0 && (r.action == Move || Overlapping(spans) ==> r.color == d.value.1)
  }

  /** Only moves and what moves along have a color of their own. */
  lemma PlainColor(p: Painter, spans: seq<Span>, c: int)
    ensures var d := Decided(p, spans, c); d.Some? && d.value.0 != Move && d.value.0 != MoveUpdate ==> d.value.1 == 0
  {
  }

  /** Disjoint spans over exactly the columns of the input, each column painted as decided. */
  ghost predicate Resolves(p: Painter, spans: seq<Span>, out: seq<Span>) {
    && Proper(out) && Disjoint(out)
    && (forall c :: Shown(out, c) <==> Shown(spans, c))
    && forall k, c :: 0 <= k < |out| && Covers(out[k], c) ==> PaintedRight(p, spans, out[k], c)
  }

  // ---------------------------------------------------------------- the route without overlaps

  method HasOverlap(spans: seq<Span>) returns (r: bool)
    ensures r <==> Overlapping(spans)
    ensures !r ==> Disjoint(spans)
  {
    for i := 0 to |spans|
      invariant forall k, l :: 0 <= k < i && k < l < |spans| ==> Apart(spans[k], spans[l])
    {
      for j := i + 1 to |spans|
        invariant forall l :: i < l < j ==> Apart(spans[i], spans[l])
      {
        if Overlap(spans[i], spans[j]) { return true; }
      }
    }
    return false;
  }

  /** The color of a move filled in. */
  function Colored(p: Painter, sp: Span): Span {
    if sp.action == Move then sp.(color := p.moveColor(sp.ref)) else sp
  }

  /** A column that only one of the first n spans covers is decided by it. */
  lemma {:induction false} OnlyOne(p: Painter, spans: seq<Span>, n: nat, c: int, k: nat)
    requires n <= |spans| && k < |spans| && Covers(spans[k], c)
    requires forall l :: 0 <= l < |spans| && l != k ==> !Covers(spans[l], c)
    ensures Winner(p, spans, n, c, c + 1) == if k < n then Some(spans[k]) else None
    ensures MoveOver(p, spans, n, c, c + 1) == if k < n && spans[k].action == Move then Some(spans[k]) else None
  {
    if n > 0 { OnlyOne(p, spans, n - 1, c, k); }
  }

  lemma ColoredResolves(p: Painter, spans: seq<Span>, out: seq<Span>)
    requires Proper(spans) && Disjoint(spans) && !Overlapping(spans) && |out| == |spans|
    requires forall k :: 0 <= k < |spans| ==> out[k] == Colored(p, spans[k])
    ensures Resolves(p, spans, out)
  {
    forall c ensures Shown(out, c) <==> Shown(spans, c) {
      if Shown(spans, c) {
        var k :| 0 <= k < |spans| && Covers(spans[k], c);
        assert Covers(out[k], c);
      }
      if Shown(out, c) {
        var k :| 0 <= k < |out| && Covers(out[k], c);
        assert Covers(spans[k], c);
      }
    }
    forall k, c | 0 <= k < |out| && Covers(out[k], c) ensures PaintedRight(p, spans, out[k], c) {
      assert forall l :: 0 <= l < |spans| && l != k ==> Apart(spans[l], spans[k]);
      OnlyOne(p, spans, |spans|, c, k);
    }
  }

  // ---------------------------------------------------------------- the boundaries

  ghost predicate Ascending(s: seq<int>) {
    forall k, l :: 0 <= k < l < |s| ==> s[k] < s[l]
  }

  function InsertBound(x: int, s: seq<int>): seq<int> {
    if s == [] then [x]
    else if x < s[0] then [x] + s
    else if x == s[0] then s
    else [s[0]] + InsertBound(x, s[1..])
  }

  lemma Cons(h: int, s: seq<int>)
    requires Ascending(s) && forall y :: y in s ==> h < y
    ensures Ascending([h] + s) && forall y :: y in [h] + s <==> y == h || y in s
  {
    assert forall k :: 0 <= k < |s| ==> s[k] in s;
  }

  lemma {:induction false} InsertBoundRight(x: int, s: seq<int>)
    requires Ascending(s)
    ensures Ascending(InsertBound(x, s)) && forall y :: y in InsertBound(x, s) <==> y == x || y in s
  {
    if s != [] {
      assert s == [s[0]] + s[1..] && forall y :: y in s[1..] ==> s[0] < y;
      if x < s[0] {
        Cons(x, s);
      } else if x > s[0] {
        InsertBoundRight(x, s[1..]);
        Cons(s[0], InsertBound(x, s[1..]));
      }
    }
  }

  /** All starts and ends, sorted, each once. */
  function Bounds(spans: seq<Span>): seq<int> {
    if spans == [] then [] else InsertBound(spans[0].start, InsertBound(spans[0].end, Bounds(spans[1..])))
  }

  lemma {:induction false} BoundsRight(spans: seq<Span>)
    ensures Ascending(Bounds(spans))
    ensures forall k :: 0 <= k < |spans| ==> spans[k].start in Bounds(spans) && spans[k].end in Bounds(spans)
  {
    if spans != [] {
      BoundsRight(spans[1..]);
      InsertBoundRight(spans[0].end, Bounds(spans[1..]));
      InsertBoundRight(spans[0].start, InsertBound(spans[0].end, Bounds(spans[1..])));
      hide InsertBound;
      forall k | 0 <= k < |spans| ensures spans[k].start in Bounds(spans) && spans[k].end in Bounds(spans) {
        if k > 0 { assert spans[k] == spans[1..][k - 1]; }
      }
    }
  }

  lemma NeighbourBounds(spans: seq<Span>, b: seq<int>, i: nat)
    requires Ascending(b) && i + 1 < |b|
    requires forall k :: 0 <= k < |spans| ==> spans[k].start in b && spans[k].end in b
    ensures NoBoundary(spans, b[i], b[i + 1])
  {
    forall x | x in b ensures x <= b[i] || x >= b[i + 1] {
      var k :| 0 <= k < |b| && b[k] == x;
      assert k <= i || k >= i + 1;
    }
  }

  // ---------------------------------------------------------------- the sweep

  /** Spans in order, each ending before the next one starts. */
  ghost predicate Sequential(out: seq<Span>) {
    Proper(out) && forall k, l :: 0 <= k < l < |out| ==> out[k].end <= out[l].start
  }

  /** The columns before hi are swept: they are shown if and only if an input span covers them, and painted as
      decided. */
  ghost predicate Swept(p: Painter, spans: seq<Span>, out: seq<Span>, hi: int) {
    && Sequential(out) && (out != [] ==> out[|out| - 1].end <= hi)
    && (forall c :: c < hi ==> (Shown(out, c) <==> Shown(spans, c)))
    && forall k, c :: 0 <= k < |out| && Covers(out[k], c) ==> PaintedRight(p, spans, out[k], c)
  }

  lemma ShownPush(out: seq<Span>, sp: Span, c: int)
    ensures Shown(out + [sp], c) <==> Shown(out, c) || Covers(sp, c)
  {
    var more := out + [sp];
    if Shown(out, c) {
      var k :| 0 <= k < |out| && Covers(out[k], c);
      assert Covers(more[k], c);
    }
    if Covers(sp, c) { assert Covers(more[|out|], c); }
    if Shown(more, c) && !Covers(sp, c) {
      var k :| 0 <= k < |more| && Covers(more[k], c);
      assert Covers(out[k], c);
    }
  }

  /** A segment with a winner is swept by a span for it. */
  lemma SweepSegment(p: Painter, spans: seq<Span>, out: seq<Span>, lo: int, hi: int)
    requires Swept(p, spans, out, lo) && lo < hi && NoBoundary(spans, lo, hi)
    ensures var w := Winner(p, spans, |spans|, lo, hi);
            if w == None then Swept(p, spans, out, hi)
            else
              var paint := Paint(p, w.value, MoveOver(p, spans, |spans|, lo, hi));
              Swept(p, spans, out + [Span(lo, hi, paint.0, w.value.ref, paint.1)], hi)
  {
    var w := Winner(p, spans, |spans|, lo, hi);
    WinnerIsLeast(p, spans, |spans|, lo, hi);
    forall c | lo <= c < hi ensures Shown(spans, c) <==> w.Some? {
      SegmentDecides(p, spans, |spans|, lo, hi, c);
      WinnerIsLeast(p, spans, |spans|, c, c + 1);
      if w.Some? {
        var k :| 0 <= k < |spans| && spans[k] == w.value;
        assert Covers(spans[k], c);
      }
    }
    forall c | c >= lo ensures !Shown(out, c) {
      assert forall k :: 0 <= k < |out| ==> out[k].end <= lo;
    }
    if w.Some? {
      var paint := Paint(p, w.value, MoveOver(p, spans, |spans|, lo, hi));
      var sp := Span(lo, hi, paint.0, w.value.ref, paint.1);
      PushSwept(p, spans, out, lo, sp);
    }
  }

  /** One more span, over columns that are decided as it is painted. */
  lemma PushSwept(p: Painter, spans: seq<Span>, out: seq<Span>, lo: int, sp: Span)
    requires Swept(p, spans, out, lo) && sp.start == lo < sp.end && NoBoundary(spans, lo, sp.end)
    requires forall c :: lo <= c < sp.end ==> Shown(spans, c)
    requires var w := Winner(p, spans, |spans|, lo, sp.end);
             w.Some? && (sp.action, sp.color) == Paint(p, w.value, MoveOver(p, spans, |spans|, lo, sp.end))
    ensures Swept(p, spans, out + [sp], sp.end)
  {
    var more := out + [sp];
    forall c | c < sp.end ensures Shown(more, c) <==> Shown(spans, c) { ShownPush(out, sp, c); }
    forall k, c | 0 <= k < |more| && Covers(more[k], c) ensures PaintedRight(p, spans, more[k], c) {
      if k == |out| {
        SegmentDecides(p, spans, |spans|, lo, sp.end, c);
      } else {
        assert more[k] == out[k];
      }
    }
  }

  /** The segments between neighbouring boundaries that some span covers. */
  method Segments(p: Painter, spans: seq<Span>) returns (segments: seq<Span>)
    requires Proper(spans)
    ensures Sequential(segments) && Resolves(p, spans, segments)
  {
    hide Swept, NoBoundary, Winner, MoveOver, Bounds;
    var bounds := Bounds(spans);
    BoundsRight(spans);
    segments := [];
    if |bounds| == 0 {
      NothingToSweep(p, spans);
      return;
    }
    SweepStart(p, spans, bounds);
    for i := 0 to |bounds| - 1
      invariant Swept(p, spans, segments, bounds[i])
    {
      var segStart, segEnd := bounds[i], bounds[i + 1];
      NeighbourBounds(spans, bounds, i);
      SweepSegment(p, spans, segments, segStart, segEnd);
      var winner := Winner(p, spans, |spans|, segStart, segEnd);
      var moveSpan := MoveOver(p, spans, |spans|, segStart, segEnd);
      if winner.Some? {
        var paint := Paint(p, winner.value, moveSpan);
        segments := segments + [Span(segStart, segEnd, paint.0, winner.value.ref, paint.1)];
      }
    }
    SweepEnd(p, spans, bounds, segments);
  }

  lemma SomethingToSweep(spans: seq<Span>)
    requires spans != []
    ensures |Bounds(spans)| > 0
  {
    BoundsRight(spans);
    assert spans[0].start in Bounds(spans);
  }

  lemma NothingToSweep(p: Painter, spans: seq<Span>)
    requires |Bounds(spans)| == 0
    ensures Resolves(p, spans, [])
  {
    if spans != [] { SomethingToSweep(spans); }
  }

  lemma SweepStart(p: Painter, spans: seq<Span>, bounds: seq<int>)
    requires bounds == Bounds(spans) && |bounds| > 0
    ensures Swept(p, spans, [], bounds[0])
  {
    BoundsRight(spans);
    forall c | c < bounds[0] ensures !Shown(spans, c) {
      forall k | 0 <= k < |spans| ensures spans[k].start >= bounds[0] { assert spans[k].start in bounds; }
    }
  }

  lemma SweepEnd(p: Painter, spans: seq<Span>, bounds: seq<int>, out: seq<Span>)
    requires bounds == Bounds(spans) && |bounds| > 0 && Swept(p, spans, out, bounds[|bounds| - 1])
    ensures Sequential(out) && Resolves(p, spans, out)
  {
    var hi := bounds[|bounds| - 1];
    BoundsRight(spans);
    forall k | 0 <= k < |spans| ensures spans[k].end <= hi {
      var i :| 0 <= i < |bounds| && bounds[i] == spans[k].end;
    }
    assert forall k :: 0 <= k < |out| ==> out[k].end <= hi;
    hide Decided, PaintedRight, Bounds;
    forall c ensures Shown(out, c) <==> Shown(spans, c) {
      assert c >= hi ==> !Shown(spans, c) && !Shown(out, c);
    }
  }

  // ---------------------------------------------------------------- coalescing

  /** A neighbouring segment of the same action, and for moves also of the same reference and color. */
  predicate CanCoalesce(cur: Span, next: Span) {
    && next.action == cur.action && next.start == cur.end
    && (cur.action == Move || cur.action == MoveUpdate ==> cur.ref == next.ref && cur.color == next.color)
  }

  /** The result so far shows the same columns as the segments done, painted as decided. */
  ghost predicate Coalescing(p: Painter, spans: seq<Span>, done: seq<Span>, out: seq<Span>) {
    && Sequential(out) && (out != [] <==> done != [])
    && (done != [] ==> out[|out| - 1].end == done[|done| - 1].end)
    && (forall c :: Shown(out, c) <==> Shown(done, c))
    && forall k, c :: 0 <= k < |out| && Covers(out[k], c) ==> PaintedRight(p, spans, out[k], c)
  }

  lemma CoalesceNext(p: Painter, spans: seq<Span>, done: seq<Span>, out: seq<Span>, next: Span)
    requires Coalescing(p, spans, done, out) && out != [] && next.start < next.end && done[|done| - 1].end <= next.start
    requires forall c :: Covers(next, c) ==> PaintedRight(p, spans, next, c)
    ensures CanCoalesce(out[|out| - 1], next) ==>
      Coalescing(p, spans, done + [next], out[..|out| - 1] + [out[|out| - 1].(end := next.end)])
    ensures Coalescing(p, spans, done + [next], out + [next])
  {
    forall c ensures Shown(out + [next], c) <==> Shown(done + [next], c) {
      ShownPush(out, next, c);
      ShownPush(done, next, c);
    }
    var cur, front := out[|out| - 1], out[..|out| - 1];
    if CanCoalesce(cur, next) { CoalesceJoin(p, spans, done, out, next); }
  }

  lemma CoalesceJoin(p: Painter, spans: seq<Span>, done: seq<Span>, out: seq<Span>, next: Span)
    requires Coalescing(p, spans, done, out) && out != [] && next.start < next.end
    requires CanCoalesce(out[|out| - 1], next) && forall c :: Covers(next, c) ==> PaintedRight(p, spans, next, c)
    ensures Coalescing(p, spans, done + [next], out[..|out| - 1] + [out[|out| - 1].(end := next.end)])
  {
    var cur, front := out[|out| - 1], out[..|out| - 1];
    var wide := cur.(end := next.end);
    assert out == front + [cur];
    forall c ensures Shown(front + [wide], c) <==> Shown(done + [next], c) {
      ShownPush(front, wide, c);
      ShownPush(front, cur, c);
      ShownPush(done, next, c);
    }
    forall k, c | 0 <= k < |front + [wide]| && Covers((front + [wide])[k], c)
      ensures PaintedRight(p, spans, (front + [wide])[k], c)
    {
      if k < |front| {
        assert (front + [wide])[k] == out[k];
      } else {
        assert Covers(cur, cur.start) && PaintedRight(p, spans, out[|out| - 1], cur.start);
        PlainColor(p, spans, cur.start);
        PlainColor(p, spans, c);
        assert Covers(out[|out| - 1], c) || Covers(next, c);
      }
    }
  }

  method Coalesce(p: Painter, ghost spans: seq<Span>, segments: seq<Span>) returns (coalesced: seq<Span>)
    requires segments != [] && Sequential(segments) && Resolves(p, spans, segments)
    ensures Sequential(coalesced) && Resolves(p, spans, coalesced)
  {
    hide Coalescing;
    coalesced := [];
    var cur := segments[0];
    assert [] + [cur] == segments[..1];
    CoalesceStart(p, spans, segments);
    for i := 1 to |segments|
      invariant Coalescing(p, spans, segments[..i], coalesced + [cur])
    {
      var next := segments[i];
      assert segments[..i + 1] == segments[..i] + [next];
      CoalesceNext(p, spans, segments[..i], coalesced + [cur], next);
      assert (coalesced + [cur])[..|coalesced|] == coalesced;
      if CanCoalesce(cur, next) {
        cur := cur.(end := next.end);
      } else {
        coalesced := coalesced + [cur];
        cur := next;
      }
    }
    assert segments[..|segments|] == segments;
    coalesced := coalesced + [cur];
    CoalesceEnd(p, spans, segments, coalesced);
  }

  lemma CoalesceStart(p: Painter, spans: seq<Span>, segments: seq<Span>)
    requires segments != [] && Sequential(segments) && Resolves(p, spans, segments)
    ensures Coalescing(p, spans, segments[..1], [] + [segments[0]])
  {
    assert [] + [segments[0]] == segments[..1];
  }

  lemma CoalesceEnd(p: Painter, spans: seq<Span>, segments: seq<Span>, out: seq<Span>)
    requires Coalescing(p, spans, segments, out) && Resolves(p, spans, segments)
    ensures Sequential(out) && Resolves(p, spans, out)
  {
  }

  /**
    * The partition of one line's spans: disjoint spans over exactly the columns of the input, each column painted as
    * its best covering span decides.
    */
  method PartitionLineSpans(p: Painter, spans: seq<Span>) returns (out: seq<Span>)
    requires Proper(spans)
    ensures Resolves(p, spans, out)
    ensures !Overlapping(spans) ==> |out| == |spans| && forall k :: 0 <= k < |spans| ==> out[k] == Colored(p, spans[k])
  {
    hide Resolves;
    if |spans| == 0 {
      NothingResolves(p);
      return spans;
    }
    var overlap := false;
    if |spans| > 1 { overlap := HasOverlap(spans); }
    if !overlap {
      out := seq(|spans|, k requires 0 <= k < |spans| => Colored(p, spans[k]));
      ColoredResolves(p, spans, out);
      return;
    }
    var segments := Segments(p, spans);
    if |segments| == 0 {
      NoSegments(p, spans);
      return spans;
    }
    out := Coalesce(p, spans, segments);
  }

  lemma NothingResolves(p: Painter)
    ensures Resolves(p, [], [])
  {
  }

  lemma ShowsFirst(spans: seq<Span>)
    requires Proper(spans) && spans != []
    ensures Shown(spans, spans[0].start)
  {
    assert Covers(spans[0], spans[0].start);
  }

  /** There are segments whenever there are spans, so this way out is for none. */
  lemma NoSegments(p: Painter, spans: seq<Span>)
    requires Proper(spans) && Resolves(p, spans, [])
    ensures Resolves(p, spans, spans)
  {
    if spans != [] { ShowsFirst(spans); }
  }

  // ---------------------------------------------------------------- sorting and looking up

  function Place(a: Span, s: seq<Span>): seq<Span> {
    if s == [] then [a]
    else if a.start < s[0].start then [a] + s
    else [s[0]] + Place(a, s[1..])
  }

  lemma ConsSpan(h: Span, s: seq<Span>)
    requires Sequential(s) && h.start < h.end && forall b :: b in s ==> h.end <= b.start
    ensures Sequential([h] + s) && forall b :: b in [h] + s <==> b == h || b in s
  {
    assert forall k :: 0 <= k < |s| ==> s[k] in s;
  }

  lemma {:induction false} PlaceRight(a: Span, s: seq<Span>)
    requires Sequential(s) && a.start < a.end && forall b :: b in s ==> Apart(a, b)
    ensures Sequential(Place(a, s)) && forall b :: b in Place(a, s) <==> b == a || b in s
  {
    if s != [] {
      var first, tail := s[0], s[1..];
      assert s == [first] + tail && first in s && forall b :: b in tail ==> first.end <= b.start;
      if a.start < first.start {
        ConsSpan(a, s);
      } else {
        PlaceRight(a, tail);
        ConsSpan(first, Place(a, tail));
      }
    }
  }

  /** Disjoint spans sorted by where they start; then no two are out of order in any other way. */
  function SortSpans(spans: seq<Span>): seq<Span> {
    if spans == [] then [] else Place(spans[0], SortSpans(spans[1..]))
  }

  lemma {:induction false} SortRight(spans: seq<Span>)
    requires Proper(spans) && Disjoint(spans)
    ensures Sequential(SortSpans(spans)) && forall b :: b in SortSpans(spans) <==> b in spans
  {
    if spans != [] {
      var tail := spans[1..];
      assert spans == [spans[0]] + tail;
      SortRight(tail);
      forall b | b in SortSpans(tail) ensures Apart(spans[0], b) {
        var k :| 0 <= k < |tail| && tail[k] == b;
        assert spans[k + 1] == b;
      }
      PlaceRight(spans[0], SortSpans(tail));
    }
  }

  /** The kind and color slot that a span is rendered in. */
  function Shade(sp: Span): Option<(Kind, int)> {
    match sp.action
    case Unknown => None
    case Move => Some((Move, sp.color))
    case MoveUpdate => Some((MoveUpdate, sp.color))
    case _ => Some((sp.action, 0))
  }

  /** What a plain scan of the spans finds at column c. */
  function Scan(spans: seq<Span>, c: int): Option<(Kind, int)> {
    if spans == [] then None
    else if Covers(spans[0], c) then Shade(spans[0])
    else Scan(spans[1..], c)
  }

  lemma {:induction false} ScanAt(spans: seq<Span>, c: int, k: nat)
    requires Sequential(spans) && k <= |spans| && (forall l :: 0 <= l < k ==> spans[l].end <= c)
    requires k < |spans| ==> c < spans[k].end
    ensures Scan(spans, c) == if k < |spans| && c >= spans[k].start then Shade(spans[k]) else None
  {
    if spans != [] {
      if k > 0 {
        ScanAt(spans[1..], c, k - 1);
      } else if c < spans[0].start {
        ScanNone(spans, c);
      }
    }
  }

  lemma {:induction false} ScanNone(spans: seq<Span>, c: int)
    requires Sequential(spans) && (spans != [] ==> c < spans[0].start)
    ensures Scan(spans, c) == None
  {
    if spans != [] { ScanNone(spans[1..], c); }
  }

  /** A scan of sorted spans finds the span that covers the column. */
  lemma {:induction false} ScanFinds(spans: seq<Span>, c: int, k: nat)
    requires Sequential(spans) && k < |spans| && Covers(spans[k], c)
    ensures Scan(spans, c) == Shade(spans[k])
  {
    ScanAt(spans, c, k);
  }

  lemma {:induction false} ScanMisses(spans: seq<Span>, c: int)
    requires forall b :: b in spans ==> !Covers(b, c)
    ensures Scan(spans, c) == None
  {
    if spans != [] {
      assert spans[0] in spans && forall b :: b in spans[1..] ==> b in spans;
      ScanMisses(spans[1..], c);
    }
  }

  /** What a column is rendered as, partitioned and sorted, is what its best covering span decides. */
  lemma RenderedAsDecided(p: Painter, spans: seq<Span>, out: seq<Span>, c: int)
    requires Resolves(p, spans, out)
    ensures Sequential(SortSpans(out))
    ensures var shown, d := Scan(SortSpans(out), c), Decided(p, spans, c);
            if d == None || d.value.0 == Unknown then shown == None
            else
              && shown.Some? && shown.value.0 == d.value.0
              && (d.value.0 != MoveUpdate || Overlapping(spans) ==> shown == d)
  {
    PlainColor(p, spans, c);
    SortRight(out);
    var sorted := SortSpans(out);
    if Shown(out, c) {
      var k :| 0 <= k < |out| && Covers(out[k], c);
      assert out[k] in sorted && PaintedRight(p, spans, out[k], c);
      var i :| 0 <= i < |sorted| && sorted[i] == out[k];
      ScanFinds(sorted, c, i);
    } else {
      forall b | b in sorted ensures !Covers(b, c) {
        var k :| 0 <= k < |out| && out[k] == b;
      }
      ScanMisses(sorted, c);
      WinnerIsLeast(p, spans, |spans|, c, c + 1);
      assert !Shown(spans, c);
    }
  }

  /** A cursor over sorted disjoint spans that never rewinds. */
  class SpanCursor {
    const spans: seq<Span>
    var idx: nat
    ghost var last: int

    ghost predicate Valid()
      reads this
    {
      Sequential(spans) && idx <= |spans| && forall k :: 0 <= k < idx ==> spans[k].end <= last
    }

    constructor (spans: seq<Span>, ghost first: int)
      requires Sequential(spans)
      ensures Valid() && this.spans == spans && last == first
    {
      this.spans := spans;
      idx, last := 0, first;
    }

    /** On columns that do not decrease, the cursor finds what a plain scan would. */
    method ActionAt(col: int) returns (r: Option<(Kind, int)>)
      requires Valid() && col >= last
      modifies this
      ensures Valid() && last == col && r == Scan(spans, col)
    {
      while idx < |spans| && col >= spans[idx].end
        invariant idx <= |spans| && forall k :: 0 <= k < idx ==> spans[k].end <= col
      {
        idx := idx + 1;
      }
      last := col;
      ScanAt(spans, col, idx);
      if idx < |spans| && col >= spans[idx].start { return Shade(spans[idx]); }
      return None;
    }
  }
}
