/** Anchors of the grid: choosing the most of them that do not cross, and merging two lists by priority. */
module Anchors {
  import opened Patience

  /** A source line that faces a target line. */
  datatype Anchor = Anchor(src: nat, dst: nat)

  /** Strictly increasing on both sides. */
  ghost predicate Increasing(s: seq<Anchor>) {
    forall k, l :: 0 <= k < l < |s| ==> s[k].src < s[l].src && s[k].dst < s[l].dst
  }

  // ---------------------------------------------------------------- the sorted candidates

  /** The order of the sort: by source line, and from the last target line down within one source line. */
  predicate Before(a: Anchor, b: Anchor) {
    a.src < b.src || (a.src == b.src && a.dst > b.dst)
  }

  ghost predicate Sorted(s: seq<Anchor>) {
    forall k, l :: 0 <= k < l < |s| ==> Before(s[k], s[l]) || s[k] == s[l]
  }

  function Insert(a: Anchor, s: seq<Anchor>): (r: seq<Anchor>)
    requires Sorted(s)
    ensures Sorted(r) && forall x :: x in r <==> x == a || x in s
  {
    if s == [] then [a]
    else if Before(s[0], a) then
      var rest := Insert(a, s[1..]);
      assert s == [s[0]] + s[1..];
      assert forall x :: x in rest ==> Before(s[0], x) || s[0] == x;
      [s[0]] + rest
    else [a] + s
  }

  function Sort(s: seq<Anchor>): (r: seq<Anchor>)
    ensures Sorted(r) && forall x :: x in r <==> x in s
  {
    if s == [] then []
    else
      assert s == [s[0]] + s[1..];
      Insert(s[0], Sort(s[1..]))
  }

  ghost predicate StrictlySorted(s: seq<Anchor>) {
    forall k, l :: 0 <= k < l < |s| ==> Before(s[k], s[l])
  }

  /** Neighbours that are equal, but for the first, dropped. */
  function Compact(s: seq<Anchor>): (r: seq<Anchor>)
    requires Sorted(s)
    ensures StrictlySorted(r) && (forall x :: x in r <==> x in s) && (s != [] ==> r != [] && r[0] == s[0])
  {
    if |s| <= 1 then s
    else
      var rest := Compact(s[1..]);
      assert s == [s[0]] + s[1..];
      if s[0] == s[1] then rest
      else
        assert forall x :: x in rest ==> Before(s[0], x);
        [s[0]] + rest
  }

  function Targets(s: seq<Anchor>): seq<int> {
    seq(|s|, k requires 0 <= k < |s| => s[k].dst)
  }

  function Pick(s: seq<Anchor>, qs: seq<nat>): seq<Anchor>
    requires forall k :: 0 <= k < |qs| ==> qs[k] < |s|
  {
    seq(|qs|, k requires 0 <= k < |qs| => s[qs[k]])
  }

  /** A rising chain of targets picks anchors that increase on both sides. */
  lemma PickIncreasing(s: seq<Anchor>, qs: seq<nat>)
    requires StrictlySorted(s) && Rising(Targets(s), qs)
    ensures Increasing(Pick(s, qs))
  {
    var r := Pick(s, qs);
    forall k, l | 0 <= k < l < |r| ensures r[k].src < r[l].src && r[k].dst < r[l].dst {
      assert Targets(s)[qs[k]] < Targets(s)[qs[l]];
    }
  }

  /** Anchors that increase on both sides lie on a rising chain of targets. */
  lemma {:induction false} ChainOf(s: seq<Anchor>, chain: seq<Anchor>) returns (qs: seq<nat>)
    requires StrictlySorted(s) && Increasing(chain) && forall a :: a in chain ==> a in s
    ensures Rising(Targets(s), qs) && |qs| == |chain| && Pick(s, qs) == chain
  {
    if chain == [] {
      qs := [];
    } else {
      var last := chain[|chain| - 1];
      var front := chain[..|chain| - 1];
      var rest := ChainOf(s, front);
      assert last in chain;
      var i :| 0 <= i < |s| && s[i] == last;
      forall k | 0 <= k < |rest| ensures rest[k] < i && Targets(s)[rest[k]] < Targets(s)[i] {
        assert Pick(s, rest)[k] == front[k] == chain[k];
      }
      qs := rest + [i];
      assert Pick(s, qs) == front + [last];
    }
  }

  /** The filter keeps as many candidates as can stand together, each source and each target line once. */
  method FilterMonotonic(cands: seq<Anchor>) returns (res: seq<Anchor>)
    ensures Increasing(res) && (forall a :: a in res ==> a in cands)
    ensures forall chain :: Increasing(chain) && (forall a :: a in chain ==> a in cands) ==> |chain| <= |res|
  {
    var sorted := Compact(Sort(cands));
    var qs := LongestBySkipping(Targets(sorted));
    res := Pick(sorted, qs);
    PickIncreasing(sorted, qs);
    forall chain | Increasing(chain) && (forall a :: a in chain ==> a in cands) ensures |chain| <= |res| {
      var others := ChainOf(sorted, chain);
    }
  }

  // ---------------------------------------------------------------- the merge

  /** Two anchors that one grid can show. */
  predicate Compatible(a: Anchor, b: Anchor) {
    (a.src < b.src && a.dst < b.dst) || (b.src < a.src && b.dst < a.dst)
  }

  /** Kept, or in the way of an anchor that is. */
  ghost predicate Settled(res: seq<Anchor>, a: Anchor) {
    a in res || exists b :: b in res && !Compatible(a, b)
  }

  /** The last anchor of the result, as the two counters keep it. */
  ghost predicate LastIs(res: seq<Anchor>, lastSrc: int, lastDst: int) {
    if res == [] then lastSrc == -1 && lastDst == -1
    else lastSrc == res[|res| - 1].src && lastDst == res[|res| - 1].dst
  }

  /**
    * The merge with i primary and j secondary anchors done: all those primary ones are in, and every one of those
    * secondary ones is in or in the way of one that is in or, once next, about to be.
    */
  ghost predicate Merging(primary: seq<Anchor>, secondary: seq<Anchor>, i: nat, j: nat, res: seq<Anchor>,
                          lastSrc: int, lastDst: int, next: seq<Anchor>) {
    && i <= |primary| && j <= |secondary| && LastIs(res, lastSrc, lastDst)
    && Increasing(res)
    && (forall a :: a in res ==> a in primary || a in secondary)
    && (forall k :: 0 <= k < i ==> primary[k] in res)
    && (forall k :: i <= k < |primary| ==> lastSrc < primary[k].src && lastDst < primary[k].dst)
    && (forall k :: j <= k < |secondary| ==> lastSrc <= secondary[k].src)
    && (forall k :: 0 <= k < j ==> Settled(res + next, secondary[k]))
  }

  lemma IncreasingPush(res: seq<Anchor>, lastSrc: int, lastDst: int, a: Anchor)
    requires Increasing(res) && LastIs(res, lastSrc, lastDst) && lastSrc < a.src && lastDst < a.dst
    ensures Increasing(res + [a]) && LastIs(res + [a], a.src, a.dst)
  {
  }

  /** A primary anchor is always kept. */
  lemma TakePrimary(primary: seq<Anchor>, secondary: seq<Anchor>, i: nat, j: nat, res: seq<Anchor>,
                    lastSrc: int, lastDst: int)
    requires Increasing(primary) && i < |primary|
    requires Merging(primary, secondary, i, j, res, lastSrc, lastDst, [primary[i]])
    requires forall k :: j <= k < |secondary| ==> primary[i].src <= secondary[k].src
    ensures Merging(primary, secondary, i + 1, j, res + [primary[i]], primary[i].src, primary[i].dst, [])
  {
    var p := primary[i];
    IncreasingPush(res, lastSrc, lastDst, p);
    assert (res + [p]) + [] == res + [p];
  }

  /** A secondary anchor that fits is kept. */
  lemma TakeSecondary(primary: seq<Anchor>, secondary: seq<Anchor>, i: nat, j: nat, res: seq<Anchor>,
                      lastSrc: int, lastDst: int, next: seq<Anchor>)
    requires Increasing(secondary) && j < |secondary|
    requires Merging(primary, secondary, i, j, res, lastSrc, lastDst, next)
    requires lastSrc < secondary[j].src && lastDst < secondary[j].dst
    requires forall k :: i <= k < |primary| ==> secondary[j].src < primary[k].src && secondary[j].dst < primary[k].dst
    ensures Merging(primary, secondary, i, j + 1, res + [secondary[j]], secondary[j].src, secondary[j].dst, next)
  {
    var s := secondary[j];
    IncreasingPush(res, lastSrc, lastDst, s);
    forall k | 0 <= k < j + 1 ensures Settled((res + [s]) + next, secondary[k]) {
      if k < j { SettledSuperset(res + next, (res + [s]) + next, secondary[k]); }
    }
  }

  lemma SettledSuperset(res: seq<Anchor>, more: seq<Anchor>, a: Anchor)
    requires Settled(res, a) && forall b :: b in res ==> b in more
    ensures Settled(more, a)
  {
  }

  /** One that does not fit is in the way of the last anchor kept or of the next primary one. */
  lemma DropSecondary(primary: seq<Anchor>, secondary: seq<Anchor>, i: nat, j: nat, res: seq<Anchor>,
                      lastSrc: int, lastDst: int, next: seq<Anchor>)
    requires Increasing(secondary) && j < |secondary|
    requires Merging(primary, secondary, i, j, res, lastSrc, lastDst, next)
    requires secondary[j].src <= lastSrc || secondary[j].dst <= lastDst ||
      (next != [] && secondary[j].src < next[0].src && secondary[j].dst >= next[0].dst)
    ensures Merging(primary, secondary, i, j + 1, res, lastSrc, lastDst, next)
  {
    var s := secondary[j];
    if next != [] && s.src < next[0].src && s.dst >= next[0].dst {
      assert next[0] in res + next && !Compatible(s, next[0]);
    } else {
      var last := res[|res| - 1];
      assert last in res + next && !Compatible(s, last);
    }
  }

  lemma MergeStart(primary: seq<Anchor>, secondary: seq<Anchor>)
    ensures Merging(primary, secondary, 0, 0, [], -1, -1, [])
  {
  }

  lemma MergeNext(primary: seq<Anchor>, secondary: seq<Anchor>, i: nat, j: nat, res: seq<Anchor>,
                  lastSrc: int, lastDst: int, next: seq<Anchor>)
    requires Merging(primary, secondary, i, j, res, lastSrc, lastDst, [])
    ensures Merging(primary, secondary, i, j, res, lastSrc, lastDst, next)
  {
    forall k | 0 <= k < j ensures Settled(res + next, secondary[k]) {
      SettledSuperset(res + [], res + next, secondary[k]);
    }
  }

  /** All secondary anchors on source lines before the next primary one. */
  method MergeUpTo(primary: seq<Anchor>, secondary: seq<Anchor>, i: nat, secIdx0: nat, res0: seq<Anchor>,
                   lastSrc0: int, lastDst0: int)
    returns (res: seq<Anchor>, secIdx: nat, lastSrc: int, lastDst: int)
    requires Increasing(primary) && Increasing(secondary) && i < |primary|
    requires Merging(primary, secondary, i, secIdx0, res0, lastSrc0, lastDst0, [])
    ensures Merging(primary, secondary, i, secIdx, res, lastSrc, lastDst, [primary[i]])
    ensures lastSrc < primary[i].src && lastDst < primary[i].dst
    ensures forall k :: secIdx <= k < |secondary| ==> primary[i].src <= secondary[k].src
  {
    hide Merging, Increasing;
    var p := primary[i];
    res, secIdx, lastSrc, lastDst := res0, secIdx0, lastSrc0, lastDst0;
    MergeRange(primary, secondary, i, secIdx, res, lastSrc, lastDst, []);
    MergeNext(primary, secondary, i, secIdx, res, lastSrc, lastDst, [p]);
    while secIdx < |secondary| && secondary[secIdx].src < p.src
      invariant secIdx <= |secondary| && Merging(primary, secondary, i, secIdx, res, lastSrc, lastDst, [p])
    {
      var s := secondary[secIdx];
      LaterToo(primary, i, s);
      if s.src > lastSrc && s.dst > lastDst && s.dst < p.dst {
        TakeSecondary(primary, secondary, i, secIdx, res, lastSrc, lastDst, [p]);
        res := res + [s];
        lastSrc, lastDst := s.src, s.dst;
      } else {
        DropSecondary(primary, secondary, i, secIdx, res, lastSrc, lastDst, [p]);
      }
      secIdx := secIdx + 1;
    }
    MergeRange(primary, secondary, i, secIdx, res, lastSrc, lastDst, [p]);
    RestBeyond(secondary, secIdx, p);
  }

  lemma MergeRange(primary: seq<Anchor>, secondary: seq<Anchor>, i: nat, j: nat, res: seq<Anchor>,
                lastSrc: int, lastDst: int, next: seq<Anchor>)
    requires Merging(primary, secondary, i, j, res, lastSrc, lastDst, next)
    ensures j <= |secondary| && (i < |primary| ==> lastSrc < primary[i].src && lastDst < primary[i].dst)
  {
  }

  /** What lies before a primary anchor lies before all later ones. */
  lemma LaterToo(primary: seq<Anchor>, i: nat, s: Anchor)
    requires Increasing(primary) && i < |primary|
    ensures s.src < primary[i].src && s.dst < primary[i].dst ==>
              forall k :: i <= k < |primary| ==> s.src < primary[k].src && s.dst < primary[k].dst
  {
  }

  lemma RestBeyond(secondary: seq<Anchor>, j: nat, p: Anchor)
    requires Increasing(secondary) && (j < |secondary| ==> p.src <= secondary[j].src)
    ensures forall k :: j <= k < |secondary| ==> p.src <= secondary[k].src
  {
  }

  /** The merge: every primary anchor, and every secondary one that fits between them and those kept before it. */
  method MergeAnchors(primary: seq<Anchor>, secondary: seq<Anchor>) returns (res: seq<Anchor>)
    requires Increasing(primary) && Increasing(secondary)
    ensures Increasing(res) && forall a :: a in res ==> a in primary || a in secondary
    ensures forall a :: a in primary ==> a in res
    ensures forall a :: a in secondary ==> Settled(res, a)
  {
    if |primary| == 0 { return secondary; }
    if |secondary| == 0 { return primary; }
    res := [];
    var secIdx: nat, lastSrc: int, lastDst: int := 0, -1, -1;
    MergeStart(primary, secondary);
    for i := 0 to |primary|
      invariant Merging(primary, secondary, i, secIdx, res, lastSrc, lastDst, [])
    {
      var p := primary[i];
      res, secIdx, lastSrc, lastDst := MergeUpTo(primary, secondary, i, secIdx, res, lastSrc, lastDst);
      TakePrimary(primary, secondary, i, secIdx, res, lastSrc, lastDst);
      if p.src > lastSrc && p.dst > lastDst {
        res := res + [p];
        lastSrc, lastDst := p.src, p.dst;
      }
    }
    while secIdx < |secondary|
      invariant Merging(primary, secondary, |primary|, secIdx, res, lastSrc, lastDst, [])
    {
      var s := secondary[secIdx];
      if s.src > lastSrc && s.dst > lastDst {
        TakeSecondary(primary, secondary, |primary|, secIdx, res, lastSrc, lastDst, []);
        res := res + [s];
        lastSrc, lastDst := s.src, s.dst;
      } else {
        DropSecondary(primary, secondary, |primary|, secIdx, res, lastSrc, lastDst, []);
      }
      secIdx := secIdx + 1;
    }
    assert res + [] == res;
  }
}
