/** Moves that keep their order: the heaviest of the longest chains, peeled off again and again. */
module MoveChains {

  /** A moved node: the action it belongs to, and where it starts and ends in the two files. */
  datatype Item = Item(index: nat, srcStart: nat, srcEnd: nat, dstStart: nat, dstEnd: nat, hasDst: bool)

  /** Both starts rise from a to b. */
  predicate Precedes(a: Item, b: Item) {
    a.srcStart < b.srcStart && a.dstStart < b.dstStart
  }

  /** How much code an item covers in both files; the source difference wraps as 32-bit offsets do. */
  function Weight(a: Item): nat {
    (a.srcEnd - a.srcStart) % 0x1_0000_0000 + if a.hasDst && a.dstEnd > a.dstStart then a.dstEnd - a.dstStart else 0
  }

  /** A number of items and the code they cover. */
  datatype Value = Value(length: nat, weight: nat)

  /** Longer, or as long and heavier. */
  predicate Beats(a: Value, b: Value) {
    a.length > b.length || (a.length == b.length && a.weight > b.weight)
  }

  function Plus(v: Value, a: Item): Value {
    Value(v.length + 1, v.weight + Weight(a))
  }

  /** Positions of the pool whose items rise on both sides. */
  ghost predicate Chain(pool: seq<Item>, qs: seq<nat>) {
    && (forall k :: 0 <= k < |qs| ==> qs[k] < |pool|)
    && forall k, l :: 0 <= k < l < |qs| ==> Precedes(pool[qs[k]], pool[qs[l]])
  }

  /** The code that the items at these positions cover. */
  function Covered(pool: seq<Item>, qs: seq<nat>): nat {
    if qs == [] then 0 else (if qs[0] < |pool| then Weight(pool[qs[0]]) else 0) + Covered(pool, qs[1..])
  }

  function Worth(pool: seq<Item>, qs: seq<nat>): Value {
    Value(|qs|, Covered(pool, qs))
  }

  lemma {:induction false} CoveredPush(pool: seq<Item>, qs: seq<nat>, i: nat)
    requires i < |pool|
    ensures Covered(pool, qs + [i]) == Covered(pool, qs) + Weight(pool[i])
  {
    if qs == [] {
      assert qs + [i] == [i] && [i][1..] == [];
    } else {
      assert (qs + [i])[1..] == qs[1..] + [i];
      CoveredPush(pool, qs[1..], i);
    }
  }

  ghost predicate SortedBySource(pool: seq<Item>) {
    forall k, l :: 0 <= k < l < |pool| ==> pool[k].srcStart <= pool[l].srcStart
  }

  // ---------------------------------------------------------------- the table

  /** The best chain that ends at i, of those whose last item but one is before j. */
  function Scan(pool: seq<Item>, i: nat, j: nat): Value
    requires j <= i < |pool|
    decreases i, j
  {
    if j == 0 then Value(1, Weight(pool[i]))
    else
      var before := Scan(pool, i, j - 1);
      if Precedes(pool[j - 1], pool[i]) && Beats(Plus(Opt(pool, j - 1), pool[i]), before)
      then Plus(Opt(pool, j - 1), pool[i]) else before
  }

  /** The best chain that ends at i. */
  function Opt(pool: seq<Item>, i: nat): Value
    requires i < |pool|
    decreases i, i + 1
  {
    Scan(pool, i, i)
  }

  lemma {:induction false} ScanCovers(pool: seq<Item>, i: nat, j: nat, k: nat)
    requires k < j <= i < |pool| && Precedes(pool[k], pool[i])
    ensures !Beats(Plus(Opt(pool, k), pool[i]), Scan(pool, i, j))
  {
    if k < j - 1 { ScanCovers(pool, i, j - 1, k); }
  }

  lemma {:induction false} ScanAlone(pool: seq<Item>, i: nat, j: nat)
    requires j <= i < |pool|
    ensures !Beats(Value(1, Weight(pool[i])), Scan(pool, i, j))
  {
    if j > 0 { ScanAlone(pool, i, j - 1); }
  }

  lemma ChainFront(pool: seq<Item>, qs: seq<nat>)
    requires Chain(pool, qs) && SortedBySource(pool) && |qs| > 1
    ensures var front := qs[..|qs| - 1];
            && Chain(pool, front) && front[|front| - 1] < qs[|qs| - 1]
            && Precedes(pool[front[|front| - 1]], pool[qs[|qs| - 1]])
  {
    var j, i := qs[|qs| - 2], qs[|qs| - 1];
    assert Precedes(pool[j], pool[i]);
  }

  /** No chain of the pool that ends at i beats the table. */
  lemma {:induction false} ChainBound(pool: seq<Item>, qs: seq<nat>)
    requires Chain(pool, qs) && SortedBySource(pool) && qs != []
    ensures !Beats(Worth(pool, qs), Opt(pool, qs[|qs| - 1]))
    decreases |qs|
  {
    var i, front := qs[|qs| - 1], qs[..|qs| - 1];
    assert qs == front + [i];
    CoveredPush(pool, front, i);
    if |qs| == 1 {
      ScanAlone(pool, i, i);
    } else {
      ChainFront(pool, qs);
      ChainBound(pool, front);
      ScanCovers(pool, i, i, front[|front| - 1]);
    }
  }

  /** The table up to n, and for every item the item before it in its best chain. */
  ghost predicate Tabled(pool: seq<Item>, length: seq<nat>, weight: seq<nat>, prev: seq<int>, n: nat) {
    && n <= |pool| == |length| == |weight| == |prev|
    && forall i: nat :: i < n ==> Linked(pool, length, weight, prev, i)
  }

  ghost predicate Linked(pool: seq<Item>, length: seq<nat>, weight: seq<nat>, prev: seq<int>, i: nat)
    requires i < |pool| == |length| == |weight| == |prev|
  {
    && Value(length[i], weight[i]) == Opt(pool, i)
    && FollowsFrom(pool, i, Opt(pool, i), prev[i])
  }

  /** The value of a chain that ends at i, whose item before is p. */
  ghost predicate FollowsFrom(pool: seq<Item>, i: nat, v: Value, p: int)
    requires i < |pool|
  {
    if p == -1 then v == Value(1, Weight(pool[i]))
    else 0 <= p < i && Precedes(pool[p], pool[i]) && v == Plus(Opt(pool, p), pool[i])
  }

  /** The best chain: as long as any in the pool, and as heavy as any that long. */
  ghost predicate BestChain(pool: seq<Item>, qs: seq<nat>) {
    Chain(pool, qs) && forall others :: Chain(pool, others) ==> !Beats(Worth(pool, others), Worth(pool, qs))
  }

  /** The best chain that ends at i: its length, its weight, and the item before its last. */
  method BestEndingAt(pool: seq<Item>, length: array<nat>, weight: array<nat>, ghost prev: seq<int>, i: nat)
    returns (len: nat, wt: nat, p: int)
    requires i < |pool| && length.Length == |pool| == weight.Length && Tabled(pool, length[..], weight[..], prev, i)
    ensures Value(len, wt) == Opt(pool, i) && FollowsFrom(pool, i, Opt(pool, i), p)
  {
    len, wt, p := 1, Weight(pool[i]), -1;
    for j := 0 to i
      invariant Value(len, wt) == Scan(pool, i, j) && FollowsFrom(pool, i, Scan(pool, i, j), p)
    {
      assert Linked(pool, length[..], weight[..], prev, j);
      if pool[j].srcStart < pool[i].srcStart && pool[j].dstStart < pool[i].dstStart {
        var newLen, newWeight := length[j] + 1, weight[j] + Weight(pool[i]);
        if newLen > len || (newLen == len && newWeight > wt) { len, wt, p := newLen, newWeight, j; }
      }
    }
  }

  /** The positions of the best chain of a pool that is sorted by where its items start in the source. */
  method ExtractLis(pool: seq<Item>) returns (best: seq<nat>)
    requires SortedBySource(pool)
    ensures BestChain(pool, best) && (pool != [] ==> best != [])
    ensures forall k, l :: 0 <= k < l < |best| ==> best[k] < best[l]
  {
    hide Chain, Opt, Beats, Linked;
    var n := |pool|;
    if n == 0 {
      EmptyBest(pool);
      return [];
    }
    var length: array<nat>, weight: array<nat> := new nat[n](_ => 0), new nat[n](_ => 0);
    var prev := new int[n](_ => -1);
    var bestLen: nat, bestWeight: nat, bestIdx: int := 0, 0, -1;
    for i := 0 to n
      invariant Tabled(pool, length[..], weight[..], prev[..], i)
      invariant Leads(pool, bestLen, bestWeight, bestIdx, i)
    {
      var len, wt, p := BestEndingAt(pool, length, weight, prev[..], i);
      ghost var l0: seq<nat>, w0: seq<nat>, p0 := length[..], weight[..], prev[..];
      length[i], weight[i], prev[i] := len, wt, p;
      assert length[..] == l0[i := len] && weight[..] == w0[i := wt] && prev[..] == p0[i := p];
      TableStep(pool, l0, w0, p0, i, len, wt, p);
      LeadStep(pool, bestLen, bestWeight, bestIdx, i);
      if len > bestLen || (len == bestLen && wt > bestWeight) {
        bestLen, bestWeight, bestIdx := len, wt, i;
      }
    }
    best := ReadBack(pool, length[..], weight[..], prev[..], bestIdx);
    LeadIsBest(pool, bestLen, bestWeight, bestIdx, best);
  }

  lemma EmptyBest(pool: seq<Item>)
    requires pool == []
    ensures BestChain(pool, [])
  {
  }

  lemma TableStep(pool: seq<Item>, length: seq<nat>, weight: seq<nat>, prev: seq<int>, i: nat, len: nat, wt: nat,
                  p: int)
    requires i < |pool| && Tabled(pool, length, weight, prev, i)
    requires Value(len, wt) == Opt(pool, i) && FollowsFrom(pool, i, Opt(pool, i), p)
    ensures Tabled(pool, length[i := len], weight[i := wt], prev[i := p], i + 1)
  {
    hide Opt;
    var length2, weight2, prev2 := length[i := len], weight[i := wt], prev[i := p];
    forall k: nat | k < i + 1 ensures Linked(pool, length2, weight2, prev2, k) {
      if k < i { assert Linked(pool, length, weight, prev, k); }
    }
  }

  /** The best end among the first n items. */
  ghost predicate Leads(pool: seq<Item>, bestLen: nat, bestWeight: nat, bestIdx: int, n: nat) {
    && n <= |pool|
    && (if n == 0 then bestLen == 0 && bestWeight == 0 && bestIdx == -1
        else 0 <= bestIdx < n && Value(bestLen, bestWeight) == Opt(pool, bestIdx) && bestLen > 0)
    && forall i: nat :: i < n ==> !Beats(Opt(pool, i), Value(bestLen, bestWeight))
  }

  lemma LeadStep(pool: seq<Item>, bestLen: nat, bestWeight: nat, bestIdx: int, i: nat)
    requires i < |pool| && Leads(pool, bestLen, bestWeight, bestIdx, i)
    ensures var v := Opt(pool, i);
            if Beats(v, Value(bestLen, bestWeight)) then Leads(pool, v.length, v.weight, i, i + 1)
            else Leads(pool, bestLen, bestWeight, bestIdx, i + 1)
    ensures var v := Opt(pool, i);
            Beats(v, Value(bestLen, bestWeight))
            <==> v.length > bestLen || (v.length == bestLen && v.weight > bestWeight)
  {
    ScanAlone(pool, i, i);
    hide Opt, Scan;
    assert Opt(pool, i).length >= 1 by { OptPositive(pool, i); }
  }

  lemma OptPositive(pool: seq<Item>, i: nat)
    requires i < |pool|
    ensures Opt(pool, i).length >= 1
  {
    ScanAlone(pool, i, i);
  }

  /** What reading back has come to: a chain, worth with the best one at curr what was to be found. */
  ghost predicate Reading(pool: seq<Item>, last: nat, curr: int, best: seq<nat>)
    requires last < |pool|
  {
    && Chain(pool, best) && (forall k, l :: 0 <= k < l < |best| ==> best[k] < best[l])
    && -1 <= curr < |pool|
    && (curr == -1 ==> best != [] && Worth(pool, best) == Opt(pool, last))
    && (curr >= 0 ==>
          && Value(Opt(pool, curr).length + |best|, Opt(pool, curr).weight + Covered(pool, best)) == Opt(pool, last)
          && (best != [] ==> curr < best[0] && Precedes(pool[curr], pool[best[0]])))
  }

  lemma ReadStep(pool: seq<Item>, last: nat, curr: nat, best: seq<nat>, p: int)
    requires last < |pool| && curr < |pool| && Reading(pool, last, curr, best)
    requires FollowsFrom(pool, curr, Opt(pool, curr), p)
    ensures Reading(pool, last, p, [curr] + best)
  {
    hide Opt, Weight;
    var more: seq<nat> := [curr] + best;
    assert more[1..] == best;
    forall k, l | 0 <= k < l < |more| ensures more[k] < more[l] && Precedes(pool[more[k]], pool[more[l]]) {
      if k == 0 {
        assert more[l] == best[l - 1];
        assert l > 1 ==> best[0] < best[l - 1] && Precedes(pool[best[0]], pool[best[l - 1]]);
      } else {
        assert more[k] == best[k - 1] && more[l] == best[l - 1];
      }
    }
  }

  lemma ReadStart(pool: seq<Item>, last: nat)
    requires last < |pool|
    ensures Reading(pool, last, last, [])
  {
  }

  /** The chain read back from its last item along the items before. */
  method ReadBack(pool: seq<Item>, length: seq<nat>, weight: seq<nat>, prev: seq<int>, last: nat)
    returns (best: seq<nat>)
    requires Tabled(pool, length, weight, prev, |pool|) && last < |pool|
    ensures Reading(pool, last, -1, best)
  {
    hide Opt, Chain;
    best := [];
    var curr: int := last;
    ReadStart(pool, last);
    while curr != -1
      invariant Reading(pool, last, curr, best)
      decreases curr + 1
    {
      assert Linked(pool, length, weight, prev, curr);
      ReadStep(pool, last, curr, best, prev[curr]);
      best := [curr] + best;
      curr := prev[curr];
    }
  }

  lemma LeadIsBest(pool: seq<Item>, bestLen: nat, bestWeight: nat, last: nat, best: seq<nat>)
    requires SortedBySource(pool) && last < |pool| && Leads(pool, bestLen, bestWeight, last, |pool|)
    requires Reading(pool, last, -1, best)
    ensures BestChain(pool, best) && best != []
    ensures forall k, l :: 0 <= k < l < |best| ==> best[k] < best[l]
  {
    hide Opt;
    forall others | Chain(pool, others) ensures !Beats(Worth(pool, others), Worth(pool, best)) {
      if others != [] { ChainBound(pool, others); }
    }
  }

  // ---------------------------------------------------------------- peeling the pool

  /** Two items that one chain can hold. */
  predicate InOrder(a: Item, b: Item) {
    Precedes(a, b) || Precedes(b, a)
  }

  ghost predicate DistinctIndexes(pool: seq<Item>) {
    forall k, l :: 0 <= k < l < |pool| ==> pool[k].index != pool[l].index
  }

  /** The items of the pool that are not in the group. */
  function Without(pool: seq<Item>, group: set<nat>): seq<Item> {
    if pool == [] then []
    else (if pool[0].index in group then [] else [pool[0]]) + Without(pool[1..], group)
  }

  lemma {:induction false} WithoutMembers(pool: seq<Item>, group: set<nat>)
    ensures forall a :: a in Without(pool, group) <==> a in pool && a.index !in group
    ensures |Without(pool, group)| <= |pool|
    ensures (exists a :: a in pool && a.index in group) ==> |Without(pool, group)| < |pool|
  {
    if pool != [] {
      assert pool == [pool[0]] + pool[1..];
      WithoutMembers(pool[1..], group);
    }
  }

  lemma {:induction false} WithoutSorted(pool: seq<Item>, group: set<nat>)
    requires SortedBySource(pool)
    ensures SortedBySource(Without(pool, group))
  {
    if pool != [] {
      WithoutSorted(pool[1..], group);
      WithoutMembers(pool[1..], group);
      var rest := Without(pool[1..], group);
      forall k | 0 <= k < |rest| ensures pool[0].srcStart <= rest[k].srcStart {
        assert rest[k] in pool[1..];
      }
    }
  }

  lemma {:induction false} WithoutDistinct(pool: seq<Item>, group: set<nat>)
    requires DistinctIndexes(pool)
    ensures DistinctIndexes(Without(pool, group))
  {
    if pool != [] {
      WithoutDistinct(pool[1..], group);
      WithoutMembers(pool[1..], group);
      var rest := Without(pool[1..], group);
      forall k | 0 <= k < |rest| ensures pool[0].index != rest[k].index {
        assert rest[k] in pool[1..];
      }
    }
  }

  /** The groups given out so far, from first up to next, among the items of the whole pool. */
  ghost predicate Grouped(whole: seq<Item>, ids: map<nat, nat>, before: map<nat, nat>, first: nat, next: nat) {
    && first <= next
    && (forall x :: x in before ==> x in ids && ids[x] == before[x])
    && (forall x :: x in ids && x !in before ==> first <= ids[x] < next)
    && (forall a, b :: a in whole && b in whole && a != b && SameGroup(ids, before, a, b) ==> InOrder(a, b))
    && forall g :: first <= g < next ==> HasTwo(whole, ids, before, g)
  }

  ghost predicate SameGroup(ids: map<nat, nat>, before: map<nat, nat>, a: Item, b: Item) {
    a.index in ids && b.index in ids && a.index !in before && b.index !in before && ids[a.index] == ids[b.index]
  }

  ghost predicate HasTwo(whole: seq<Item>, ids: map<nat, nat>, before: map<nat, nat>, g: nat) {
    exists a, b :: a in whole && b in whole && a != b && SameGroup(ids, before, a, b) && ids[a.index] == g
  }

  /** What is still in the pool: the items of the whole without a group. */
  ghost predicate Left(whole: seq<Item>, pool: seq<Item>, ids: map<nat, nat>) {
    && SortedBySource(pool) && DistinctIndexes(pool)
    && forall a :: a in pool <==> a in whole && a.index !in ids
  }

  /** The group of a chain, entered item by item. */
  method Assign(pool: seq<Item>, best: seq<nat>, ids: map<nat, nat>, gid: nat)
    returns (res: map<nat, nat>, group: set<nat>)
    requires forall k :: 0 <= k < |best| ==> best[k] < |pool|
    ensures group == set k | 0 <= k < |best| :: pool[best[k]].index
    ensures res.Keys == ids.Keys + group && forall x :: x in res ==> res[x] == if x in group then gid else ids[x]
  {
    res, group := ids, {};
    for k := 0 to |best|
      invariant group == set i | 0 <= i < k :: pool[best[i]].index
      invariant res.Keys == ids.Keys + group && forall x :: x in res ==> res[x] == if x in group then gid else ids[x]
    {
      var x := pool[best[k]].index;
      assert (set i | 0 <= i < k + 1 :: pool[best[i]].index) == group + {x};
      res := res[x := gid];
      group := group + {x};
    }
  }

  /** A chain of at least two is a new group, and what it leaves is a smaller pool. */
  lemma GroupStep(whole: seq<Item>, pool: seq<Item>, ids: map<nat, nat>, before: map<nat, nat>, first: nat, gid: nat,
                  best: seq<nat>, res: map<nat, nat>, group: set<nat>)
    requires Grouped(whole, ids, before, first, gid) && Left(whole, pool, ids) && DistinctIndexes(whole)
    requires Chain(pool, best) && |best| >= 2 && (forall k, l :: 0 <= k < l < |best| ==> best[k] < best[l])
    requires group == set k | 0 <= k < |best| :: pool[best[k]].index
    requires res.Keys == ids.Keys + group && forall x :: x in res ==> res[x] == if x in group then gid else ids[x]
    ensures Grouped(whole, res, before, first, gid + 1)
    ensures Left(whole, Without(pool, group), res) && |Without(pool, group)| < |pool|
  {
    var a0, b0 := pool[best[0]], pool[best[1]];
    assert a0 in pool && b0 in pool && a0.index in group && b0.index in group;
    assert best[0] < best[1] && a0 != b0;
    forall a, b | a in whole && b in whole && a != b && SameGroup(res, before, a, b) ensures InOrder(a, b) {
      if a.index in group && b.index in group {
        ChainItem(whole, pool, best, group, a);
        ChainItem(whole, pool, best, group, b);
        var k :| 0 <= k < |best| && pool[best[k]] == a;
        var l :| 0 <= l < |best| && pool[best[l]] == b;
      } else {
        assert SameGroup(ids, before, a, b);
      }
    }
    forall g | first <= g < gid + 1 ensures HasTwo(whole, res, before, g) {
      if g == gid {
        assert SameGroup(res, before, a0, b0);
      } else {
        assert HasTwo(whole, ids, before, g);
        var a, b :| a in whole && b in whole && a != b && SameGroup(ids, before, a, b) && ids[a.index] == g;
        assert SameGroup(res, before, a, b);
      }
    }
    WithoutMembers(pool, group);
    WithoutSorted(pool, group);
    WithoutDistinct(pool, group);
  }

  /** An item of the whole whose index is in the group is an item of the chain. */
  lemma ChainItem(whole: seq<Item>, pool: seq<Item>, best: seq<nat>, group: set<nat>, a: Item)
    requires DistinctIndexes(whole) && (forall x :: x in pool ==> x in whole) && a in whole && a.index in group
    requires forall k :: 0 <= k < |best| ==> best[k] < |pool|
    requires group == set k | 0 <= k < |best| :: pool[best[k]].index
    ensures exists k :: 0 <= k < |best| && pool[best[k]] == a
  {
    var k :| 0 <= k < |best| && pool[best[k]].index == a.index;
    var b := pool[best[k]];
    assert b in whole;
    var i :| 0 <= i < |whole| && whole[i] == a;
    var j :| 0 <= j < |whole| && whole[j] == b;
  }

  /** Two items in order would make a chain of two. */
  lemma PairChain(pool: seq<Item>, best: seq<nat>, a: Item, b: Item)
    requires BestChain(pool, best) && a in pool && b in pool && Precedes(a, b)
    ensures |best| >= 2
  {
    var i :| 0 <= i < |pool| && pool[i] == a;
    var j :| 0 <= j < |pool| && pool[j] == b;
    assert Chain(pool, [i, j]);
    assert Worth(pool, [i, j]).length == 2;
  }

  /** No two items still in the pool could share a group. */
  ghost predicate Scattered(pool: seq<Item>) {
    forall a, b :: a in pool && b in pool ==> !Precedes(a, b)
  }

  /** The items that no group before g took, in the order of the pool. */
  function From(whole: seq<Item>, ids: map<nat, nat>, g: nat): seq<Item> {
    if whole == [] then []
    else (if whole[0].index in ids && ids[whole[0].index] < g then [] else [whole[0]]) + From(whole[1..], ids, g)
  }

  predicate InGroup(ids: map<nat, nat>, g: nat, a: Item) {
    a.index in ids && ids[a.index] == g
  }

  ghost predicate Picks(pool: seq<Item>, qs: seq<nat>, a: Item) {
    exists k :: 0 <= k < |qs| && qs[k] < |pool| && pool[qs[k]] == a
  }

  /** Group g is the best chain of what the groups before it left. */
  ghost predicate GroupBest(whole: seq<Item>, ids: map<nat, nat>, g: nat) {
    var pool := From(whole, ids, g);
    exists qs :: BestChain(pool, qs) && forall a :: a in whole ==> (InGroup(ids, g, a) <==> Picks(pool, qs, a))
  }

  ghost predicate AllBest(whole: seq<Item>, ids: map<nat, nat>, first: nat, next: nat) {
    forall g :: first <= g < next ==> GroupBest(whole, ids, g)
  }

  /** Later groups change nothing for earlier ones. */
  lemma {:induction false} FromSame(whole: seq<Item>, ids: map<nat, nat>, res: map<nat, nat>, g: nat)
    requires forall x :: x in ids ==> x in res && res[x] == ids[x]
    requires forall x :: x in res && x !in ids ==> res[x] >= g
    ensures From(whole, ids, g) == From(whole, res, g)
  {
    if whole != [] { FromSame(whole[1..], ids, res, g); }
  }

  /** Taking a group out of what is left leaves what the next one starts from. */
  lemma {:induction false} FromWithout(whole: seq<Item>, ids: map<nat, nat>, res: map<nat, nat>, gid: nat,
                                       group: set<nat>)
    requires forall a :: a in whole && a.index in ids ==> ids[a.index] < gid
    requires res.Keys == ids.Keys + group && forall x :: x in res ==> res[x] == if x in group then gid else ids[x]
    requires forall x :: x in group ==> x !in ids
    ensures Without(From(whole, ids, gid), group) == From(whole, res, gid + 1)
  {
    if whole != [] {
      assert whole[0] in whole;
      FromWithout(whole[1..], ids, res, gid, group);
      var rest := From(whole[1..], ids, gid);
      assert ([whole[0]] + rest)[1..] == rest && [] + rest == rest;
    }
  }

  lemma {:induction false} FromAll(whole: seq<Item>, ids: map<nat, nat>, g: nat)
    requires forall a :: a in whole ==> a.index !in ids
    ensures From(whole, ids, g) == whole
  {
    if whole != [] {
      assert whole[0] in whole;
      FromAll(whole[1..], ids, g);
    }
  }

  /** One more group, and all of them are still best. */
  lemma BestStep(whole: seq<Item>, pool: seq<Item>, ids: map<nat, nat>, first: nat, gid: nat,
                 best: seq<nat>, res: map<nat, nat>, group: set<nat>)
    requires AllBest(whole, ids, first, gid) && pool == From(whole, ids, gid) && BestChain(pool, best)
    requires DistinctIndexes(whole) && forall a :: a in pool ==> a in whole && a.index !in ids
    requires forall a :: a in whole && a.index in ids ==> ids[a.index] < gid
    requires group == set k | 0 <= k < |best| :: pool[best[k]].index
    requires res.Keys == ids.Keys + group && forall x :: x in res ==> res[x] == if x in group then gid else ids[x]
    ensures AllBest(whole, res, first, gid + 1) && Without(pool, group) == From(whole, res, gid + 1)
  {
    hide Without;
    forall x | x in group ensures x !in ids {
      var k :| 0 <= k < |best| && pool[best[k]].index == x;
      assert pool[best[k]] in pool;
    }
    FromWithout(whole, ids, res, gid, group);
    hide From;
    forall g | first <= g < gid + 1 ensures GroupBest(whole, res, g) {
      FromSame(whole, ids, res, g);
      if g == gid {
        forall a | a in whole ensures InGroup(res, gid, a) <==> Picks(pool, best, a) {
          PicksGroup(whole, pool, best, group, a);
        }
      } else {
        GroupStays(whole, ids, res, g, gid);
      }
    }
  }

  lemma GroupStays(whole: seq<Item>, ids: map<nat, nat>, res: map<nat, nat>, g: nat, gid: nat)
    requires GroupBest(whole, ids, g) && g < gid && From(whole, ids, g) == From(whole, res, g)
    requires forall x :: x in ids ==> x in res && res[x] == ids[x]
    requires forall x :: x in res && x !in ids ==> res[x] == gid
    ensures GroupBest(whole, res, g)
  {
    hide BestChain, Picks, From;
    var pool := From(whole, ids, g);
    var qs :| BestChain(pool, qs) && forall a :: a in whole ==> (InGroup(ids, g, a) <==> Picks(pool, qs, a));
    forall a | a in whole ensures InGroup(res, g, a) <==> Picks(pool, qs, a) {
      assert InGroup(res, g, a) <==> InGroup(ids, g, a);
    }
  }

  lemma PicksGroup(whole: seq<Item>, pool: seq<Item>, best: seq<nat>, group: set<nat>, a: Item)
    requires DistinctIndexes(whole) && (forall x :: x in pool ==> x in whole) && a in whole
    requires forall k :: 0 <= k < |best| ==> best[k] < |pool|
    requires group == set k | 0 <= k < |best| :: pool[best[k]].index
    ensures a.index in group <==> Picks(pool, best, a)
  {
    if a.index in group { ChainItem(whole, pool, best, group, a); }
  }

  /**
    * The peeling: every group is the best chain of what the groups before it left, and has at least two items;
    * no item is in two groups, and no two of the items left over could have shared one.
    */
  method Peel(resolved: seq<Item>, before: map<nat, nat>, first: nat) returns (ids: map<nat, nat>, next: nat)
    requires SortedBySource(resolved) && DistinctIndexes(resolved) && forall a :: a in resolved ==> a.index !in before
    ensures Grouped(resolved, ids, before, first, next) && AllBest(resolved, ids, first, next)
    ensures forall a, b :: a in resolved && b in resolved && a.index !in ids && b.index !in ids ==> !Precedes(a, b)
  {
    hide Grouped, Left, BestChain, Without, SortedBySource, DistinctIndexes, From, AllBest;
    ids, next := before, first;
    var pool := resolved;
    FromAll(resolved, before, first);
    NoneBest(resolved, before, first);
    NothingGrouped(resolved, before, first);
    while |pool| >= 2
      invariant Grouped(resolved, ids, before, first, next) && Left(resolved, pool, ids)
      invariant AllBest(resolved, ids, first, next) && pool == From(resolved, ids, next)
      decreases |pool|
    {
      LeftSorted(resolved, pool, ids);
      var best := ExtractLis(pool);
      if |best| < 2 {
        NoPairs(pool, best);
        break;
      }
      BestIsChain(pool, best);
      var res, group := Assign(pool, best, ids, next);
      GroupStep(resolved, pool, ids, before, first, next, best, res, group);
      LeftUngrouped(resolved, pool, ids, before, first, next);
      BestStep(resolved, pool, ids, first, next, best, res, group);
      ids, next := res, next + 1;
      pool := Without(pool, group);
    }
    if |pool| < 2 { AloneScattered(pool); }
    LeftOver(resolved, pool, ids);
  }

  lemma NothingGrouped(whole: seq<Item>, before: map<nat, nat>, first: nat)
    requires SortedBySource(whole) && DistinctIndexes(whole) && forall a :: a in whole ==> a.index !in before
    ensures Grouped(whole, before, before, first, first) && Left(whole, whole, before)
  {
  }

  lemma NoneBest(whole: seq<Item>, ids: map<nat, nat>, first: nat)
    ensures AllBest(whole, ids, first, first)
  {
  }

  lemma LeftUngrouped(whole: seq<Item>, pool: seq<Item>, ids: map<nat, nat>, before: map<nat, nat>, first: nat,
                      next: nat)
    requires Grouped(whole, ids, before, first, next) && Left(whole, pool, ids)
    requires forall a :: a in whole ==> a.index !in before
    ensures forall a :: a in pool ==> a in whole && a.index !in ids
    ensures forall a :: a in whole && a.index in ids ==> ids[a.index] < next
  {
  }

  lemma LeftSorted(whole: seq<Item>, pool: seq<Item>, ids: map<nat, nat>)
    requires Left(whole, pool, ids)
    ensures SortedBySource(pool)
  {
  }

  lemma BestIsChain(pool: seq<Item>, best: seq<nat>)
    requires BestChain(pool, best)
    ensures Chain(pool, best) && forall k :: 0 <= k < |best| ==> best[k] < |pool|
  {
  }

  lemma NoPairs(pool: seq<Item>, best: seq<nat>)
    requires BestChain(pool, best) && |best| < 2
    ensures Scattered(pool)
  {
    forall a, b | a in pool && b in pool ensures !Precedes(a, b) {
      if Precedes(a, b) { PairChain(pool, best, a, b); }
    }
  }

  lemma AloneScattered(pool: seq<Item>)
    requires |pool| < 2
    ensures Scattered(pool)
  {
  }

  lemma LeftOver(whole: seq<Item>, pool: seq<Item>, ids: map<nat, nat>)
    requires Left(whole, pool, ids) && Scattered(pool)
    ensures forall a, b :: a in whole && b in whole && a.index !in ids && b.index !in ids ==> !Precedes(a, b)
  {
  }
}
