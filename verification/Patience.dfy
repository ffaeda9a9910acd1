/** Patience sorting: the longest rising chain among values that are met one after the other. */
module Patience {

  /** Positions in increasing order whose values rise strictly. */
  ghost predicate Rising(v: seq<int>, qs: seq<nat>) {
    && (forall k :: 0 <= k < |qs| ==> qs[k] < |v|)
    && forall k, l :: 0 <= k < l < |qs| ==> qs[k] < qs[l] && v[qs[k]] < v[qs[l]]
  }

  ghost predicate LongestRising(v: seq<int>, qs: seq<nat>) {
    Rising(v, qs) && forall others :: Rising(v, others) ==> |others| <= |qs|
  }

  /** Pile k ends with tails[k], a position of rank k + 1 among the first c; the ends rise. */
  ghost predicate Ends(v: seq<int>, c: nat, tails: seq<nat>, rank: seq<nat>) {
    && |rank| == c <= |v|
    && (forall k :: 0 <= k < |tails| ==> tails[k] < c && rank[tails[k]] == k + 1)
    && forall k, l :: 0 <= k < l < |tails| ==> v[tails[k]] < v[tails[l]]
  }

  /** Position i, of rank r, does not lie below the end of its pile. */
  ghost predicate Above(v: seq<int>, tails: seq<nat>, i: nat, r: nat)
    requires i < |v|
  {
    1 <= r <= |tails| && tails[r - 1] < |v| && v[tails[r - 1]] <= v[i]
  }

  /** Every position met so far has a pile. */
  ghost predicate Piled(v: seq<int>, c: nat, tails: seq<nat>, rank: seq<nat>) {
    |rank| == c <= |v| && forall i: nat :: i < c ==> Above(v, tails, i, rank[i])
  }

  /** Ranks rise along every rising chain. */
  ghost predicate Ranked(v: seq<int>, c: nat, rank: seq<nat>) {
    |rank| == c <= |v| && forall i, k :: 0 <= i < k < c && v[i] < v[k] ==> rank[i] < rank[k]
  }

  ghost predicate Piles(v: seq<int>, c: nat, tails: seq<nat>, rank: seq<nat>) {
    Ends(v, c, tails, rank) && Piled(v, c, tails, rank) && Ranked(v, c, rank)
  }

  /** A position in play names a predecessor of the rank below, also in play. */
  ghost predicate Named(v: seq<int>, parent: seq<int>, rank: seq<nat>, live: set<int>, i: int)
    requires |parent| == |v| && |rank| <= |v|
  {
    && 0 <= i < |rank|
    && (rank[i] > 1 ==>
          0 <= parent[i] < i && parent[i] in live && rank[parent[i]] == rank[i] - 1 && v[parent[i]] < v[i])
  }

  ghost predicate Chained(v: seq<int>, c: nat, tails: seq<nat>, parent: seq<int>, rank: seq<nat>, live: set<int>) {
    && |parent| == |v| && |rank| == c <= |v|
    && (forall k :: 0 <= k < |tails| ==> tails[k] in live)
    && forall i {:trigger Named(v, parent, rank, live, i)} :: i in live ==> Named(v, parent, rank, live, i)
  }

  /** How many piles end below x. */
  ghost predicate IsLow(v: seq<int>, tails: seq<nat>, x: int, low: nat) {
    && low <= |tails|
    && (forall k :: 0 <= k < |tails| ==> tails[k] < |v|)
    && (forall k :: 0 <= k < low ==> v[tails[k]] < x)
    && forall k :: low <= k < |tails| ==> v[tails[k]] >= x
  }

  function Placed(tails: seq<nat>, low: nat, c: nat): seq<nat>
    requires low <= |tails|
  {
    if low == |tails| then tails + [c] else tails[low := c]
  }

  lemma RankRises(v: seq<int>, c: nat, tails: seq<nat>, rank: seq<nat>, low: nat)
    requires Piled(v, c, tails, rank) && Ranked(v, c, rank) && c < |v| && IsLow(v, tails, v[c], low)
    ensures Ranked(v, c + 1, rank + [low + 1])
  {
    var rank2 := rank + [low + 1];
    forall i: nat, k: nat | i < k < c + 1 && v[i] < v[k] ensures rank2[i] < rank2[k] {
      if k == c { assert Above(v, tails, i, rank[i]); } else { assert rank[i] < rank[k]; }
    }
  }

  lemma EndsKept(v: seq<int>, c: nat, tails: seq<nat>, rank: seq<nat>, low: nat)
    requires Ends(v, c, tails, rank) && c < |v| && IsLow(v, tails, v[c], low)
    ensures Ends(v, c + 1, Placed(tails, low, c), rank + [low + 1])
  {
    var tails2 := Placed(tails, low, c);
    forall k, l | 0 <= k < l < |tails2| ensures v[tails2[k]] < v[tails2[l]] {
      if k == low { assert v[tails[low]] < v[tails[l]]; }
    }
  }

  lemma PiledKept(v: seq<int>, c: nat, tails: seq<nat>, rank: seq<nat>, low: nat)
    requires Piled(v, c, tails, rank) && c < |v| && IsLow(v, tails, v[c], low)
    ensures Piled(v, c + 1, Placed(tails, low, c), rank + [low + 1])
  {
    var tails2, rank2 := Placed(tails, low, c), rank + [low + 1];
    forall i: nat | i < c + 1 ensures Above(v, tails2, i, rank2[i]) {
      if i < c {
        assert Above(v, tails, i, rank[i]);
        assert rank[i] - 1 == low ==> v[c] <= v[tails[low]];
      }
    }
  }

  /** Placing the next position on its pile keeps the piles right. */
  lemma PlaceKeeps(v: seq<int>, c: nat, tails: seq<nat>, rank: seq<nat>, low: nat)
    requires Piles(v, c, tails, rank) && c < |v| && IsLow(v, tails, v[c], low)
    ensures Piles(v, c + 1, Placed(tails, low, c), rank + [low + 1])
  {
    hide Ends, Piled, Ranked, Placed;
    EndsKept(v, c, tails, rank, low);
    PiledKept(v, c, tails, rank, low);
    RankRises(v, c, tails, rank, low);
  }

  /** So does leaving out a value that already ends its pile. */
  lemma SkipKeeps(v: seq<int>, c: nat, tails: seq<nat>, rank: seq<nat>, low: nat)
    requires Piles(v, c, tails, rank) && c < |v| && IsLow(v, tails, v[c], low) && low < |tails| && v[tails[low]] == v[c]
    ensures Piles(v, c + 1, tails, rank + [low + 1])
  {
    hide Ranked;
    RankRises(v, c, tails, rank, low);
    var rank2 := rank + [low + 1];
    forall i: nat | i < c + 1 ensures Above(v, tails, i, rank2[i]) {
      if i < c { assert Above(v, tails, i, rank[i]); }
    }
  }

  lemma PlaceChains(v: seq<int>, c: nat, tails: seq<nat>, parent: seq<int>, rank: seq<nat>, live: set<int>, low: nat,
                    p: int)
    requires Piles(v, c, tails, rank) && Chained(v, c, tails, parent, rank, live)
    requires c < |v| && IsLow(v, tails, v[c], low) && (low > 0 ==> p == tails[low - 1])
    ensures Chained(v, c + 1, Placed(tails, low, c), parent[c := p], rank + [low + 1], live + {c})
  {
    hide Piled, Ranked;
    var parent2, rank2, live2 := parent[c := p], rank + [low + 1], live + {c};
    forall i {:trigger Named(v, parent2, rank2, live2, i)} | i in live2 ensures Named(v, parent2, rank2, live2, i) {
      if i in live { assert Named(v, parent, rank, live, i); }
    }
  }

  lemma SkipChains(v: seq<int>, c: nat, tails: seq<nat>, parent: seq<int>, rank: seq<nat>, live: set<int>, r: nat)
    requires Chained(v, c, tails, parent, rank, live) && c < |v|
    ensures Chained(v, c + 1, tails, parent, rank + [r], live)
  {
    forall i | i in live ensures Named(v, parent, rank + [r], live, i) {
      assert Named(v, parent, rank, live, i);
    }
  }

  /** No rising chain is longer than the number of piles. */
  lemma {:induction false} RankBound(v: seq<int>, tails: seq<nat>, rank: seq<nat>, qs: seq<nat>, k: nat)
    requires Piles(v, |v|, tails, rank) && Rising(v, qs) && k < |qs|
    ensures k + 1 <= rank[qs[k]] <= |tails|
  {
    assert Above(v, tails, qs[k], rank[qs[k]]);
    if k > 0 { RankBound(v, tails, rank, qs, k - 1); }
  }

  lemma ChainBound(v: seq<int>, tails: seq<nat>, rank: seq<nat>, qs: seq<nat>)
    requires Piles(v, |v|, tails, rank) && Rising(v, qs)
    ensures |qs| <= |tails|
  {
    if qs != [] { RankBound(v, tails, rank, qs, |qs| - 1); }
  }

  /** What reading back has come to: a rising chain, and the position to put before it. */
  ghost predicate Reading(v: seq<int>, rank: seq<nat>, live: set<int>, qs: seq<nat>, curr: int, k: nat) {
    && Rising(v, qs) && |rank| == |v|
    && (k > 0 ==>
          0 <= curr < |v| && curr in live && rank[curr] == k && (qs != [] ==> curr < qs[0] && v[curr] < v[qs[0]]))
  }

  lemma ReadOn(v: seq<int>, tails: seq<nat>, parent: seq<int>, rank: seq<nat>, live: set<int>, qs: seq<nat>,
               curr: nat, k: nat)
    requires Chained(v, |v|, tails, parent, rank, live) && k > 0 && Reading(v, rank, live, qs, curr, k)
    ensures curr < |parent| && Reading(v, rank, live, [curr] + qs, parent[curr], k - 1)
  {
    assert Named(v, parent, rank, live, curr);
  }

  /** The first pile whose end is not below x, by bisection. */
  method LowerBound(v: seq<int>, tails: seq<nat>, x: int) returns (low: nat)
    requires forall k :: 0 <= k < |tails| ==> tails[k] < |v|
    requires forall k, l :: 0 <= k < l < |tails| ==> v[tails[k]] < v[tails[l]]
    ensures IsLow(v, tails, x, low)
  {
    var high := |tails|;
    low := 0;
    while low < high
      invariant low <= high <= |tails|
      invariant forall k :: 0 <= k < low ==> v[tails[k]] < x
      invariant forall k :: high <= k < |tails| ==> v[tails[k]] >= x
    {
      var mid := (low + high) / 2;
      if v[tails[mid]] < x { low := mid + 1; } else { high := mid; }
    }
  }

  /** The chain read back from the last pile along the predecessors. */
  method ReadBack(v: seq<int>, tails: seq<nat>, parent: array<int>, ghost rank: seq<nat>, ghost live: set<int>)
    returns (qs: seq<nat>)
    requires tails != [] && Piles(v, |v|, tails, rank) && Chained(v, |v|, tails, parent[..], rank, live)
    ensures LongestRising(v, qs) && |qs| == |tails|
  {
    hide Piles, Chained, Rising, Reading;
    var curr: int := tails[|tails| - 1];
    var k := |tails|;
    qs := [];
    ReadFirst(v, tails, parent[..], rank, live);
    while k > 0
      invariant 0 <= k <= |tails| && |qs| == |tails| - k && Reading(v, rank, live, qs, curr, k)
    {
      ReadingAt(v, rank, live, qs, curr, k);
      ReadOn(v, tails, parent[..], rank, live, qs, curr, k);
      qs := [curr] + qs;
      curr := parent[curr];
      k := k - 1;
    }
    ReadingAt(v, rank, live, qs, curr, 0);
    forall others | Rising(v, others) ensures |others| <= |qs| { ChainBound(v, tails, rank, others); }
  }

  lemma ReadFirst(v: seq<int>, tails: seq<nat>, parent: seq<int>, rank: seq<nat>, live: set<int>)
    requires tails != [] && Piles(v, |v|, tails, rank) && Chained(v, |v|, tails, parent, rank, live)
    ensures Reading(v, rank, live, [], tails[|tails| - 1], |tails|) && |parent| == |v|
  {
  }

  lemma ReadingAt(v: seq<int>, rank: seq<nat>, live: set<int>, qs: seq<nat>, curr: int, k: nat)
    requires Reading(v, rank, live, qs, curr, k)
    ensures Rising(v, qs) && (k > 0 ==> 0 <= curr < |v|)
  {
  }

  lemma NoPiles(v: seq<int>, parent: seq<int>)
    requires |parent| == |v|
    ensures Piles(v, 0, [], []) && Chained(v, 0, [], parent, [], {})
  {
  }

  lemma EndsRise(v: seq<int>, c: nat, tails: seq<nat>, rank: seq<nat>)
    requires Piles(v, c, tails, rank)
    ensures forall k :: 0 <= k < |tails| ==> tails[k] < |v|
    ensures forall k, l :: 0 <= k < l < |tails| ==> v[tails[k]] < v[tails[l]]
  {
  }

  lemma LowBound(v: seq<int>, tails: seq<nat>, x: int, low: nat, c: nat)
    requires IsLow(v, tails, x, low)
    ensures low <= |tails| && Placed(tails, low, c) != [] && (low < |tails| ==> tails[low] < |v|)
  {
  }

  lemma {:induction false} NoLonger(v: seq<int>, qs: seq<nat>, k: nat)
    requires Rising(v, qs) && k < |qs|
    ensures k <= qs[k]
  {
    if k > 0 { NoLonger(v, qs, k - 1); }
  }

  lemma NoChainIfEmpty(v: seq<int>)
    ensures v == [] ==> LongestRising(v, [])
  {
    forall others | Rising(v, others) ensures |others| <= |v| {
      if others != [] { NoLonger(v, others, |others| - 1); }
    }
  }

  /** Position c goes on the first pile whose end is not below it, with the end of the pile before as predecessor. */
  method Place(v: seq<int>, c: nat, tails: seq<nat>, parent: array<int>, ghost rank: seq<nat>, ghost live: set<int>,
               low: nat)
    returns (tails2: seq<nat>)
    requires Piles(v, c, tails, rank) && Chained(v, c, tails, parent[..], rank, live)
    requires c < |v| == parent.Length && IsLow(v, tails, v[c], low)
    modifies parent
    ensures tails2 != [] && Piles(v, c + 1, tails2, rank + [low + 1])
    ensures Chained(v, c + 1, tails2, parent[..], rank + [low + 1], live + {c})
  {
    hide Piles, Chained, Placed, IsLow;
    LowBound(v, tails, v[c], low, c);
    PlaceKeeps(v, c, tails, rank, low);
    PlaceChains(v, c, tails, parent[..], rank, live, low, if low > 0 then tails[low - 1] else parent[c]);
    if low > 0 { parent[c] := tails[low - 1]; }
    assert parent[..] == old(parent[..])[c := if low > 0 then tails[low - 1] else old(parent[c])];
    tails2 := Placed(tails, low, c);
  }

  /** The longest rising chain, every position placed on a pile. */
  method LongestByPlacing(v: seq<int>) returns (qs: seq<nat>)
    ensures LongestRising(v, qs)
  {
    hide Piles, Chained, IsLow, LongestRising;
    NoChainIfEmpty(v);
    if v == [] { return []; }
    var parent := new int[|v|](_ => -1);
    var tails: seq<nat> := [];
    ghost var rank: seq<nat> := [];
    ghost var live: set<int> := {};
    NoPiles(v, parent[..]);
    for c := 0 to |v|
      invariant Piles(v, c, tails, rank) && Chained(v, c, tails, parent[..], rank, live)
      invariant c > 0 ==> tails != []
    {
      EndsRise(v, c, tails, rank);
      var low := LowerBound(v, tails, v[c]);
      tails := Place(v, c, tails, parent, rank, live, low);
      rank, live := rank + [low + 1], live + {c};
    }
    qs := ReadBack(v, tails, parent, rank, live);
  }

  /** The longest rising chain, values that already end a pile passed over. */
  method LongestBySkipping(v: seq<int>) returns (qs: seq<nat>)
    ensures LongestRising(v, qs)
  {
    hide Piles, Chained, IsLow, LongestRising;
    NoChainIfEmpty(v);
    if v == [] { return []; }
    var parent := new int[|v|](_ => -1);
    var tails: seq<nat> := [];
    ghost var rank: seq<nat> := [];
    ghost var live: set<int> := {};
    NoPiles(v, parent[..]);
    for c := 0 to |v|
      invariant Piles(v, c, tails, rank) && Chained(v, c, tails, parent[..], rank, live)
      invariant c > 0 ==> tails != []
    {
      EndsRise(v, c, tails, rank);
      var low := LowerBound(v, tails, v[c]);
      LowBound(v, tails, v[c], low, c);
      if low < |tails| && v[tails[low]] == v[c] {
        SkipKeeps(v, c, tails, rank, low);
        SkipChains(v, c, tails, parent[..], rank, live, low + 1);
      } else {
        tails := Place(v, c, tails, parent, rank, live, low);
        live := live + {c};
      }
      rank := rank + [low + 1];
    }
    qs := ReadBack(v, tails, parent, rank, live);
  }
}
