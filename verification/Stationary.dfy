/** The index that answers whether a pair of lines crosses a stationary statement. */
module Stationary {
  import opened Anchors
  import opened Numbers

  /** One of the statements lies before on one side and after on the other. */
  ghost predicate CrossesSome(stmts: map<nat, nat>, s: int, d: int) {
    exists a :: a in stmts && ((a < s && stmts[a] > d) || (a > s && stmts[a] < d))
  }

  /** The statements in source order. */
  ghost predicate Lists(stmts: seq<Anchor>, m: map<nat, nat>) {
    && (forall k, l :: 0 <= k < l < |stmts| ==> stmts[k].src < stmts[l].src)
    && (forall k :: 0 <= k < |stmts| ==> stmts[k].src in m && m[stmts[k].src] == stmts[k].dst)
    && forall a :: a in m ==> exists k :: 0 <= k < |stmts| && stmts[k].src == a
  }

  /** v is the greatest target line among the statements from lo up to hi. */
  ghost predicate IsMax(stmts: seq<Anchor>, lo: nat, hi: nat, v: int) {
    && (exists k :: lo <= k < hi && k < |stmts| && stmts[k].dst == v)
    && forall k :: lo <= k < hi && k < |stmts| ==> stmts[k].dst <= v
  }

  /** v is the least. */
  ghost predicate IsMin(stmts: seq<Anchor>, lo: nat, hi: nat, v: int) {
    && (exists k :: lo <= k < hi && k < |stmts| && stmts[k].dst == v)
    && forall k :: lo <= k < hi && k < |stmts| ==> stmts[k].dst >= v
  }

  /** The statements put in order so far; the rest lie behind them. */
  ghost predicate Sorting(stmts: seq<Anchor>, m: map<nat, nat>, rest: set<nat>) {
    && rest <= m.Keys
    && (forall k, l :: 0 <= k < l < |stmts| ==> stmts[k].src < stmts[l].src)
    && (forall k :: 0 <= k < |stmts| ==> stmts[k].src in m && m[stmts[k].src] == stmts[k].dst)
    && (forall k, a :: 0 <= k < |stmts| && a in rest ==> stmts[k].src < a)
    && forall a :: a in m && a !in rest ==> Has(stmts, a)
  }

  ghost predicate Has(stmts: seq<Anchor>, a: nat) {
    exists k :: 0 <= k < |stmts| && stmts[k].src == a
  }

  lemma SortNext(stmts: seq<Anchor>, m: map<nat, nat>, rest: set<nat>, a: nat)
    requires Sorting(stmts, m, rest) && a in rest && forall b :: b in rest ==> a <= b
    ensures Sorting(stmts + [Anchor(a, m[a])], m, rest - {a})
  {
    var more := stmts + [Anchor(a, m[a])];
    assert more[|stmts|].src == a;
    forall b | b in m && b !in rest - {a} ensures Has(more, b) {
      if b != a {
        assert Has(stmts, b);
        var k :| 0 <= k < |stmts| && stmts[k].src == b;
        assert more[k].src == b;
      }
    }
  }

  /** The statements of a map in source order. */
  method SortedStatements(m: map<nat, nat>) returns (stmts: seq<Anchor>)
    ensures Lists(stmts, m)
  {
    stmts := [];
    var rest := m.Keys;
    while rest != {}
      invariant Sorting(stmts, m, rest)
      decreases rest
    {
      var a := Least(rest);
      SortNext(stmts, m, rest, a);
      stmts := stmts + [Anchor(a, m[a])];
      rest := rest - {a};
    }
    forall a | a in m ensures exists k :: 0 <= k < |stmts| && stmts[k].src == a {
      assert Has(stmts, a);
    }
  }

  method Least(s: set<nat>) returns (a: nat)
    requires s != {}
    ensures a in s && forall b :: b in s ==> a <= b
  {
    a :| a in s;
    var rest := s - {a};
    while rest != {}
      invariant rest <= s && a in s && forall b :: b in s && b !in rest ==> a <= b
      decreases rest
    {
      var b :| b in rest;
      if b < a { a := b; }
      rest := rest - {b};
    }
  }

  /** What the constructor leaves: the statements in order, the greatest target before and the least from each on. */
  class StationaryIndex {
    var stmts: seq<Anchor>
    var prefixMaxD: array<int>
    var suffixMinD: array<int>

    ghost predicate Valid(m: map<nat, nat>)
      reads this, prefixMaxD, suffixMinD
    {
      && Lists(stmts, m) && prefixMaxD.Length == |stmts| == suffixMinD.Length
      && (forall i :: 0 <= i < |stmts| ==> IsMax(stmts, 0, i + 1, prefixMaxD[i]))
      && forall i :: 0 <= i < |stmts| ==> IsMin(stmts, i, |stmts|, suffixMinD[i])
    }

    constructor (stationary: map<nat, nat>)
      requires stationary != map[]
      ensures Valid(stationary)
    {
      var sorted := SortedStatements(stationary);
      stmts := sorted;
      var pre := Prefixes(sorted);
      var suf := Suffixes(sorted);
      prefixMaxD, suffixMinD := pre, suf;
    }

    /** The first statement not before source line s. */
    method Search(s: int, ghost m: map<nat, nat>) returns (pos: nat)
      requires Valid(m)
      ensures pos <= |stmts| && (forall k :: 0 <= k < pos ==> stmts[k].src < s)
      ensures forall k :: pos <= k < |stmts| ==> stmts[k].src >= s
    {
      pos := 0;
      var high := |stmts|;
      while pos < high
        invariant pos <= high <= |stmts|
        invariant forall k :: 0 <= k < pos ==> stmts[k].src < s
        invariant forall k :: high <= k < |stmts| ==> stmts[k].src >= s
      {
        var mid := (pos + high) / 2;
        if stmts[mid].src < s { pos := mid + 1; } else { high := mid; }
      }
    }

    /** Two lookups answer exactly whether some statement is crossed. */
    method CrossesIn(s: int, d: int, ghost m: map<nat, nat>) returns (r: bool)
      requires Valid(m)
      ensures r <==> CrossesSome(m, s, d)
    {
      var n := |stmts|;
      var pos := Search(s, m);
      if pos > 0 && prefixMaxD[pos - 1] > d {
        assert IsMax(stmts, 0, pos, prefixMaxD[pos - 1]);
        return true;
      }
      var next := pos;
      if next < n && stmts[next].src == s { next := next + 1; }
      if next < n && suffixMinD[next] < d {
        assert IsMin(stmts, next, n, suffixMinD[next]);
        return true;
      }
      assert pos > 0 ==> IsMax(stmts, 0, pos, prefixMaxD[pos - 1]);
      assert next < n ==> IsMin(stmts, next, n, suffixMinD[next]);
      forall a | a in m && a < s ensures m[a] <= d {
        var k :| 0 <= k < |stmts| && stmts[k].src == a;
      }
      forall a | a in m && a > s ensures m[a] >= d {
        var k :| 0 <= k < |stmts| && stmts[k].src == a;
      }
      return false;
    }
  }

  method Prefixes(stmts: seq<Anchor>) returns (res: array<int>)
    requires stmts != []
    ensures fresh(res) && res.Length == |stmts| && forall i :: 0 <= i < |stmts| ==> IsMax(stmts, 0, i + 1, res[i])
  {
    res := new int[|stmts|];
    var maxD: int := stmts[0].dst;
    for i := 0 to |stmts|
      invariant if i == 0 then maxD == stmts[0].dst else IsMax(stmts, 0, i, maxD)
      invariant forall k :: 0 <= k < i ==> IsMax(stmts, 0, k + 1, res[k])
    {
      maxD := Max(maxD, stmts[i].dst);
      assert stmts[i].dst <= maxD;
      res[i] := maxD;
    }
  }

  method Suffixes(stmts: seq<Anchor>) returns (res: array<int>)
    requires stmts != []
    ensures fresh(res) && res.Length == |stmts| && forall i :: 0 <= i < |stmts| ==> IsMin(stmts, i, |stmts|, res[i])
  {
    res := new int[|stmts|];
    var n := |stmts|;
    var minD: int := stmts[n - 1].dst;
    var i := n;
    while i > 0
      invariant 0 <= i <= n
      invariant if i == n then minD == stmts[n - 1].dst else IsMin(stmts, i, n, minD)
      invariant forall k :: i <= k < n ==> IsMin(stmts, k, n, res[k])
    {
      i := i - 1;
      minD := Min(minD, stmts[i].dst);
      assert stmts[i].dst >= minD;
      res[i] := minD;
    }
  }

  /** The index of the stationary statements; none when there are no statements. */
  method NewStationaryIndex(stationary: map<nat, nat>) returns (idx: StationaryIndex?)
    ensures if stationary == map[] then idx == null else idx != null && fresh(idx) && idx.Valid(stationary)
  {
    if |stationary| == 0 { return null; }
    idx := new StationaryIndex(stationary);
  }

  /** With or without an index, the answer is whether some statement is crossed. */
  method Crosses(idx: StationaryIndex?, s: int, d: int, ghost m: map<nat, nat>) returns (r: bool)
    requires if idx == null then m == map[] else idx.Valid(m)
    ensures r <==> CrossesSome(m, s, d)
  {
    if idx == null { return false; }
    r := idx.CrossesIn(s, d, m);
  }
}
