/** What the forest distance means: the least cost of a mapping that keeps order and ancestry. */
module TreeMappings {
  import opened ForestDistance

  /** Pairs of positions, one of either tree. */
  type Mapped = seq<(nat, nat)>

  /** Position x lies below position y. */
  predicate Below(lld: seq<nat>, x: nat, y: nat) {
    y < |lld| && lld[y] <= x <= y
  }

  /** Pairs inside the two forests. */
  ghost predicate Spans(ms: Mapped, l1: nat, r1: nat, l2: nat, r2: nat) {
    forall k :: 0 <= k < |ms| ==> l1 <= ms[k].0 < r1 && l2 <= ms[k].1 < r2
  }

  /** One to one, keeping the order of the nodes and who lies below whom. */
  ghost predicate Keeps(t: Trees, ms: Mapped) {
    forall k, l :: 0 <= k < l < |ms| ==>
      && ms[k].0 < ms[l].0 && ms[k].1 < ms[l].1
      && (Below(t.lld1, ms[k].0, ms[l].0) <==> Below(t.lld2, ms[k].1, ms[l].1))
  }

  /** A mapping between two forests. */
  ghost predicate Valid(t: Trees, ms: Mapped, l1: nat, r1: nat, l2: nat, r2: nat) {
    Spans(ms, l1, r1, l2, r2) && Keeps(t, ms)
  }

  lemma KeepsPart(t: Trees, ms: Mapped, a: nat, b: nat)
    requires Keeps(t, ms) && a <= b <= |ms|
    ensures Keeps(t, ms[a..b])
  {
    var part := ms[a..b];
    forall k, l | 0 <= k < l < |part|
      ensures part[k].0 < part[l].0 && part[k].1 < part[l].1
      ensures Below(t.lld1, part[k].0, part[l].0) <==> Below(t.lld2, part[k].1, part[l].1)
    {
      assert part[k] == ms[a + k] && part[l] == ms[a + l];
    }
  }

  function Renames(t: Trees, ms: Mapped): int {
    if ms == [] then 0 else Renames(t, ms[1..]) + t.ren(ms[0].0, ms[0].1)
  }

  /** Mapped nodes are renamed, all others deleted or inserted. */
  function Cost(t: Trees, ms: Mapped, n1: int, n2: int): int {
    Renames(t, ms) + (n1 - |ms|) + (n2 - |ms|)
  }

  lemma {:induction false} RenamesConcat(t: Trees, a: Mapped, b: Mapped)
    ensures Renames(t, a + b) == Renames(t, a) + Renames(t, b)
  {
    if a == [] {
      assert a + b == b;
    } else {
      assert (a + b)[1..] == a[1..] + b;
      RenamesConcat(t, a[1..], b);
    }
  }

  lemma RenamesOne(t: Trees, p: (nat, nat))
    ensures Renames(t, [p]) == t.ren(p.0, p.1)
  {
    assert [p][1..] == [];
  }

  /** The first k pairs, and only those, start before f. */
  ghost predicate Splits(ms: Mapped, n: nat, k: nat, f: nat) {
    k <= n <= |ms| && forall i :: 0 <= i < n ==> (i < k <==> ms[i].0 < f)
  }

  lemma FindSplit(t: Trees, ms: Mapped, n: nat, f: nat) returns (k: nat)
    requires Keeps(t, ms) && n <= |ms|
    ensures Splits(ms, n, k, f)
  {
    hide Below;
    k := n;
    while k > 0 && ms[k - 1].0 >= f
      invariant k <= n && forall i :: k <= i < n ==> ms[i].0 >= f
    {
      k := k - 1;
    }
    assert k > 0 ==> forall i :: 0 <= i < k - 1 ==> ms[i].0 < ms[k - 1].0;
  }

  /** A mapping of the last roots splits into what is before them and what is below them. */
  lemma SplitMapping(t: Trees, ms: Mapped, l1: nat, r1: nat, l2: nat, r2: nat, k: nat)
    requires l1 < r1 <= |t.lld1| && l2 < r2 <= |t.lld2|
    requires Valid(t, ms, l1, r1, l2, r2) && ms != [] && ms[|ms| - 1] == (r1 - 1, r2 - 1)
    requires Splits(ms, |ms| - 1, k, t.lld1[r1 - 1])
    ensures Valid(t, ms[..k], l1, t.lld1[r1 - 1], l2, t.lld2[r2 - 1])
    ensures Valid(t, ms[k..|ms| - 1], t.lld1[r1 - 1], r1 - 1, t.lld2[r2 - 1], r2 - 1)
  {
    var f1, f2, last := t.lld1[r1 - 1], t.lld2[r2 - 1], |ms| - 1;
    KeepsPart(t, ms, 0, k);
    KeepsPart(t, ms, k, last);
    forall i | 0 <= i < last
      ensures ms[i].0 < r1 - 1 && ms[i].1 < r2 - 1 && (i < k <==> ms[i].0 < f1) && (i < k <==> ms[i].1 < f2)
    {
      assert Below(t.lld1, ms[i].0, ms[last].0) <==> Below(t.lld2, ms[i].1, ms[last].1);
    }
    hide Keeps;
    assert Spans(ms[..k], l1, f1, l2, f2);
    assert Spans(ms[k..last], f1, r1 - 1, f2, r2 - 1);
  }

  lemma CostSplit(t: Trees, ms: Mapped, k: nat, n1: int, n2: int, p1: int, p2: int)
    requires k < |ms|
    ensures Cost(t, ms, n1, n2)
         == Cost(t, ms[..k], p1, p2) + Cost(t, ms[k..|ms| - 1], n1 - 1 - p1, n2 - 1 - p2)
            + t.ren(ms[|ms| - 1].0, ms[|ms| - 1].1)
  {
    var last := ms[|ms| - 1];
    assert ms == ms[..k] + (ms[k..|ms| - 1] + [last]);
    RenamesConcat(t, ms[..k], ms[k..|ms| - 1] + [last]);
    RenamesConcat(t, ms[k..|ms| - 1], [last]);
    RenamesOne(t, last);
  }

  /** No mapping costs less than the forest distance. */
  lemma {:induction false} MappingBound(t: Trees, ms: Mapped, l1: nat, r1: nat, l2: nat, r2: nat)
    requires l1 <= r1 && l2 <= r2 && Cut(t.lld1, l1, r1) && Cut(t.lld2, l2, r2) && Nested(t.lld1) && Nested(t.lld2)
    requires Valid(t, ms, l1, r1, l2, r2)
    ensures D(t, l1, r1, l2, r2) <= Cost(t, ms, r1 - l1, r2 - l2)
    decreases (r1 - l1) + (r2 - l2), 1
  {
    hide Valid, Cost, Cut, Nested;
    if l1 == r1 && l2 == r2 {
      NothingMapped(t, ms, l1, l2);
      return;
    }
    if l1 < r1 { CutBelow(t.lld1, l1, r1); }
    if l2 < r2 { CutBelow(t.lld2, l2, r2); }
    if l1 < r1 && (ms == [] || ms[|ms| - 1].0 < r1 - 1) {
      DropLast(t, ms, l1, r1, l2, r2);
      MappingBound(t, ms, l1, r1 - 1, l2, r2);
    } else if l2 < r2 && (ms == [] || ms[|ms| - 1].1 < r2 - 1) {
      DropLast(t, ms, l1, r1, l2, r2);
      MappingBound(t, ms, l1, r1, l2, r2 - 1);
    } else {
      LastMapped(t, ms, l1, r1, l2, r2);
      BothMapped(t, ms, l1, r1, l2, r2);
    }
  }

  lemma {:induction false} BothMapped(t: Trees, ms: Mapped, l1: nat, r1: nat, l2: nat, r2: nat)
    requires l1 < r1 && l2 < r2 && Cut(t.lld1, l1, r1) && Cut(t.lld2, l2, r2) && Nested(t.lld1) && Nested(t.lld2)
    requires Valid(t, ms, l1, r1, l2, r2) && ms != [] && ms[|ms| - 1] == (r1 - 1, r2 - 1)
    ensures D(t, l1, r1, l2, r2) <= Cost(t, ms, r1 - l1, r2 - l2)
    decreases (r1 - l1) + (r2 - l2), 0
  {
    hide Spans, Keeps, Cost, Cut, Nested, D;
    CutBelow(t.lld1, l1, r1);
    CutBelow(t.lld2, l2, r2);
    var f1, f2 := t.lld1[r1 - 1], t.lld2[r2 - 1];
    var k := FindSplit(t, ms, |ms| - 1, f1);
    SplitMapping(t, ms, l1, r1, l2, r2, k);
    MappingBound(t, ms[..k], l1, f1, l2, f2);
    MappingBound(t, ms[k..|ms| - 1], f1, r1 - 1, f2, r2 - 1);
    CostSplit(t, ms, k, r1 - l1, r2 - l2, f1 - l1, f2 - l2);
    LastRoots(t, l1, r1, l2, r2);
  }

  lemma {:induction false} Spread(t: Trees, ms: Mapped, l1: nat, r1: nat, l2: nat, r2: nat, k: nat)
    requires Valid(t, ms, l1, r1, l2, r2) && k < |ms|
    ensures l1 + k <= ms[k].0 < r1
  {
    if k > 0 { Spread(t, ms, l1, r1, l2, r2, k - 1); }
  }

  lemma NothingMapped(t: Trees, ms: Mapped, l1: nat, l2: nat)
    requires Valid(t, ms, l1, l1, l2, l2)
    ensures ms == [] && Cost(t, ms, 0, 0) == 0
  {
    if |ms| > 0 { Spread(t, ms, l1, l1, l2, l2, 0); }
  }

  /** A mapping that leaves out the last root of one side is a mapping without it. */
  lemma DropLast(t: Trees, ms: Mapped, l1: nat, r1: nat, l2: nat, r2: nat)
    requires Valid(t, ms, l1, r1, l2, r2)
    ensures l1 < r1 <= |t.lld1| && (ms == [] || ms[|ms| - 1].0 < r1 - 1) ==>
      Valid(t, ms, l1, r1 - 1, l2, r2) && Cost(t, ms, r1 - l1, r2 - l2) == Cost(t, ms, r1 - 1 - l1, r2 - l2) + 1
    ensures l2 < r2 <= |t.lld2| && (ms == [] || ms[|ms| - 1].1 < r2 - 1) ==>
      Valid(t, ms, l1, r1, l2, r2 - 1) && Cost(t, ms, r1 - l1, r2 - l2) == Cost(t, ms, r1 - l1, r2 - 1 - l2) + 1
  {
  }

  lemma LastMapped(t: Trees, ms: Mapped, l1: nat, r1: nat, l2: nat, r2: nat)
    requires l1 <= r1 && l2 <= r2 && Valid(t, ms, l1, r1, l2, r2) && (l1 < r1 || l2 < r2)
    requires l1 < r1 ==> ms != [] && ms[|ms| - 1].0 >= r1 - 1
    requires l2 < r2 ==> ms != [] && ms[|ms| - 1].1 >= r2 - 1
    ensures l1 < r1 && l2 < r2 && ms != [] && ms[|ms| - 1] == (r1 - 1, r2 - 1)
  {
    var last := ms[|ms| - 1];
    assert l1 <= last.0 < r1 && l2 <= last.1 < r2;
  }

  /** What is before the last root is a forest, and so is what is below it. */
  lemma CutBelow(lld: seq<nat>, l: nat, r: nat)
    requires l < r && Cut(lld, l, r) && Nested(lld)
    ensures r <= |lld| && l <= lld[r - 1] < r && Cut(lld, l, lld[r - 1]) && Cut(lld, lld[r - 1], r - 1)
    ensures Cut(lld, l, r - 1)
  {
  }

  /** Mappings of what is before and what is below the last roots, with the roots added, make a mapping. */
  lemma JoinMappings(t: Trees, a: Mapped, b: Mapped, l1: nat, r1: nat, l2: nat, r2: nat)
    requires l1 < r1 && l2 < r2 && Cut(t.lld1, l1, r1) && Cut(t.lld2, l2, r2) && Nested(t.lld1) && Nested(t.lld2)
    requires Valid(t, a, l1, t.lld1[r1 - 1], l2, t.lld2[r2 - 1])
    requires Valid(t, b, t.lld1[r1 - 1], r1 - 1, t.lld2[r2 - 1], r2 - 1)
    ensures Valid(t, a + b + [(r1 - 1, r2 - 1)], l1, r1, l2, r2)
  {
    var f1, f2 := t.lld1[r1 - 1], t.lld2[r2 - 1];
    var ms: Mapped := a + b + [(r1 - 1, r2 - 1)];
    forall k, l | 0 <= k < l < |ms|
      ensures ms[k].0 < ms[l].0 && ms[k].1 < ms[l].1
      ensures Below(t.lld1, ms[k].0, ms[l].0) <==> Below(t.lld2, ms[k].1, ms[l].1)
    {
      if l < |a| {
        assert ms[k] == a[k] && ms[l] == a[l];
      } else if k >= |a| {
        if l < |a| + |b| { assert ms[k] == b[k - |a|] && ms[l] == b[l - |a|]; }
      } else {
        Apart(t.lld1, ms[k].0, ms[l].0, f1, r1);
        Apart(t.lld2, ms[k].1, ms[l].1, f2, r2);
      }
    }
  }

  /** Nothing before a cut lies below anything after it. */
  lemma Apart(lld: seq<nat>, x: nat, y: nat, f: nat, r: nat)
    requires 0 < r <= |lld| && f == lld[r - 1] && x < f <= y < r && Nested(lld)
    ensures !Below(lld, x, y)
  {
  }

  /** Some mapping costs exactly the forest distance. */
  lemma {:induction false} BestMapping(t: Trees, l1: nat, r1: nat, l2: nat, r2: nat) returns (ms: Mapped)
    requires l1 <= r1 && l2 <= r2 && Cut(t.lld1, l1, r1) && Cut(t.lld2, l2, r2) && Nested(t.lld1) && Nested(t.lld2)
    ensures Valid(t, ms, l1, r1, l2, r2) && Cost(t, ms, r1 - l1, r2 - l2) == D(t, l1, r1, l2, r2)
    decreases (r1 - l1) + (r2 - l2), 1
  {
    hide Valid, Cut, Nested;
    if l1 == r1 && l2 == r2 {
      ms := [];
      NoneValid(t, l1, r1, l2, r2);
      return;
    }
    if l1 < r1 { CutBelow(t.lld1, l1, r1); }
    if l2 < r2 { CutBelow(t.lld2, l2, r2); }
    if l1 < r1 && D(t, l1, r1, l2, r2) == D(t, l1, r1 - 1, l2, r2) + 1 {
      ms := BestMapping(t, l1, r1 - 1, l2, r2);
      Widen(t, ms, l1, r1 - 1, l2, r2, r1, r2);
    } else if l2 < r2 && D(t, l1, r1, l2, r2) == D(t, l1, r1, l2, r2 - 1) + 1 {
      ms := BestMapping(t, l1, r1, l2, r2 - 1);
      Widen(t, ms, l1, r1, l2, r2 - 1, r1, r2);
    } else {
      ms := JoinBest(t, l1, r1, l2, r2);
    }
  }

  /** The mapping that keeps both last roots. */
  lemma {:induction false} JoinBest(t: Trees, l1: nat, r1: nat, l2: nat, r2: nat) returns (ms: Mapped)
    requires l1 < r1 && l2 < r2 && Cut(t.lld1, l1, r1) && Cut(t.lld2, l2, r2) && Nested(t.lld1) && Nested(t.lld2)
    ensures Valid(t, ms, l1, r1, l2, r2)
    ensures Cost(t, ms, r1 - l1, r2 - l2)
         == D(t, l1, t.lld1[r1 - 1], l2, t.lld2[r2 - 1])
            + D(t, t.lld1[r1 - 1], r1 - 1, t.lld2[r2 - 1], r2 - 1) + t.ren(r1 - 1, r2 - 1)
    decreases (r1 - l1) + (r2 - l2), 0
  {
    hide Valid, Cut, Nested, D, Cost;
    CutBelow(t.lld1, l1, r1);
    CutBelow(t.lld2, l2, r2);
    var f1, f2 := t.lld1[r1 - 1], t.lld2[r2 - 1];
    var a := BestMapping(t, l1, f1, l2, f2);
    var b := BestMapping(t, f1, r1 - 1, f2, r2 - 1);
    JoinMappings(t, a, b, l1, r1, l2, r2);
    ms := a + b + [(r1 - 1, r2 - 1)];
    CostSplit(t, ms, |a|, r1 - l1, r2 - l2, f1 - l1, f2 - l2);
    assert ms[..|a|] == a && ms[|a|..|ms| - 1] == b;
  }

  lemma NoneValid(t: Trees, l1: nat, r1: nat, l2: nat, r2: nat)
    ensures Valid(t, [], l1, r1, l2, r2)
  {
  }

  lemma Widen(t: Trees, ms: Mapped, l1: nat, r1: nat, l2: nat, r2: nat, w1: nat, w2: nat)
    requires Valid(t, ms, l1, r1, l2, r2) && r1 <= w1 && r2 <= w2
    ensures Valid(t, ms, l1, w1, l2, w2)
  {
  }
}
