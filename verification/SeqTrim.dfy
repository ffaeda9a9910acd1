/** Trimming what two sequences share at both ends, and putting the ends back after aligning the middle. */
module SeqTrim {
  import opened SeqDiff
  import opened Numbers

  method TrimPrefix(n: nat, m: nat, eq: (nat, nat) -> bool) returns (p: nat)
    ensures p <= n && p <= m && forall k :: 0 <= k < p ==> eq(k, k)
    ensures p < n && p < m ==> !eq(p, p)
  {
    var limit := Min(n, m);
    p := 0;
    while p < limit && eq(p, p)
      invariant 0 <= p <= limit && forall k :: 0 <= k < p ==> eq(k, k)
    {
      p := p + 1;
    }
  }

  /** The items from endA + 1 and endB + 1 on are equal in pairs, and no more of them can be stripped. */
  method TrimSuffix(n: nat, m: nat, prefix: int, eq: (nat, nat) -> bool) returns (endA: int, endB: int)
    ensures endA < n && endB < m && n - endA == m - endB
    ensures endA + 1 >= Min(n, Max(prefix, 0)) && endB + 1 >= Min(m, Max(prefix, 0))
    ensures forall i: nat, j: nat :: endA < i < n && n - i == m - j ==> eq(i, j)
    ensures endA >= Max(prefix, 0) && endB >= Max(prefix, 0) ==> !eq(endA, endB)
  {
    var from := if prefix < 0 then 0 else prefix;
    endA, endB := n - 1, m - 1;
    while endA >= from && endB >= from && eq(endA, endB)
      invariant endA < n && endB < m && n - endA == m - endB
      invariant endA + 1 >= Min(n, from) && endB + 1 >= Min(m, from)
      invariant forall i: nat, j: nat :: endA < i < n && n - i == m - j ==> eq(i, j)
    {
      endA, endB := endA - 1, endB - 1;
    }
  }

  /** How many items are left after the trimmed prefix, and how the two ends sit in the sequences. */
  ghost predicate Trimmed(eq: (nat, nat) -> bool, n: nat, m: nat, prefix: nat, endA: int, endB: int) {
    && prefix <= endA + 1 <= n && prefix <= endB + 1 <= m && n - endA == m - endB
    && (forall k :: 0 <= k < prefix ==> eq(k, k))
    && forall i: nat, j: nat :: endA < i < n && n - i == m - j ==> eq(i, j)
  }

  method TrimBounds(n: nat, m: nat, eq: (nat, nat) -> bool) returns (prefix: nat, endA: int, endB: int)
    ensures Trimmed(eq, n, m, prefix, endA, endB)
    ensures prefix <= endA && prefix <= endB ==> !eq(prefix, prefix) && !eq(endA, endB)
  {
    prefix := TrimPrefix(n, m, eq);
    endA, endB := TrimSuffix(n, m, prefix, eq);
  }

  /** The pairs of a trimmed prefix, the moved pairs of the middle, and those of the suffix. */
  function Prefix(p: nat): Pairs {
    seq(p, k => (k, k))
  }

  function Moved(prefix: nat, middle: Pairs): Pairs {
    seq(|middle|, k requires 0 <= k < |middle| => (prefix + middle[k].0, prefix + middle[k].1))
  }

  function Suffix(endA: nat, endB: nat, count: nat): Pairs {
    seq(count, k => (endA + k, endB + k))
  }

  /** The alignment of the whole sequences that an alignment of their middles gives. */
  function Combined(prefix: nat, middle: Pairs, endA: int, endB: int, n: nat): Pairs
    requires -1 <= endA < n && -1 <= endB
  {
    Prefix(prefix) + Moved(prefix, middle) + Suffix(endA + 1, endB + 1, n - 1 - endA)
  }

  /** The buffer dst, with the three parts spliced on one pair at a time. */
  method CombineMatches(dst: Pairs, prefix: nat, middle: Pairs, endA: int, endB: int, lenA: nat) returns (res: Pairs)
    requires -1 <= endA < lenA && -1 <= endB
    ensures res == dst + Combined(prefix, middle, endA, endB, lenA)
  {
    res := dst;
    for p := 0 to prefix
      invariant res == dst + Prefix(p)
    {
      assert Prefix(p + 1) == Prefix(p) + [(p, p)];
      res := res + [(p, p)];
    }
    ghost var head := res;
    for k := 0 to |middle|
      invariant res == head + Moved(prefix, middle[..k])
    {
      assert Moved(prefix, middle[..k + 1])
        == Moved(prefix, middle[..k]) + [(prefix + middle[k].0, prefix + middle[k].1)];
      res := res + [(prefix + middle[k].0, prefix + middle[k].1)];
    }
    assert middle[..|middle|] == middle;
    ghost var body := res;
    var suffixCount := lenA - 1 - endA;
    for k := 0 to suffixCount
      invariant res == body + Suffix(endA + 1, endB + 1, k)
    {
      assert Suffix(endA + 1, endB + 1, k + 1) == Suffix(endA + 1, endB + 1, k) + [(endA + 1 + k, endB + 1 + k)];
      res := res + [(endA + 1 + k, endB + 1 + k)];
    }
  }

  /** Equality between the middles that trimming leaves. */
  function Middle(eq: (nat, nat) -> bool, prefix: nat): (nat, nat) -> bool {
    (i: nat, j: nat) => eq(prefix + i, prefix + j)
  }

  lemma CombinedCommon(eq: (nat, nat) -> bool, n: nat, m: nat, prefix: nat, endA: int, endB: int, middle: Pairs)
    requires Trimmed(eq, n, m, prefix, endA, endB)
    requires Common(Middle(eq, prefix), middle, endA + 1 - prefix, endB + 1 - prefix)
    ensures Common(eq, Combined(prefix, middle, endA, endB, n), n, m)
  {
    var ps := Combined(prefix, middle, endA, endB, n);
    forall k | 0 <= k < |ps|
      ensures ps[k].0 < n && ps[k].1 < m && eq(ps[k].0, ps[k].1)
    {
      if prefix <= k < prefix + |middle| {
        assert Middle(eq, prefix)(middle[k - prefix].0, middle[k - prefix].1);
      }
    }
  }

  /** In a common subsequence, pair k lies at least k items from either end. */
  lemma {:induction false} Spread(eq: (nat, nat) -> bool, ps: Pairs, n: int, m: int, k: nat)
    requires Common(eq, ps, n, m) && k < |ps|
    ensures k <= ps[k].0 && k <= ps[k].1 && ps[k].0 <= n - (|ps| - k) && ps[k].1 <= m - (|ps| - k)
  {
    SpreadLow(eq, ps, n, m, k);
    SpreadHigh(eq, ps, n, m, k);
  }

  lemma {:induction false} SpreadLow(eq: (nat, nat) -> bool, ps: Pairs, n: int, m: int, k: nat)
    requires Common(eq, ps, n, m) && k < |ps|
    ensures k <= ps[k].0 && k <= ps[k].1
  {
    if k > 0 { SpreadLow(eq, ps, n, m, k - 1); }
  }

  lemma {:induction false} SpreadHigh(eq: (nat, nat) -> bool, ps: Pairs, n: int, m: int, k: nat)
    requires Common(eq, ps, n, m) && k < |ps|
    ensures ps[k].0 <= n - (|ps| - k) && ps[k].1 <= m - (|ps| - k)
    decreases |ps| - k
  {
    if k + 1 < |ps| { SpreadHigh(eq, ps, n, m, k + 1); }
  }

  /** Pairs within the middle, counted from its start. */
  lemma Shifted(eq: (nat, nat) -> bool, prefix: nat, endA: int, endB: int, part: Pairs) returns (rs: Pairs)
    requires Common(eq, part, endA + 1, endB + 1)
    requires forall k :: 0 <= k < |part| ==> prefix <= part[k].0 && prefix <= part[k].1
    ensures |rs| == |part| && Common(Middle(eq, prefix), rs, endA + 1 - prefix, endB + 1 - prefix)
  {
    rs := seq(|part|, k requires 0 <= k < |part| => ((part[k].0 - prefix) as nat, (part[k].1 - prefix) as nat));
  }

  /** What a common subsequence keeps of the middle when it gives up as many pairs as were trimmed. */
  lemma MiddlePart(eq: (nat, nat) -> bool, n: nat, m: nat, prefix: nat, endA: int, endB: int, qs: Pairs)
    returns (rs: Pairs)
    requires Trimmed(eq, n, m, prefix, endA, endB) && Common(eq, qs, n, m)
    requires |qs| >= prefix + (n - 1 - endA)
    ensures Common(Middle(eq, prefix), rs, endA + 1 - prefix, endB + 1 - prefix)
    ensures |rs| == |qs| - prefix - (n - 1 - endA)
  {
    var size := |qs| - prefix - (n - 1 - endA);
    var part := qs[prefix..prefix + size];
    forall k | 0 <= k < size
      ensures prefix <= part[k].0 <= endA && prefix <= part[k].1 <= endB
    {
      Spread(eq, qs, n, m, prefix + k);
    }
    rs := Shifted(eq, prefix, endA, endB, part);
  }

  /** Trimming first loses nothing: the ends and a longest middle make a longest common subsequence of the whole. */
  lemma TrimKeepsLongest(eq: (nat, nat) -> bool, n: nat, m: nat, prefix: nat, endA: int, endB: int, middle: Pairs)
    requires Trimmed(eq, n, m, prefix, endA, endB)
    requires Longest(Middle(eq, prefix), middle, endA + 1 - prefix, endB + 1 - prefix)
    ensures Longest(eq, Combined(prefix, middle, endA, endB, n), n, m)
  {
    CombinedCommon(eq, n, m, prefix, endA, endB, middle);
    forall qs | Common(eq, qs, n, m) ensures |qs| <= |Combined(prefix, middle, endA, endB, n)| {
      if |qs| >= prefix + (n - 1 - endA) {
        var rs := MiddlePart(eq, n, m, prefix, endA, endB, qs);
      }
    }
  }
}
