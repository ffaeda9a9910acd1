/** Reading the mapping back keeps its shape: matched nodes stand in the same order and below the same matched nodes. */
module ZsShape {
  import opened ForestDistance
  import opened TreeMappings
  import opened Lists

  /** One entry of the mapping: two matched nodes, or one node and zero for a deleted or inserted one; nodes from 1
      on. */
  type Entries = seq<(nat, nat)>

  /** Positions lo1 up to hi1 of the first tree against lo2 up to hi2 of the second. */
  datatype Region = Region(lo1: nat, hi1: nat, lo2: nat, hi2: nat)

  const NOTHING := Region(0, 0, 0, 0)

  predicate Matched(t: Trees, e: (nat, nat)) {
    0 < e.0 <= |t.lld1| && 0 < e.1 <= |t.lld2|
  }

  predicate IsBefore(t: Trees, a: (nat, nat), b: (nat, nat)) {
    && a.0 < b.0 && a.1 < b.1
    && (a.0 > 0 && a.1 > 0 ==> (Below(t.lld1, a.0 - 1, b.0 - 1) <==> Below(t.lld2, a.1 - 1, b.1 - 1)))
  }

  /** Two matched entries that a mapping may hold: in the same order on both sides, one below the other on both or
      neither. */
  predicate Agree(t: Trees, a: (nat, nat), b: (nat, nat)) {
    IsBefore(t, a, b) || IsBefore(t, b, a)
  }

  lemma AgreeBoth(t: Trees, a: (nat, nat), b: (nat, nat))
    ensures Agree(t, a, b) <==> Agree(t, b, a)
  {
  }

  /** All matched entries agree with each other. */
  ghost predicate Shaped(t: Trees, es: Entries) {
    forall k, l :: 0 <= k < l < |es| && Matched(t, es[k]) && Matched(t, es[l]) ==> Agree(t, es[k], es[l])
  }

  /** A matched entry before the region on both sides, or after it on both and above all of it or none of it on both. */
  predicate Outside(t: Trees, e: (nat, nat), r: Region) {
    Matched(t, e) ==>
      || (e.0 <= r.lo1 && e.1 <= r.lo2)
      || (e.0 > r.hi1 && e.1 > r.hi2 &&
          ((t.lld1[e.0 - 1] <= r.lo1 && t.lld2[e.1 - 1] <= r.lo2)
           || (t.lld1[e.0 - 1] >= r.hi1 && t.lld2[e.1 - 1] >= r.hi2)))
  }

  predicate Apart(r: Region, s: Region) {
    (r.hi1 <= s.lo1 && r.hi2 <= s.lo2) || (s.hi1 <= r.lo1 && s.hi2 <= r.lo2)
  }

  /** The two subtrees that end at p. */
  function Block(t: Trees, p: (nat, nat)): Region {
    if Matched(t, p) then Region(t.lld1[p.0 - 1], p.0, t.lld2[p.1 - 1], p.1) else NOTHING
  }

  /** The entries agree, and they, the subtrees still to read and the forest at hand keep out of each other's way. */
  ghost predicate Consistent(t: Trees, es: Entries, ps: Entries, f: Region) {
    && Shaped(t, es)
    && (forall k :: 0 <= k < |es| ==> Outside(t, es[k], f))
    && (forall k, m :: 0 <= k < |es| && 0 <= m < |ps| ==> Outside(t, es[k], Block(t, ps[m])))
    && (forall m :: 0 <= m < |ps| ==> Apart(Block(t, ps[m]), f))
    && forall m, n :: 0 <= m < n < |ps| ==> Apart(Block(t, ps[m]), Block(t, ps[n]))
  }

  lemma StartConsistent(t: Trees, p: (nat, nat))
    ensures Consistent(t, [], [p], NOTHING)
  {
  }

  /** A node of one tree only leaves the matched entries alone. */
  lemma KeepSingle(t: Trees, es: Entries, ps: Entries, f: Region, e: (nat, nat), g: Region)
    requires Consistent(t, es, ps, f) && !Matched(t, e)
    requires g.lo1 == f.lo1 && g.lo2 == f.lo2 && g.hi1 <= f.hi1 && g.hi2 <= f.hi2
    ensures Consistent(t, es + [e], ps, g)
  {
  }

  /** The last nodes of two forests, both on the leftmost paths, can be matched. */
  lemma KeepMatch(t: Trees, es: Entries, ps: Entries, f: Region)
    requires Consistent(t, es, ps, f) && f.lo1 < f.hi1 <= |t.lld1| && f.lo2 < f.hi2 <= |t.lld2|
    requires t.lld1[f.hi1 - 1] == f.lo1 && t.lld2[f.hi2 - 1] == f.lo2
    ensures Consistent(t, es + [(f.hi1, f.hi2)], ps, f.(hi1 := f.hi1 - 1, hi2 := f.hi2 - 1))
  {
    var e := (f.hi1, f.hi2);
    forall k | 0 <= k < |es| && Matched(t, es[k]) ensures Agree(t, es[k], e) {
      assert Outside(t, es[k], f);
    }
    forall m | 0 <= m < |ps| ensures Outside(t, e, Block(t, ps[m])) {
      assert Apart(Block(t, ps[m]), f);
    }
  }

  /** The subtrees that end the two forests can be left for later. */
  lemma KeepLater(t: Trees, es: Entries, ps: Entries, f: Region)
    requires Consistent(t, es, ps, f) && 0 < f.hi1 <= |t.lld1| && 0 < f.hi2 <= |t.lld2|
    requires f.lo1 <= t.lld1[f.hi1 - 1] < f.hi1 && f.lo2 <= t.lld2[f.hi2 - 1] < f.hi2
    ensures Consistent(t, es, [(f.hi1, f.hi2)] + ps, f.(hi1 := t.lld1[f.hi1 - 1], hi2 := t.lld2[f.hi2 - 1]))
  {
  }

  /** The next two subtrees become the forests at hand. */
  lemma TakeNext(t: Trees, es: Entries, ps: Entries, f: Region)
    requires Consistent(t, es, ps, f) && ps != []
    ensures Consistent(t, es, ps[1..], Block(t, ps[0]))
  {
  }

  lemma NothingLeft(t: Trees, es: Entries, ps: Entries, f: Region)
    requires Consistent(t, es, ps, f)
    ensures Consistent(t, es, ps, NOTHING)
  {
  }

  lemma IsShaped(t: Trees, es: Entries, ps: Entries, f: Region)
    requires Consistent(t, es, ps, f)
    ensures Shaped(t, es)
  {
  }

  lemma ShapedBackwards(t: Trees, es: Entries)
    requires Shaped(t, es)
    ensures Shaped(t, Reversed(es))
  {
    hide Agree;
    var rs := Reversed(es);
    if es != [] { ReversedAt(es, 0); }
    forall k, l | 0 <= k < l < |rs| && Matched(t, rs[k]) && Matched(t, rs[l]) ensures Agree(t, rs[k], rs[l]) {
      ReversedAt(es, k);
      ReversedAt(es, l);
      AgreeBoth(t, rs[l], rs[k]);
    }
  }
}
