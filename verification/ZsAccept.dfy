/** What the recovery of a pair of subtrees does to the node mapping: which pairs of the edit mapping it adds. */
module ZsAccept {
  import opened Lists
  import opened ForestDistance
  import opened ZsShape
  import opened ZsTrees
  import opened ZsBacktrack
  import opened ZsRun
  import opened Mappings

  /** The entry pairs two nodes that may be paired, both of them free. */
  ghost predicate Takes(may: (Node, Node) -> bool, src: map<Node, Node>, dst: map<Node, Node>, s1: seq<Node>,
                        s2: seq<Node>, e: (nat, nat)) {
    && 0 < e.0 <= |s1| && 0 < e.1 <= |s2|
    && may(s1[e.0 - 1], s2[e.1 - 1]) && s1[e.0 - 1] !in src && s2[e.1 - 1] !in dst
  }

  /** The pairs that the first k entries add, in their order. */
  ghost function Taken(may: (Node, Node) -> bool, src: map<Node, Node>, dst: map<Node, Node>, s1: seq<Node>,
                       s2: seq<Node>, es: Entries, k: nat): seq<Pair<Node>>
    requires k <= |es|
  {
    if k == 0 then []
    else
      var e := es[k - 1];
      Taken(may, src, dst, s1, s2, es, k - 1)
      + if Takes(may, src, dst, s1, s2, e) then [Pair(s1[e.0 - 1], s2[e.1 - 1])] else []
  }

  /** Entries name nodes of the trees, and no two matched entries share one. */
  ghost predicate Distinct(es: Entries, m: nat, n: nat) {
    && (forall k :: 0 <= k < |es| ==> es[k].0 <= m && es[k].1 <= n)
    && forall k, l :: 0 <= k < l < |es| && es[k].0 > 0 && es[k].1 > 0 && es[l].0 > 0 && es[l].1 > 0 ==>
         es[k].0 != es[l].0 && es[k].1 != es[l].1
  }

  lemma {:induction false} EntryCounted(es: Entries, k: nat)
    requires k < |es|
    ensures RowCount(es, es[k].0) > 0 && ColCount(es, es[k].1) > 0
  {
    if k > 0 { EntryCounted(es[1..], k - 1); }
  }

  lemma EntriesDistinct(t: Trees, es: Entries)
    requires Complete(t, es) && Shaped(t, es)
    ensures Distinct(es, |t.lld1|, |t.lld2|)
  {
    forall k | 0 <= k < |es| ensures es[k].0 <= |t.lld1| && es[k].1 <= |t.lld2| {
      EntryCounted(es, k);
      assert es[k].0 > 0 ==> RowCount(es, es[k].0) == Within(0, |t.lld1|, es[k].0);
      assert es[k].1 > 0 ==> ColCount(es, es[k].1) == Within(0, |t.lld2|, es[k].1);
    }
    forall k, l | 0 <= k < l < |es| && es[k].0 > 0 && es[k].1 > 0 && es[l].0 > 0 && es[l].1 > 0
      ensures es[k].0 != es[l].0 && es[k].1 != es[l].1
    {
      assert Matched(t, es[k]) && Matched(t, es[l]);
      assert Agree(t, es[k], es[l]);
    }
  }

  /** A pair has been added just when one of the entries adds it. */
  lemma {:induction false} TakenFrom(may: (Node, Node) -> bool, src: map<Node, Node>, dst: map<Node, Node>,
                                     s1: seq<Node>, s2: seq<Node>, es: Entries, k: nat, p: Pair<Node>)
    requires k <= |es|
    ensures p in Taken(may, src, dst, s1, s2, es, k)
       <==> exists l :: 0 <= l < k && Takes(may, src, dst, s1, s2, es[l])
                        && p == Pair(s1[es[l].0 - 1], s2[es[l].1 - 1])
  {
    if k > 0 { TakenFrom(may, src, dst, s1, s2, es, k - 1, p); }
  }

  /** An entry finds its nodes as free as they were at the start, since no earlier entry has taken them. */
  lemma AsFree(may: (Node, Node) -> bool, src0: map<Node, Node>, dst0: map<Node, Node>, pairs0: seq<Pair<Node>>,
               src: map<Node, Node>, dst: map<Node, Node>, s1: seq<Node>, s2: seq<Node>, es: Entries, k: nat)
    requires Inverse(src0, dst0) && Catalogues(pairs0, src0) && Inverse(src, dst) && k < |es|
    requires Catalogues(pairs0 + Taken(may, src0, dst0, s1, s2, es, k), src)
    requires DistinctIds(s1) && DistinctIds(s2) && Distinct(es, |s1|, |s2|) && es[k].0 > 0 && es[k].1 > 0
    ensures s1[es[k].0 - 1] in src <==> s1[es[k].0 - 1] in src0
    ensures s2[es[k].1 - 1] in dst <==> s2[es[k].1 - 1] in dst0
  {
    var a, b, added := s1[es[k].0 - 1], s2[es[k].1 - 1], Taken(may, src0, dst0, s1, s2, es, k);
    forall p | p in added ensures p.src != a && p.dst != b {
      TakenFrom(may, src0, dst0, s1, s2, es, k, p);
      var l :| 0 <= l < k && Takes(may, src0, dst0, s1, s2, es[l]) && p == Pair(s1[es[l].0 - 1], s2[es[l].1 - 1]);
    }
    hide Taken, DistinctIds, Distinct;
    Listed(pairs0, added, src0, dst0, src, dst, a, b);
  }

  /** Nodes that no added pair names are paired if they were. */
  lemma Listed(pairs0: seq<Pair<Node>>, added: seq<Pair<Node>>, src0: map<Node, Node>, dst0: map<Node, Node>,
               src: map<Node, Node>, dst: map<Node, Node>, a: Node, b: Node)
    requires Inverse(src0, dst0) && Catalogues(pairs0, src0) && Inverse(src, dst) && Catalogues(pairs0 + added, src)
    requires forall p :: p in added ==> p.src != a && p.dst != b
    ensures (a in src <==> a in src0) && (b in dst <==> b in dst0)
  {
    if a in src { assert Pair(a, src[a]) in pairs0 + added; }
    if a in src0 { assert Pair(a, src0[a]) in pairs0 + added; }
    if b in dst { assert Pair(dst[b], src[dst[b]]) in pairs0 + added; }
    if b in dst0 {
      assert Pair(dst0[b], src0[dst0[b]]) in pairs0 + added;
      assert src[dst0[b]] == b;
    }
  }

  /** Adds the pairs of the entries whose nodes may be paired and are free, and none else. */
  method Accept(may: (Node, Node) -> bool, ms: Mapping<Node>, s1: seq<Node>, s2: seq<Node>, es: Entries)
    requires ms.Valid() && DistinctIds(s1) && DistinctIds(s2) && Distinct(es, |s1|, |s2|)
    modifies ms
    ensures ms.Valid()
    ensures ms.pairs == old(ms.pairs) + Taken(may, old(ms.src), old(ms.dst), s1, s2, es, |es|)
  {
    hide DistinctIds, Inverse, Catalogues;
    for k := 0 to |es|
      invariant ms.Valid() && ms.pairs == old(ms.pairs) + Taken(may, old(ms.src), old(ms.dst), s1, s2, es, k)
    {
      if es[k].0 != 0 && es[k].1 != 0 {
        var a, b := s1[es[k].0 - 1], s2[es[k].1 - 1];
        AsFree(may, old(ms.src), old(ms.dst), old(ms.pairs), ms.src, ms.dst, s1, s2, es, k);
        if may(a, b) && a !in ms.src && b !in ms.dst {
          KeepNone(ms.pairs);
          ms.Add(Some(a), Some(b));
        }
      }
    }
  }

  /** The recovery of two subtrees: the edit mapping is read from the tables, and the pairs that may be paired and were
      free on both sides are added behind the present ones, which all stay. */
  method RunZSRecovery(t1: Node, t2: Node, ren: (nat, nat) -> int, may: (Node, Node) -> bool, ms: Mapping<Node>)
    returns (ghost t: Trees, ghost es: Entries)
    requires ms.Valid() && DistinctIds(PostOrder(t1)) && DistinctIds(PostOrder(t2))
    modifies ms
    ensures t.ren == ren && Starts(t1, t.lld1) && Starts(t2, t.lld2) && Complete(t, es) && Shaped(t, es)
    ensures Simple(t) ==> Cheapest(t, es)
    ensures ms.Valid()
    ensures ms.pairs
         == old(ms.pairs) + Taken(may, old(ms.src), old(ms.dst), PostOrder(t1), PostOrder(t2), es, |es|)
  {
    hide PostOrder, DistinctIds, Simple, Cheapest, Complete, Shaped, Taken, Distinct;
    var t0, mapping := Recover(t1, t2, ren);
    EntriesDistinct(t0, mapping);
    Accept(may, ms, PostOrder(t1), PostOrder(t2), mapping);
    t, es := t0, mapping;
  }
}
