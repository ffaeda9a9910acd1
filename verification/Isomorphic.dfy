/** Pairing two isomorphic subtrees node by node. */
module Isomorphic {
  import opened Lists
  import opened Mappings
  import opened TreeIndex
  import opened ZsTrees

  type IdPairs = seq<(nat, nat)>

  /** The ids of a subtree in preorder. */
  function Ids(t: Node): seq<nat> {
    IdsOf(PreOrder(t))
  }

  function IdsOf(ns: seq<Node>): seq<nat> {
    seq(|ns|, i requires 0 <= i < |ns| => ns[i].id)
  }

  /** The pairs that are added, in order; none below two nodes with different numbers of children. */
  function PairsOf(t1: Node, t2: Node): IdPairs
    decreases t1, 1
  {
    if |t1.kids| != |t2.kids| then [] else [(t1.id, t2.id)] + PairsOfAll(t1.kids, t2.kids)
  }

  function PairsOfAll(k1: seq<Node>, k2: seq<Node>): IdPairs
    decreases k1, 0
  {
    if k1 == [] || k2 == [] then [] else PairsOf(k1[0], k2[0]) + PairsOfAll(k1[1..], k2[1..])
  }

  /** The source map after adding the pairs one by one. */
  function AddedAll(src: map<nat, nat>, ps: IdPairs): map<nat, nat>
    decreases |ps|
  {
    if ps == [] then src else AddedAll(Added(src, ps[0].0, ps[0].1), ps[1..])
  }

  lemma {:induction false} AddedConcat(src: map<nat, nat>, a: IdPairs, b: IdPairs)
    ensures AddedAll(src, a + b) == AddedAll(AddedAll(src, a), b)
    decreases |a|
  {
    if a == [] {
      assert a + b == b;
    } else {
      assert (a + b)[1..] == a[1..] + b;
      AddedConcat(Added(src, a[0].0, a[0].1), a[1..], b);
    }
  }

  method AddIsomorphicPairs(t1: Node, t2: Node, m: Mapping<nat>)
    requires m.Valid()
    modifies m
    ensures m.Valid() && m.src == AddedAll(old(m.src), PairsOf(t1, t2))
    decreases t1, 1
  {
    if |t1.kids| != |t2.kids| { return; }
    m.Add(Some(t1.id), Some(t2.id));
    ghost var first := m.src;
    hide AddedAll, PairsOfAll, Added, Renewed, Inverse, Catalogues;
    FirstPair(old(m.src), t1, t2);
    for i := 0 to |t1.kids|
      invariant m.Valid() && m.src == AddedAll(first, PairsOfAll(t1.kids[..i], t2.kids[..i]))
    {
      AddIsomorphicPairs(t1.kids[i], t2.kids[i], m);
      NextChild(first, t1.kids, t2.kids, i);
    }
    assert t1.kids[..|t1.kids|] == t1.kids && t2.kids[..|t1.kids|] == t2.kids;
  }

  lemma FirstPair(src: map<nat, nat>, t1: Node, t2: Node)
    requires |t1.kids| == |t2.kids|
    ensures AddedAll(src, PairsOf(t1, t2)) == AddedAll(Added(src, t1.id, t2.id), PairsOfAll(t1.kids, t2.kids))
    ensures Added(src, t1.id, t2.id) == AddedAll(Added(src, t1.id, t2.id), PairsOfAll(t1.kids[..0], t2.kids[..0]))
  {
    var rest := PairsOfAll(t1.kids, t2.kids);
    assert ([(t1.id, t2.id)] + rest)[1..] == rest;
  }

  lemma NextChild(first: map<nat, nat>, k1: seq<Node>, k2: seq<Node>, i: nat)
    requires i < |k1| == |k2|
    ensures AddedAll(AddedAll(first, PairsOfAll(k1[..i], k2[..i])), PairsOf(k1[i], k2[i]))
         == AddedAll(first, PairsOfAll(k1[..i + 1], k2[..i + 1]))
  {
    PairsOfAllPush(k1[..i], k2[..i], k1[i], k2[i]);
    AddedConcat(first, PairsOfAll(k1[..i], k2[..i]), PairsOf(k1[i], k2[i]));
    assert k1[..i + 1] == k1[..i] + [k1[i]] && k2[..i + 1] == k2[..i] + [k2[i]];
  }

  lemma {:induction false} PairsOfAllPush(k1: seq<Node>, k2: seq<Node>, a: Node, b: Node)
    requires |k1| == |k2|
    ensures PairsOfAll(k1 + [a], k2 + [b]) == PairsOfAll(k1, k2) + PairsOf(a, b)
  {
    if k1 == [] {
      assert k1 + [a] == [a] && k2 + [b] == [b] && [a][1..] == [] && [b][1..] == [];
      assert PairsOf(a, b) + [] == PairsOf(a, b) && [] + PairsOf(a, b) == PairsOf(a, b);
    } else {
      assert (k1 + [a])[1..] == k1[1..] + [a] && (k2 + [b])[1..] == k2[1..] + [b];
      PairsOfAllPush(k1[1..], k2[1..], a, b);
      var x, y, z := PairsOf(k1[0], k2[0]), PairsOfAll(k1[1..], k2[1..]), PairsOf(a, b);
      assert x + (y + z) == (x + y) + z;
    }
  }

  // ---------------------------------------------------------------- by position

  ghost predicate SameShape(t1: Node, t2: Node)
    decreases t1, 1
  {
    |t1.kids| == |t2.kids| && SameShapes(t1.kids, t2.kids)
  }

  ghost predicate SameShapes(k1: seq<Node>, k2: seq<Node>)
    decreases k1, 0
  {
    if k1 == [] || k2 == [] then k1 == [] && k2 == []
    else SameShape(k1[0], k2[0]) && SameShapes(k1[1..], k2[1..])
  }

  /** The pairs join the two preorders position by position. */
  ghost predicate Zipped(ps: IdPairs, a: seq<nat>, b: seq<nat>) {
    |ps| == |a| == |b| && forall k :: 0 <= k < |ps| ==> ps[k] == (a[k], b[k])
  }

  lemma {:induction false} ShapeZips(t1: Node, t2: Node)
    requires SameShape(t1, t2)
    ensures Zipped(PairsOf(t1, t2), Ids(t1), Ids(t2))
    decreases t1, 1
  {
    ShapesZip(t1.kids, t2.kids);
  }

  lemma {:induction false} ShapesZip(k1: seq<Node>, k2: seq<Node>)
    requires SameShapes(k1, k2)
    ensures Zipped(PairsOfAll(k1, k2), IdsOf(PreForest(k1)), IdsOf(PreForest(k2)))
    decreases k1, 0
  {
    if k1 != [] {
      ShapeZips(k1[0], k2[0]);
      ShapesZip(k1[1..], k2[1..]);
    }
  }

  /** Pairs of distinct nodes on both sides all survive the adding of the others. */
  lemma {:induction false} AllSurvive(src: map<nat, nat>, ps: IdPairs)
    requires forall k, l :: 0 <= k < l < |ps| ==> ps[k].0 != ps[l].0 && ps[k].1 != ps[l].1
    ensures forall k :: 0 <= k < |ps| ==> ps[k].0 in AddedAll(src, ps) && AddedAll(src, ps)[ps[k].0] == ps[k].1
    decreases |ps|
  {
    if ps != [] {
      AllSurvive(Added(src, ps[0].0, ps[0].1), ps[1..]);
      Untouched(Added(src, ps[0].0, ps[0].1), ps[1..], ps[0].0);
    }
  }

  /** A pair with no node in common with those added stays. */
  lemma {:induction false} Untouched(src: map<nat, nat>, ps: IdPairs, c: nat)
    requires c in src && forall k :: 0 <= k < |ps| ==> ps[k].0 != c && ps[k].1 != src[c]
    ensures c in AddedAll(src, ps) && AddedAll(src, ps)[c] == src[c]
    decreases |ps|
  {
    if ps != [] { Untouched(Added(src, ps[0].0, ps[0].1), ps[1..], c); }
  }

  /** Two subtrees of the same shape end up paired node by node, by their positions in preorder. */
  lemma PairedByPosition(src: map<nat, nat>, t1: Node, t2: Node)
    requires SameShape(t1, t2) && NoDup(Ids(t1)) && NoDup(Ids(t2))
    ensures |Ids(t1)| == |Ids(t2)|
    ensures var r := AddedAll(src, PairsOf(t1, t2));
            forall k :: 0 <= k < |Ids(t1)| ==> Ids(t1)[k] in r && r[Ids(t1)[k]] == Ids(t2)[k]
  {
    ShapeZips(t1, t2);
    AllSurvive(src, PairsOf(t1, t2));
  }
}
