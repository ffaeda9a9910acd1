/** The one-to-one node mapping that every matcher phase edits and the script generator reads. */
module Mappings {
  import opened Lists

  datatype Pair<N> = Pair(src: N, dst: N)

  /** The pairs whose source is not in the set, in order. */
  function Keep<N(==)>(pairs: seq<Pair<N>>, gone: set<N>): seq<Pair<N>> {
    if pairs == [] then []
    else (if pairs[0].src in gone then [] else [pairs[0]]) + Keep(pairs[1..], gone)
  }

  lemma {:induction false} KeepElements<N(!new)>(pairs: seq<Pair<N>>, gone: set<N>)
    ensures forall p :: p in Keep(pairs, gone) <==> p in pairs && p.src !in gone
    ensures Sources(pairs) ==> Sources(Keep(pairs, gone))
  {
    if pairs != [] {
      KeepElements(pairs[1..], gone);
      assert pairs == [pairs[0]] + pairs[1..];
      if Sources(pairs) {
        assert Sources(pairs[1..]);
        var r := Keep(pairs[1..], gone);
        forall i, j | 0 <= i < j < |Keep(pairs, gone)|
          ensures Keep(pairs, gone)[i].src != Keep(pairs, gone)[j].src
        {
          if pairs[0].src !in gone && i == 0 {
            assert r[j-1] in pairs[1..];
          }
        }
      }
    }
  }

  /** No source node occurs in two pairs. */
  ghost predicate Sources<N(!new)>(pairs: seq<Pair<N>>) {
    forall i, j :: 0 <= i < j < |pairs| ==> pairs[i].src != pairs[j].src
  }

  /** The two maps are inverse to each other. */
  ghost predicate Inverse<N(!new)>(src: map<N, N>, dst: map<N, N>) {
    && (forall a {:trigger src[a]} :: a in src ==> src[a] in dst && dst[src[a]] == a)
    && (forall b {:trigger dst[b]} :: b in dst ==> dst[b] in src && src[dst[b]] == b)
  }

  /** The ordered pairs list exactly the entries of the source map, each once. */
  ghost predicate Catalogues<N(!new)>(pairs: seq<Pair<N>>, src: map<N, N>) {
    && Sources(pairs)
    && (forall p :: p in pairs ==> p.src in src && src[p.src] == p.dst)
    && (forall a {:trigger src[a]} :: a in src ==> Pair(a, src[a]) in pairs)
  }

  /** The source map after pairing a with b: whoever had b loses it. */
  function Added<N(==)>(src: map<N, N>, a: N, b: N): map<N, N> {
    (map c | c in src && src[c] != b :: src[c])[a := b]
  }

  /** The source that must give up b when a takes it. */
  function Evicted<N(==)>(dst: map<N, N>, a: N, b: N): set<N> {
    if b in dst && dst[b] != a then {dst[b]} else {}
  }

  /** How the ordered pairs change when a is paired with b. */
  ghost predicate Renewed<N(!new)>(pairs: seq<Pair<N>>, src: map<N, N>, dst: map<N, N>, a: N, b: N, now: seq<Pair<N>>) {
    var kept := Keep(pairs, Evicted(dst, a, b));
    if a in src
    then |now| == |kept| && forall i :: 0 <= i < |kept| ==> now[i] == if kept[i].src == a then Pair(a, b) else kept[i]
    else now == kept + [Pair(a, b)]
  }

  lemma AddAgain<N(!new)>(src: map<N, N>, dst: map<N, N>, pairs: seq<Pair<N>>, a: N, b: N)
    requires Inverse(src, dst) && Catalogues(pairs, src) && a in src && src[a] == b
    ensures Added(src, a, b) == src && Renewed(pairs, src, dst, a, b, pairs)
  {
    KeepNone(pairs);
    forall c | c in src && src[c] == b ensures c == a {}
  }

  lemma AddReplaces<N(!new)>(src: map<N, N>, dst: map<N, N>, pairs: seq<Pair<N>>, a: N, b: N, i: nat)
    requires Inverse(src, dst) && Catalogues(pairs, src) && a in src && src[a] != b
    requires i < |Keep(pairs, Evicted(dst, a, b))| && Keep(pairs, Evicted(dst, a, b))[i].src == a
    ensures var now := Keep(pairs, Evicted(dst, a, b))[i := Pair(a, b)];
            var src' := (src - Evicted(dst, a, b))[a := b];
            && src' == Added(src, a, b)
            && Renewed(pairs, src, dst, a, b, now)
            && Catalogues(now, src')
            && Inverse(src', (dst - {src[a]})[b := a])
  {
    EvictionIs(src, dst, a, b);
    AddInverse(src, dst, a, b);
    EvictedCatalogue(src, dst, pairs, a, b);
    ReplaceInCatalogue(Keep(pairs, Evicted(dst, a, b)), src - Evicted(dst, a, b), a, b, i);
  }

  lemma AddAppends<N(!new)>(src: map<N, N>, dst: map<N, N>, pairs: seq<Pair<N>>, a: N, b: N)
    requires Inverse(src, dst) && Catalogues(pairs, src) && a !in src
    ensures var now := Keep(pairs, Evicted(dst, a, b)) + [Pair(a, b)];
            var src' := (src - Evicted(dst, a, b))[a := b];
            && src' == Added(src, a, b)
            && Renewed(pairs, src, dst, a, b, now)
            && Catalogues(now, src')
            && Inverse(src', dst[b := a])
  {
    EvictionIs(src, dst, a, b);
    AddInverse(src, dst, a, b);
    EvictedCatalogue(src, dst, pairs, a, b);
    AppendToCatalogue(Keep(pairs, Evicted(dst, a, b)), src - Evicted(dst, a, b), a, b);
  }

  lemma CatalogueFinds<N(!new)>(src: map<N, N>, dst: map<N, N>, pairs: seq<Pair<N>>, a: N, b: N)
    requires Inverse(src, dst) && Catalogues(pairs, src) && a in src
    ensures exists i :: 0 <= i < |Keep(pairs, Evicted(dst, a, b))| && Keep(pairs, Evicted(dst, a, b))[i].src == a
  {
    EvictedCatalogue(src, dst, pairs, a, b);
    CatalogueHas(Keep(pairs, Evicted(dst, a, b)), src - Evicted(dst, a, b), a);
  }

  method FindSource<N(==)>(pairs: seq<Pair<N>>, a: N) returns (i: nat)
    ensures i <= |pairs|
    ensures i < |pairs| ==> pairs[i].src == a
    ensures forall k :: 0 <= k < i ==> pairs[k].src != a
  {
    i := 0;
    while i < |pairs| && pairs[i].src != a
      invariant 0 <= i <= |pairs|
      invariant forall k :: 0 <= k < i ==> pairs[k].src != a
    {
      i := i + 1;
    }
  }

  lemma EvictionIs<N(!new)>(src: map<N, N>, dst: map<N, N>, a: N, b: N)
    requires Inverse(src, dst) && (a in src ==> src[a] != b)
    ensures Added(src, a, b) == (src - Evicted(dst, a, b))[a := b]
  {
    forall c | c in src ensures src[c] == b <==> c in Evicted(dst, a, b) {}
  }

  lemma AddInverse<N(!new)>(src: map<N, N>, dst: map<N, N>, a: N, b: N)
    requires Inverse(src, dst)
    ensures Inverse(Added(src, a, b), (if a in src then dst - {src[a]} else dst)[b := a])
  {
  }

  lemma UnpairInverse<N(!new)>(src: map<N, N>, dst: map<N, N>, a: N)
    requires Inverse(src, dst)
    ensures Inverse(src - {a}, if a in src then dst - {src[a]} else dst)
  {
  }

  lemma EvictedCatalogue<N(!new)>(src: map<N, N>, dst: map<N, N>, pairs: seq<Pair<N>>, a: N, b: N)
    requires Inverse(src, dst) && Catalogues(pairs, src)
    ensures Catalogues(Keep(pairs, Evicted(dst, a, b)), src - Evicted(dst, a, b))
    ensures a in src <==> a in src - Evicted(dst, a, b)
  {
    KeepElements(pairs, Evicted(dst, a, b));
  }

  lemma CatalogueHas<N(!new)>(pairs: seq<Pair<N>>, src: map<N, N>, a: N)
    requires Catalogues(pairs, src) && a in src
    ensures exists i :: 0 <= i < |pairs| && pairs[i].src == a
  {
    assert Pair(a, src[a]) in pairs;
  }

  lemma ReplaceInCatalogue<N(!new)>(pairs: seq<Pair<N>>, src: map<N, N>, a: N, b: N, i: nat)
    requires Catalogues(pairs, src) && i < |pairs| && pairs[i].src == a
    ensures Catalogues(pairs[i := Pair(a, b)], src[a := b])
    ensures forall k :: 0 <= k < |pairs| ==>
              pairs[i := Pair(a, b)][k] == if pairs[k].src == a then Pair(a, b) else pairs[k]
  {
    var r := pairs[i := Pair(a, b)];
    forall c | c in src ensures Pair(c, src[a := b][c]) in r {
      if c == a { assert r[i] == Pair(a, b); }
      else {
        var k :| 0 <= k < |pairs| && pairs[k] == Pair(c, src[c]);
        assert r[k] == pairs[k];
      }
    }
  }

  lemma AppendToCatalogue<N(!new)>(pairs: seq<Pair<N>>, src: map<N, N>, a: N, b: N)
    requires Catalogues(pairs, src) && a !in src
    ensures Catalogues(pairs + [Pair(a, b)], src[a := b])
  {
    var r := pairs + [Pair(a, b)];
    assert r[|pairs|] == Pair(a, b);
    forall c | c in src ensures Pair(c, src[c]) in r {
      assert Pair(c, src[c]) in pairs;
    }
  }

  class Mapping<N(==,!new)> {
    var src: map<N, N>
    var dst: map<N, N>
    var pairs: seq<Pair<N>>

    ghost predicate Valid()
      reads this
    {
      Inverse(src, dst) && Catalogues(pairs, src)
    }

    constructor ()
      ensures Valid() && src == map[] && dst == map[] && pairs == []
    {
      src, dst, pairs := map[], map[], [];
    }

    /** Afterwards t1 is paired with t2, whoever had t2 is unpaired, and all else is as before;
        the order of the surviving pairs is kept and t1 keeps its place if it had one. */
    method Add(t1: Option<N>, t2: Option<N>)
      requires Valid()
      modifies this
      ensures Valid()
      ensures t1.None? || t2.None? ==> src == old(src) && dst == old(dst) && pairs == old(pairs)
      ensures t1.Some? && t2.Some? ==>
                && src == Added(old(src), t1.value, t2.value)
                && Renewed(old(pairs), old(src), old(dst), t1.value, t2.value, pairs)
    {
      if t1.None? || t2.None? { return; }
      hide Inverse, Catalogues, Renewed, Added, Keep, Evicted;
      var a, b := t1.value, t2.value;
      if a in src && src[a] == b {
        AddAgain(src, dst, pairs, a, b);
        return;
      }
      ghost var src0, dst0, pairs0 := src, dst, pairs;
      Evict(a, b);
      if a in src {
        dst := dst - {src[a]};
        var i := FindSource(pairs, a);
        if i < |pairs| {
          pairs := pairs[i := Pair(a, b)];
          src := src[a := b];
          dst := dst[b := a];
          AddReplaces(src0, dst0, pairs0, a, b, i);
          return;
        }
        CatalogueFinds(src0, dst0, pairs0, a, b);
        assert false;
      }
      pairs := pairs + [Pair(a, b)];
      src := src[a := b];
      dst := dst[b := a];
      AddAppends(src0, dst0, pairs0, a, b);
    }

    /** Whoever has b loses it, unless it is a. */
    method Evict(a: N, b: N)
      modifies this`src, this`pairs
      ensures src == old(src) - Evicted(dst, a, b) && pairs == Keep(old(pairs), Evicted(dst, a, b))
    {
      KeepNone(pairs);
      MinusNone(src);
      if b in dst && dst[b] != a {
        var old1 := dst[b];
        src := src - {old1};
        pairs := Keep(pairs, {old1});
      }
    }

    /** Unpairs t1; every other pair survives, in order. */
    method Remove(t1: Option<N>)
      requires Valid()
      modifies this
      ensures Valid()
      ensures t1.None? ==> src == old(src) && dst == old(dst) && pairs == old(pairs)
      ensures t1.Some? ==> src == old(src) - {t1.value} && pairs == Keep(old(pairs), {t1.value})
    {
      if t1.None? { return; }
      var a := t1.value;
      UnpairInverse(src, dst, a);
      if a in src {
        dst := dst - {src[a]};
      }
      src := src - {a};
      KeepElements(pairs, {a});
      pairs := Keep(pairs, {a});
    }

    /** Unpairs a batch of source nodes in one pass. */
    method RemoveSet(nodes: set<N>)
      requires Valid()
      modifies this
      ensures Valid()
      ensures src == old(src) - nodes && pairs == Keep(old(pairs), nodes)
    {
      KeepNone(pairs);
      MinusNone(src);
      if nodes == {} { return; }
      var todo := nodes;
      ghost var done: set<N> := {};
      while todo != {}
        invariant done + todo == nodes
        invariant Inverse(src, dst)
        invariant src == old(src) - done
        invariant pairs == old(pairs)
      {
        var n :| n in todo;
        UnpairInverse(src, dst, n);
        if n in src {
          dst := dst - {src[n]};
        }
        src := src - {n};
        todo := todo - {n};
        MinusTwice(old(src), done, n);
        done := done + {n};
      }
      assert done == nodes;
      KeepElements(pairs, nodes);
      pairs := Keep(pairs, nodes);
    }
  }

  lemma MinusNone<N(!new)>(src: map<N, N>)
    ensures src - {} == src
  {
  }

  lemma MinusTwice<N(!new)>(src: map<N, N>, gone: set<N>, n: N)
    ensures src - gone - {n} == src - (gone + {n})
  {
  }

  lemma {:induction false} KeepNone<N(!new)>(pairs: seq<Pair<N>>)
    ensures Keep(pairs, {}) == pairs
  {
    if pairs != [] { KeepNone(pairs[1..]); }
  }
}
