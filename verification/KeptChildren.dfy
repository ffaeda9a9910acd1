/** How few children of a container are moved: the ones that stay are nearly as many as could stay. */
module KeptChildren {
  import opened Lists
  import opened Trees
  import opened ScriptSpec
  import opened AlignSteps
  import ChildLcs

  /** Of the children at home, no set that already stands in the target's order is much larger than the kept one. */
  ghost predicate NearMost(j: Problem, cs: seq<Node>, s: seq<Node>, home: set<Node>, kept: set<Node>) {
    forall some :: some <= home && Sorted(j, cs, s, some) ==>
      10 * |some| <= 13 * |kept| && (|some| <= 4 ==> |some| <= |kept|)
  }

  /** The nodes moved by the script are those moved before, and ns. */
  ghost predicate AddsMoves(before: seq<Action>, script: seq<Action>, ns: set<Node>) {
    forall n :: n in Moved(script) <==> n in Moved(before) || n in ns
  }

  lemma AddsNone(before: seq<Action>, a: Action)
    requires !a.Move?
    ensures AddsMoves(before, before, {}) && AddsMoves(before, before + [a], {})
  {
    MentionAppend(before, a);
  }

  lemma AddsOne(before: seq<Action>, n: Node, p: Node, k: nat, s: bool)
    ensures AddsMoves(before, before + [Move(n, p, k, s)], {n})
  {
    MentionAppend(before, Move(n, p, k, s));
  }

  lemma AddsTwice(a: seq<Action>, b: seq<Action>, c: seq<Action>, m: set<Node>, n: set<Node>)
    requires AddsMoves(a, b, m) && AddsMoves(b, c, n)
    ensures AddsMoves(a, c, m + n)
  {
  }

  /** A Move below x's partner of the partner of one of the children in moved. */
  ghost predicate MovesOne(j: Problem, x: Node, a: Action, moved: set<Node>) {
    a.Move? && a.parent == Partner(j, x) && exists c :: c in moved && a.node == Partner(j, c)
  }

  /** The script goes on with one Move for each of the children in moved, and nothing else. */
  ghost predicate MovesAll(j: Problem, x: Node, before: seq<Action>, script: seq<Action>, moved: set<Node>) {
    && |script| == |before| + |moved| && script[..|before|] == before
    && (forall k :: |before| <= k < |script| ==> MovesOne(j, x, script[k], moved))
    && AddsMoves(before, script, PartnerSet(j, moved))
  }

  /** Aligning the children of x moves all that were at home but for a set that is nearly the largest in order; below an
      unordered container it moves none. */
  ghost predicate FewMoves(j: Problem, t: Tree, x: Node, before: seq<Action>, script: seq<Action>)
    requires x in j.dst.kids
  {
    exists kept ::
      && kept <= HomeSet(j, t, x) && MovesAll(j, x, before, script, HomeSet(j, t, x) - kept)
      && (Ordered(j, x) ==> NearMost(j, j.dst.kids[x], Kids(t, Partner(j, x)), HomeSet(j, t, x), kept))
      && (!Ordered(j, x) ==> kept == HomeSet(j, t, x))
  }

  lemma MovesNone(j: Problem, x: Node, script: seq<Action>)
    ensures MovesAll(j, x, script, script, {})
  {
  }

  lemma NoMoves(j: Problem, t: Tree, x: Node, script: seq<Action>)
    requires x in j.dst.kids && !Ordered(j, x)
    ensures FewMoves(j, t, x, script, script)
  {
    var kept := HomeSet(j, t, x);
    assert kept - kept == {};
    assert MovesAll(j, x, script, script, kept - kept);
  }

  lemma FewMovesBy(j: Problem, t: Tree, x: Node, before: seq<Action>, script: seq<Action>, kept: set<Node>)
    requires x in j.dst.kids && Ordered(j, x) && kept <= HomeSet(j, t, x)
    requires MovesAll(j, x, before, script, HomeSet(j, t, x) - kept)
    requires NearMost(j, j.dst.kids[x], Kids(t, Partner(j, x)), HomeSet(j, t, x), kept)
    ensures FewMoves(j, t, x, before, script)
  {
  }

  lemma MovesMore(j: Problem, x: Node, before: seq<Action>, script: seq<Action>, moved: set<Node>, b: Node, k: nat,
                  s: bool)
    requires MovesAll(j, x, before, script, moved) && b !in moved
    ensures MovesAll(j, x, before, script + [Move(Partner(j, b), Partner(j, x), k, s)], moved + {b})
  {
    var script', moved' := script + [Move(Partner(j, b), Partner(j, x), k, s)], moved + {b};
    AddsOne(script, Partner(j, b), Partner(j, x), k, s);
    AddsTwice(before, script, script', PartnerSet(j, moved), {Partner(j, b)});
    assert PartnerSet(j, moved') == PartnerSet(j, moved) + {Partner(j, b)};
    forall i | |before| <= i < |script'| ensures MovesOne(j, x, script'[i], moved') {
      if i < |script| {
        assert MovesOne(j, x, script[i], moved);
        var c :| c in moved && script[i].node == Partner(j, c);
        assert c in moved';
      } else {
        assert b in moved';
      }
    }
  }

  // ---------------------------------------------------------------- the children to move, one after the other

  lemma NoneYet(s2: seq<Node>, kept: set<Node>)
    ensures kept + SetOf(s2[..0]) == kept && kept - kept == {}
  {
  }

  lemma OneMore(s2: seq<Node>, i: nat, kept: set<Node>)
    requires NoDup(s2) && i < |s2|
    ensures var some, c := kept + SetOf(s2[..i]), s2[i];
            && kept + SetOf(s2[..i+1]) == some + {c}
            && (if c in kept then some + {c} == some else c !in some && some + {c} - kept == some - kept + {c})
  {
    assert s2[..i+1] == s2[..i] + [s2[i]];
    assert SetOf(s2[..i+1]) == SetOf(s2[..i]) + {s2[i]};
  }

  lemma HomeChildren(j: Problem, t: Tree, x: Node)
    requires x in j.dst.kids
    ensures forall c :: c in HomeSet(j, t, x) ==> c in j.dst.kids[x]
  {
  }

  lemma AllHome(s2: seq<Node>, kept: set<Node>, home: set<Node>)
    requires kept <= home && forall c :: c in s2 <==> c in home
    ensures kept + SetOf(s2) == home
  {
  }

  // ---------------------------------------------------------------- sets in order are chains of the board

  /** The board of the two sides of a container: a hit where the nodes are partners. */
  ghost predicate Faces(j: Problem, s1: seq<Node>, s2: seq<Node>, b: ChildLcs.Board) {
    && b.m == |s1| && b.n == |s2|
    && forall i: nat, k: nat :: b.hit(i, k) <==> i < |s1| && k < |s2| && Partner(j, s2[k]) == s1[i]
  }

  /** The pairs of the children in some, among the first n of the target's side. */
  ghost function PairsOf(j: Problem, s1: seq<Node>, s2: seq<Node>, some: set<Node>, n: nat): (ps: seq<(nat, nat)>)
    requires n <= |s2| && forall c :: c in some ==> Partner(j, c) in s1
    ensures forall k :: 0 <= k < |ps| ==>
              && ps[k].0 < |s1| && ps[k].1 < n && s2[ps[k].1] in some && s1[ps[k].0] == Partner(j, s2[ps[k].1])
  {
    if n == 0 then []
    else
      var rest := PairsOf(j, s1, s2, some, n - 1);
      if s2[n - 1] in some then rest + [(Index(s1, Partner(j, s2[n - 1])), n - 1)] else rest
  }

  /** Two children in order stand in order on both sides. */
  lemma InOrder(j: Problem, cs: seq<Node>, s: seq<Node>, s1: seq<Node>, s2: seq<Node>, some: set<Node>,
                p: (nat, nat), q: (nat, nat))
    requires NoDup(s) && Sublist(s, s1) && Sublist(cs, s2) && Sorted(j, cs, s, some)
    requires p.0 < |s1| && q.0 < |s1| && p.1 < q.1 < |s2|
    requires s2[p.1] in some && s2[q.1] in some && s1[p.0] == Partner(j, s2[p.1]) && s1[q.0] == Partner(j, s2[q.1])
    ensures p.0 < q.0
  {
    assert Before(cs, s2[p.1], s2[q.1]);
    SublistOrder(s, s1, p.0, q.0);
  }

  lemma {:induction false} PairsChain(j: Problem, cs: seq<Node>, s: seq<Node>, s1: seq<Node>, s2: seq<Node>,
                                      b: ChildLcs.Board, some: set<Node>, n: nat)
    requires NoDup(s) && Sublist(s, s1) && Sublist(cs, s2) && Sorted(j, cs, s, some) && Faces(j, s1, s2, b)
    requires n <= |s2| && forall c :: c in some ==> Partner(j, c) in s1
    ensures ChildLcs.Chain(b, PairsOf(j, s1, s2, some, n), 0, 0)
  {
    hide Sorted, Sublist;
    if n > 0 {
      PairsChain(j, cs, s, s1, s2, b, some, n - 1);
      var ps, rest := PairsOf(j, s1, s2, some, n), PairsOf(j, s1, s2, some, n - 1);
      if s2[n - 1] in some {
        forall k | 0 <= k < |rest| ensures rest[k].0 < ps[|rest|].0 && rest[k].1 < ps[|rest|].1 {
          InOrder(j, cs, s, s1, s2, some, rest[k], ps[|rest|]);
        }
      }
    }
  }

  lemma {:induction false} PairsCount(j: Problem, s1: seq<Node>, s2: seq<Node>, some: set<Node>, n: nat)
    requires NoDup(s2) && n <= |s2| && forall c :: c in some ==> Partner(j, c) in s1
    ensures |PairsOf(j, s1, s2, some, n)| == |some * SetOf(s2[..n])|
  {
    if n > 0 {
      PairsCount(j, s1, s2, some, n - 1);
      CountStep(s2, some, n);
      hide SetOf, NoDup;
    }
  }

  lemma CountStep(s2: seq<Node>, some: set<Node>, n: nat)
    requires NoDup(s2) && 0 < n <= |s2|
    ensures |some * SetOf(s2[..n])| == |some * SetOf(s2[..n - 1])| + if s2[n - 1] in some then 1 else 0
  {
    var c, was := s2[n - 1], some * SetOf(s2[..n - 1]);
    assert s2[..n] == s2[..n - 1] + [c];
    assert c !in was;
    assert some * SetOf(s2[..n]) == if c in some then was + {c} else was;
  }

  /** As many children are kept as the chain has pairs. */
  lemma KeptCount(s2: seq<Node>, b: ChildLcs.Board, ps: seq<(nat, nat)>, kept: set<Node>)
    requires NoDup(s2) && b.n == |s2| && ChildLcs.Chain(b, ps, 0, 0)
    requires forall c :: c in kept <==> exists i :: 0 <= i < |ps| && ps[i].1 < |s2| && c == s2[ps[i].1]
    ensures |kept| == |ps|
  {
    var ks := seq(|ps|, i requires 0 <= i < |ps| => s2[ps[i].1]);
    assert NoDup(ks);
    assert SetOf(ks) == kept by {
      forall c ensures c in kept <==> c in ks {
        if c in kept {
          var i :| 0 <= i < |ps| && ps[i].1 < |s2| && c == s2[ps[i].1];
          assert ks[i] == c;
        }
      }
    }
    NoDupLength(ks);
  }

  /** A heaviest chain keeps nearly the most. */
  lemma KeptNearMost(j: Problem, cs: seq<Node>, s: seq<Node>, s1: seq<Node>, s2: seq<Node>, b: ChildLcs.Board,
                     ps: seq<(nat, nat)>, kept: set<Node>)
    requires NoDup(s) && Sublist(s, s1) && Sublist(cs, s2) && Faces(j, s1, s2, b) && ChildLcs.Priced(b)
    requires forall c :: c in s2 ==> Partner(j, c) in s1
    requires ChildLcs.Chain(b, ps, 0, 0)
    requires forall qs :: ChildLcs.Chain(b, qs, 0, 0) ==> ChildLcs.Total(b, qs) <= ChildLcs.Total(b, ps)
    requires forall c :: c in kept <==> exists i :: 0 <= i < |ps| && ps[i].1 < |s2| && c == s2[ps[i].1]
    ensures NearMost(j, cs, s, SetOf(s2), kept)
  {
    SublistNoDup(cs, s2);
    KeptCount(s2, b, ps, kept);
    hide Sorted, Sublist, ChildLcs.Chain, ChildLcs.Total, ChildLcs.Priced, Faces;
    forall some | some <= SetOf(s2) && Sorted(j, cs, s, some)
      ensures 10 * |some| <= 13 * |kept| && (|some| <= 4 ==> |some| <= |kept|)
    {
      PairsChain(j, cs, s, s1, s2, b, some, |s2|);
      PairsCount(j, s1, s2, some, |s2|);
      assert s2[..|s2|] == s2 && some * SetOf(s2) == some;
      ChildLcs.NearLongest(b, ps, PairsOf(j, s1, s2, some, |s2|));
    }
  }
}
