/** The child alignment of one container, on values. */
module AlignSteps {
  import opened Lists
  import opened Trees
  import opened ScriptSpec
  import opened ScriptSteps
  import ChildLcs

  /** Forgetting the marks below x and its partner leaves all other marks paired. */
  lemma UnmarkKeeps(j: Problem, t: Tree, toSrc: map<Node, Node>, done: set<Node>, aligned: set<Node>, x: Node,
                    dstIn: set<Node>, srcIn: set<Node>)
    requires Sound(j) && done <= j.dst.kids.Keys && Inv(j, t, done)
    requires OrderInv(j, t, aligned, dstIn) && PairedMarks(j, toSrc, done, aligned, dstIn, srcIn)
    requires x in done && x !in aligned && aligned <= done
    requires forall v {:trigger toSrc[v]} :: v in toSrc ==> toSrc[v] == Partner(j, v)
    ensures PairedMarks(j, toSrc, done, aligned, dstIn - SetOf(j.dst.kids[x]), srcIn - SetOf(Kids(t, Partner(j, x))))
  {
    forall v | v in dstIn - SetOf(j.dst.kids[x]) ensures toSrc[v] !in Kids(t, Partner(j, x)) {
      MarkedElsewhere(j, t, toSrc, done, aligned, x, dstIn, srcIn, v);
    }
  }

  lemma MarkedElsewhere(j: Problem, t: Tree, toSrc: map<Node, Node>, done: set<Node>, aligned: set<Node>, x: Node,
                        dstIn: set<Node>, srcIn: set<Node>, v: Node)
    requires Sound(j) && done <= j.dst.kids.Keys && Inv(j, t, done)
    requires OrderInv(j, t, aligned, dstIn) && PairedMarks(j, toSrc, done, aligned, dstIn, srcIn)
    requires x in done && x !in aligned && aligned <= done && v in dstIn
    requires forall v {:trigger toSrc[v]} :: v in toSrc ==> toSrc[v] == Partner(j, v)
    ensures v in toSrc && toSrc[v] !in Kids(t, Partner(j, x))
  {
    if Partner(j, v) in Kids(t, Partner(j, x)) {
      assert t.parent[Partner(j, v)] == Partner(j, x);
      if v in j.dst.parent {
        var y := j.dst.parent[v];
        assert OrderAt(j, t, y, dstIn);
        assert v in j.dst.kids[y];
        assert Home(j, t, y, v);
        PartnerInjective(j, y, x);
      } else {
        assert t.parent[Partner(j, v)] == Up(j, v);
        PartnerNotFake(j, x);
      }
    }
  }

  /** A child that is at home is paired. */
  lemma HomePaired(j: Problem, t: Tree, toDst: map<Node, Node>, toSrc: map<Node, Node>, done: set<Node>,
                   names: set<Node>, x: Node, c: Node)
    requires Sound(j) && Inv(j, t, done) && Pairing(j, toDst, toSrc, done, names) && x in j.dst.kids
    requires c in HomeSet(j, t, x)
    ensures c in j.dst.kids && c in toSrc && toSrc[c] == Partner(j, c) && toSrc[c] in t.kids
    ensures t.parent[toSrc[c]] == Partner(j, x)
    ensures j.dst.parent[c] == x
  {
    assert j.dst.parent[c] == x;
    assert Partner(j, c) in t.kids;
    if c !in j.match0 {
      assert c in j.base.kids.Keys + (done - j.match0.Keys);
    }
  }

  ghost function PartnerSet(j: Problem, some: set<Node>): set<Node> {
    set c | c in some :: Partner(j, c)
  }

  /** Marking children at home keeps the marks paired; x counts as aligned from then on. */
  lemma MarkHome(j: Problem, t: Tree, toDst: map<Node, Node>, toSrc: map<Node, Node>, done: set<Node>,
                 names: set<Node>, aligned: set<Node>,
                 x: Node, dstIn: set<Node>, srcIn: set<Node>, some: set<Node>)
    requires Sound(j) && Inv(j, t, done) && Pairing(j, toDst, toSrc, done, names) && x in j.dst.kids
    requires PairedMarks(j, toSrc, done, aligned, dstIn, srcIn) && some <= HomeSet(j, t, x)
    ensures PairedMarks(j, toSrc, done, aligned + {x}, dstIn + some, srcIn + PartnerSet(j, some))
  {
    forall v | v in some
      ensures v in toSrc && toSrc[v] in PartnerSet(j, some) && v in j.dst.kids && v in j.dst.parent
      ensures j.dst.parent[v] == x
    {
      HomePaired(j, t, toDst, toSrc, done, names, x, v);
    }
  }

  /** With one child taken out, the ready children are the ones aligned so far. */
  lemma ReadyIsSome(j: Problem, t0: Tree, t: Tree, toDst: map<Node, Node>, toSrc: map<Node, Node>, done: set<Node>,
                    names: set<Node>,
                    x: Node, some: set<Node>, b: Node, dstIn: set<Node>, srcIn: set<Node>)
    requires Sound(j) && Inv(j, t0, done) && Pairing(j, toDst, toSrc, done, names) && AlignInv(j, t0, t, x, some)
    requires b in HomeSet(j, t0, x) && b !in some
    requires forall c :: c in j.dst.kids[x] ==> (c in dstIn <==> c in some)
    requires PartnerSet(j, some) <= srcIn
    ensures ReadySet(j, Detach(t, Partner(j, b)), toSrc, dstIn, srcIn, x) == some
  {
    hide Inv, Sound, Pairing, Linked;
    var u := Detach(t, Partner(j, b));
    HomePaired(j, t0, toDst, toSrc, done, names, x, b);
    assert u.parent == t.parent - {Partner(j, b)};
    forall c | c in some ensures c in j.dst.kids[x] && Ready(j, u, toSrc, dstIn, srcIn, x, c) {
      HomePaired(j, t0, toDst, toSrc, done, names, x, c);
      SomeReady(j, t0, u, toSrc, x, some, b, dstIn, srcIn, c);
    }
  }

  lemma SomeReady(j: Problem, t0: Tree, u: Tree, toSrc: map<Node, Node>, x: Node, some: set<Node>, b: Node,
                  dstIn: set<Node>, srcIn: set<Node>, c: Node)
    requires x in j.dst.kids && c in some && some <= HomeSet(j, t0, x) && b !in some
    requires c in j.dst.kids && b in j.dst.kids && Sound(j)
    requires u.parent == t0.parent - {Partner(j, b)}
    requires c in dstIn && c in toSrc && toSrc[c] == Partner(j, c) && PartnerSet(j, some) <= srcIn
    ensures Ready(j, u, toSrc, dstIn, srcIn, x, c)
  {
    if Partner(j, c) == Partner(j, b) { PartnerInjective(j, c, b); }
    assert Home(j, t0, x, c);
    assert Partner(j, c) in PartnerSet(j, some);
  }

  lemma AlignKeepsInv(j: Problem, t0: Tree, t: Tree, x: Node, some: set<Node>, done: set<Node>)
    requires Inv(j, t0, done) && AlignInv(j, t0, t, x, some)
    ensures Inv(j, t, done)
  {
  }

  /** Taking a node out leaves every other node listed below its parent. */
  lemma DetachListed(t: Tree, n: Node)
    requires Linked(t) && n in t.parent
    ensures forall m {:trigger Detach(t, n).parent[m]} :: m in Detach(t, n).parent ==>
              var p := Detach(t, n).parent[m]; m in t.kids && p in t.kids && m in Kids(Detach(t, n), p)
    ensures Detach(t, n).kids.Keys == t.kids.Keys
  {
    WithoutElements(t.kids[t.parent[n]], n);
    var u := Detach(t, n);
    forall m | m in u.parent ensures m in t.kids && u.parent[m] in t.kids && m in Kids(u, u.parent[m]) {
      assert m in t.kids[t.parent[m]];
    }
  }

  // ---------------------------------------------------------------- the kept pairs are in order

  lemma ChainOrder(b: ChildLcs.Board, ps: seq<(nat, nat)>, i: nat, k: nat)
    requires ChildLcs.Chain(b, ps, 0, 0) && i < |ps| && k < |ps|
    ensures ps[i].1 < ps[k].1 ==> i < k
  {
  }

  lemma SublistOrder(cs: seq<Node>, r: seq<Node>, a: nat, b: nat)
    requires NoDup(cs) && Sublist(cs, r) && a < |r| && b < |r|
    ensures Before(cs, r[a], r[b]) ==> a < b
  {
    BeforeIndex(cs, r[a], r[b]);
    BeforeIndex(cs, r[b], r[a]);
  }

  lemma KeptSorted(j: Problem, cs: seq<Node>, s: seq<Node>, s1: seq<Node>, s2: seq<Node>, b: ChildLcs.Board,
                   ps: seq<(nat, nat)>, some: set<Node>)
    requires NoDup(cs) && Sublist(s, s1) && Sublist(cs, s2)
    requires b.m == |s1| && b.n == |s2|
    requires forall i: nat, k: nat :: b.hit(i, k) ==> i < |s1| && k < |s2| && Partner(j, s2[k]) == s1[i]
    requires ChildLcs.Chain(b, ps, 0, 0)
    requires forall c :: c in some <==> exists i :: 0 <= i < |ps| && ps[i].1 < |s2| && c == s2[ps[i].1]
    ensures Sorted(j, cs, s, some)
  {
    forall c, d | c in some && d in some && Before(cs, c, d) ensures Before(s, Partner(j, c), Partner(j, d)) {
      var i :| 0 <= i < |ps| && ps[i].1 < |s2| && c == s2[ps[i].1];
      var k :| 0 <= k < |ps| && ps[k].1 < |s2| && d == s2[ps[k].1];
      SublistOrder(cs, s2, ps[i].1, ps[k].1);
      ChainOrder(b, ps, i, k);
      assert Before(s, s1[ps[i].0], s1[ps[k].0]);
    }
  }

  /** The tree after b's partner moved to its slot, and the action that did it. */
  lemma AlignEffect(j: Problem, t0: Tree, t: Tree, x: Node, some: set<Node>, b: Node, k: int, done: set<Node>,
                    script: seq<Action>, subtree: bool, r: Tree)
    requires Sound(j) && Visited(j, done) && Inv(j, t0, done) && AlignInv(j, t0, t, x, some)
    requires b in HomeSet(j, t0, x) && b !in some && Replay(j.base, script) == Some(t)
    requires Slot(j, j.dst.kids[x], Without(t.kids[Partner(j, x)], Partner(j, b)), some, b, k)
    requires k >= 0 ==> r == Attach(Detach(t, Partner(j, b)), Partner(j, x), Partner(j, b), k)
    ensures 0 <= k <= |Kids(Detach(t, Partner(j, b)), Partner(j, x))|
    ensures AlignInv(j, t0, r, x, some + {b}) && Inv(j, r, done)
    ensures Replay(j.base, script + [Move(Partner(j, b), Partner(j, x), k, subtree)]) == Some(r)
  {
    SlotInRange(j, j.dst.kids[x], Without(t.kids[Partner(j, x)], Partner(j, b)), some, b, k);
    AlignStep(j, t0, t, x, some, b, k);
    AlignKeepsInv(j, t0, r, x, some + {b}, done);
    InvIsTree(j, r, done);
    MoveReplays(j.base, t, script, Partner(j, b), Partner(j, x), k, subtree, r);
  }

  lemma DetachKids(t: Tree, n: Node, p: Node)
    requires n in t.parent && t.parent[n] == p && p in t.kids
    ensures Kids(Detach(t, n), p) == Without(t.kids[p], n)
    ensures Detach(t, n).parent == t.parent - {n}
  {
  }

  lemma AlignFacts(j: Problem, t0: Tree, t: Tree, x: Node, some: set<Node>, b: Node)
    requires Sound(j) && AlignInv(j, t0, t, x, some) && b in HomeSet(j, t0, x)
    ensures b in j.dst.parent && j.dst.parent[b] == x && b in j.dst.kids[x] && NoDup(j.dst.kids[x])
    ensures Partner(j, b) in t.parent && t.parent[Partner(j, b)] == Partner(j, x) && Partner(j, x) in t.kids
    ensures Partner(j, b) != Partner(j, x) && Linked(t)
  {
    assert j.dst.parent[b] == x;
    if Partner(j, b) == Partner(j, x) {
      PartnerInjective(j, b, x);
      NotOwnParent(j.dst, b);
    }
  }

  /** All that findPos needs to know once b's partner is out of its list. */
  lemma TakeOutFacts(j: Problem, t0: Tree, t: Tree, toDst: map<Node, Node>, toSrc: map<Node, Node>, done: set<Node>,
                     names: set<Node>,
                     x: Node, some: set<Node>, b: Node, dstIn: set<Node>, srcIn: set<Node>)
    requires Sound(j) && Inv(j, t0, done) && Pairing(j, toDst, toSrc, done, names) && AlignInv(j, t0, t, x, some)
    requires b in HomeSet(j, t0, x) && b !in some && x in toSrc
    requires forall c :: c in j.dst.kids[x] ==> (c in dstIn <==> c in some)
    requires PartnerSet(j, some) <= srcIn
    ensures b in toSrc && toSrc[b] == Partner(j, b) && toSrc[b] in names
    ensures x in j.dst.kids && b in j.dst.parent && j.dst.parent[b] == x && b in j.dst.kids[x] && NoDup(j.dst.kids[x])
    ensures Partner(j, b) in t.parent && t.parent[Partner(j, b)] != Partner(j, b) && Linked(t)
    ensures ReadySet(j, Detach(t, Partner(j, b)), toSrc, dstIn, srcIn, x) == some
    ensures Kids(Detach(t, Partner(j, b)), Partner(j, x)) == Without(Kids(t, Partner(j, x)), Partner(j, b))
    ensures forall m {:trigger Detach(t, Partner(j, b)).parent[m]} :: m in Detach(t, Partner(j, b)).parent ==>
              var u := Detach(t, Partner(j, b)); m in u.kids && u.parent[m] in u.kids && m in u.kids[u.parent[m]]
  {
    HomePaired(j, t0, toDst, toSrc, done, names, x, b);
    AlignFacts(j, t0, t, x, some, b);
    ReadyIsSome(j, t0, t, toDst, toSrc, done, names, x, some, b, dstIn, srcIn);
    DetachListed(t, Partner(j, b));
    DetachKids(t, Partner(j, b), Partner(j, x));
  }

  /** The marks while the children of x are being aligned: some are done, the others below x are unmarked. */
  ghost predicate PartMarked(j: Problem, x: Node, some: set<Node>, dst0: set<Node>, src0: set<Node>,
                             dstIn: set<Node>, srcIn: set<Node>)
    requires x in j.dst.kids
  {
    && dstIn == dst0 + some && srcIn == src0 + PartnerSet(j, some)
    && forall c :: c in j.dst.kids[x] ==> c !in dst0
  }

  lemma PartMarkedStep(j: Problem, x: Node, some: set<Node>, dst0: set<Node>, src0: set<Node>, dstIn: set<Node>,
                       srcIn: set<Node>, b: Node)
    requires x in j.dst.kids && PartMarked(j, x, some, dst0, src0, dstIn, srcIn)
    ensures PartMarked(j, x, some + {b}, dst0, src0, dstIn + {b}, srcIn + {Partner(j, b)})
  {
    assert PartnerSet(j, some + {b}) == PartnerSet(j, some) + {Partner(j, b)};
  }

  /** A child that is at home before its visit is paired with a source node. */
  lemma HomeMatched(j: Problem, t: Tree, done: set<Node>, x: Node, b: Node)
    requires Sound(j) && Inv(j, t, done) && x in j.dst.kids && b in HomeSet(j, t, x) && b !in done
    ensures b in j.dst.kids && b in j.match0
  {
    assert j.dst.parent[b] == x;
    assert Partner(j, b) in t.kids.Keys;
    assert b in j.dst.kids && b !in j.base.kids;
  }

  lemma AlignStart(j: Problem, t: Tree, done: set<Node>, x: Node, some: set<Node>)
    requires Inv(j, t, done) && x in j.dst.kids && Partner(j, x) in t.kids && some <= HomeSet(j, t, x)
    requires Sorted(j, j.dst.kids[x], t.kids[Partner(j, x)], some)
    ensures AlignInv(j, t, t, x, some)
  {
  }

  /** Aligning is finished: all children at home are in order and x counts as aligned. */
  lemma AlignFinish(j: Problem, t0: Tree, t: Tree, x: Node, done: set<Node>, aligned: set<Node>, marks: set<Node>,
                    marks': set<Node>)
    requires x in j.dst.kids && Sound(j) && Inv(j, t0, done)
    requires AlignInv(j, t0, t, x, HomeSet(j, t0, x)) && OrderInv(j, t0, aligned, marks)
    requires aligned <= j.dst.kids.Keys && x !in aligned
    requires marks' == marks - SetOf(j.dst.kids[x]) + HomeSet(j, t0, x)
    ensures OrderInv(j, t, aligned + {x}, marks')
  {
    AlignDone(j, t0, t, x, HomeSet(j, t0, x), aligned, marks, marks');
  }

  lemma AlignUnordered(j: Problem, t: Tree, x: Node, done: set<Node>, aligned: set<Node>, marks: set<Node>,
                       marks': set<Node>)
    requires Sound(j) && Inv(j, t, done) && OrderInv(j, t, aligned, marks) && !Ordered(j, x)
    requires aligned <= j.dst.kids.Keys && x !in aligned && x in j.dst.kids && Partner(j, x) in t.kids
    requires marks' == marks - SetOf(j.dst.kids[x]) + HomeSet(j, t, x)
    ensures OrderInv(j, t, aligned + {x}, marks')
  {
    AlignDone(j, t, t, x, HomeSet(j, t, x), aligned, marks, marks');
  }

  /** Before x is aligned none of its children is marked, so nothing is really forgotten. */
  lemma NoMarksBelow(j: Problem, toSrc: map<Node, Node>, done: set<Node>, aligned: set<Node>, x: Node,
                     dstIn: set<Node>, srcIn: set<Node>)
    requires Sound(j) && PairedMarks(j, toSrc, done, aligned, dstIn, srcIn) && x in j.dst.kids && x !in aligned
    ensures dstIn - SetOf(j.dst.kids[x]) == dstIn
  {
    forall c | c in j.dst.kids[x] ensures c !in dstIn {
      assert j.dst.parent[c] == x;
    }
  }

  lemma HomeAllPaired(j: Problem, t: Tree, toDst: map<Node, Node>, toSrc: map<Node, Node>, done: set<Node>,
                      names: set<Node>, x: Node)
    requires Sound(j) && Inv(j, t, done) && Pairing(j, toDst, toSrc, done, names) && x in j.dst.kids
    ensures forall c :: c in HomeSet(j, t, x) ==> c in toSrc && toSrc[c] == Partner(j, c)
    ensures HomeSet(j, t, x) <= j.dst.kids.Keys
  {
    forall c | c in HomeSet(j, t, x) ensures c in toSrc && toSrc[c] == Partner(j, c) && c in j.dst.kids {
      HomePaired(j, t, toDst, toSrc, done, names, x, c);
    }
  }

  lemma PairingValues(j: Problem, toDst: map<Node, Node>, toSrc: map<Node, Node>, done: set<Node>, names: set<Node>)
    requires Pairing(j, toDst, toSrc, done, names)
    ensures forall v {:trigger toSrc[v]} :: v in toSrc ==> toSrc[v] == Partner(j, v) && toSrc[v] in names
  {
  }

  lemma PartnersDiffer(j: Problem, some: seq<Node>)
    requires Sound(j) && forall c :: c in some ==> c in j.dst.kids
    ensures forall c, d {:trigger Partner(j, c), Partner(j, d)} ::
              c in some && d in some && Partner(j, c) == Partner(j, d) ==> c == d
  {
    forall c, d | c in some && d in some && Partner(j, c) == Partner(j, d) ensures c == d { PartnerInjective(j, c, d); }
  }

  lemma InTarget(j: Problem, t: Tree, done: set<Node>, x: Node)
    requires Sound(j) && Visited(j, done) && Inv(j, t, done) && x in done
    ensures x in j.dst.kids && NoDup(j.dst.kids[x]) && Partner(j, x) in t.kids && Linked(t)
  {
    PartnerInTree(j, t, done, x);
  }

  lemma PartMarkedStart(j: Problem, x: Node, some: set<Node>, dst0: set<Node>, src0: set<Node>)
    requires x in j.dst.kids && forall c :: c in j.dst.kids[x] ==> c !in dst0
    ensures PartMarked(j, x, some, dst0, src0, dst0 + some, src0 + PartnerSet(j, some))
  {
  }

  /** The state after the last child was aligned. */
  lemma AlignedState(j: Problem, t0: Tree, t: Tree, toDst: map<Node, Node>, toSrc: map<Node, Node>, done: set<Node>,
                     names: set<Node>, aligned: set<Node>,
                     x: Node, dst0: set<Node>, src0: set<Node>, dstIn: set<Node>, srcIn: set<Node>)
    requires Sound(j) && Visited(j, done) && Inv(j, t0, done) && Pairing(j, toDst, toSrc, done, names)
    requires OrderInv(j, t0, aligned, dst0) && PairedMarks(j, toSrc, done, aligned, dst0, src0)
    requires done == aligned + {x} && x !in aligned && x in j.dst.kids
    requires AlignInv(j, t0, t, x, HomeSet(j, t0, x))
    requires PartMarked(j, x, HomeSet(j, t0, x), dst0, src0, dstIn, srcIn)
    ensures Inv(j, t, done) && OrderInv(j, t, done, dstIn) && PairedMarks(j, toSrc, done, done, dstIn, srcIn)
  {
    hide Inv, Sound, Pairing, OrderInv, PairedMarks, Linked, Sorted, Home;
    var home := HomeSet(j, t0, x);
    MarkHome(j, t0, toDst, toSrc, done, names, aligned, x, dst0, src0, home);
    assert dst0 - SetOf(j.dst.kids[x]) == dst0;
    AlignFinish(j, t0, t, x, done, aligned, dst0, dstIn);
    AlignKeepsInv(j, t0, t, x, home, done);
  }
}
