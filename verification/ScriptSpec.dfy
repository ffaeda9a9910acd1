/** What the working tree of the edit script generator looks like after each step,
    stated on values: the part of the argument that does not depend on pointers. */
module ScriptSpec {
  import opened Lists
  import opened Trees

  /** base: the source tree under the fake root; dst: the target; match0: target node -> paired source node. */
  datatype Problem = Problem(base: Tree, dst: Tree, match0: map<Node, Node>)

  /** Both files are trees, they share no node, the pairs are one-to-one between them,
      and the two roots, when both exist, are paired with each other. */
  ghost predicate Sound(j: Problem) {
    && IsTree(j.base) && j.base.root == FakeRoot && IsAst(j.dst)
    && j.base.kids.Keys !! j.dst.kids.Keys
    && (forall x {:trigger j.match0[x]} :: x in j.match0 ==> x in j.dst.kids && j.match0[x] in j.base.parent)
    && (forall x, y {:trigger j.match0[x], j.match0[y]} ::
          x in j.match0 && y in j.match0 && j.match0[x] == j.match0[y] ==> x == y)
    && (j.base.kids[FakeRoot] != [] ==>
         j.dst.root in j.match0 && j.base.kids[FakeRoot] == [j.match0[j.dst.root]])
    && (forall n {:trigger j.base.labels[n]} :: n in j.base.parent ==> j.base.labels[n] == Text(n))
  }

  /** The node that stands for x in the working tree: its source partner, or x itself once inserted. */
  function Partner(j: Problem, x: Node): Node {
    if x in j.match0 then j.match0[x] else x
  }

  /** The node that must be the parent of x's partner. */
  function Up(j: Problem, x: Node): Node {
    if x in j.dst.parent then Partner(j, j.dst.parent[x]) else FakeRoot
  }

  /** n stands for some target node that has been visited. */
  ghost predicate Placed(j: Problem, done: set<Node>, n: Node) {
    exists x :: x in done && Partner(j, x) == n
  }

  /** The label of x's partner once x is visited: a paired root keeps its source label. */
  function Shown(j: Problem, x: Node): string {
    if x == j.dst.root && x in j.match0 then Text(j.match0[x]) else Text(x)
  }

  /** The visited set holds target nodes and, with each, its parent. */
  ghost predicate Visited(j: Problem, done: set<Node>) {
    && done <= j.dst.kids.Keys
    && forall x {:trigger j.dst.parent[x]} :: x in done && x in j.dst.parent ==> j.dst.parent[x] in done
  }

  ghost predicate NodesInv(j: Problem, t: Tree, done: set<Node>) {
    t.root == FakeRoot && t.kids.Keys == j.base.kids.Keys + (done - j.match0.Keys)
  }

  /** Visited nodes hang where the target says, all others where the source put them. */
  ghost predicate ParentsInv(j: Problem, parent: map<Node, Node>, done: set<Node>) {
    && (forall x {:trigger parent[Partner(j, x)]} {:trigger Partner(j, x) in parent} :: x in done ==>
          Partner(j, x) in parent && parent[Partner(j, x)] == Up(j, x))
    && (forall n {:trigger parent[n]} {:trigger j.base.parent[n]} :: n in j.base.parent && !Placed(j, done, n) ==>
          n in parent && parent[n] == j.base.parent[n])
  }

  /** Visited nodes show their target label, all others their source label. */
  ghost predicate LabelsInv(j: Problem, labels: map<Node, string>, done: set<Node>) {
    && (forall x {:trigger labels[Partner(j, x)]} {:trigger Partner(j, x) in labels} :: x in done ==>
          Partner(j, x) in labels && labels[Partner(j, x)] == Shown(j, x))
    && (forall n {:trigger labels[n]} :: n in j.base.parent && !Placed(j, done, n) ==>
          n in labels && labels[n] == Text(n))
  }

  ghost predicate Inv(j: Problem, t: Tree, done: set<Node>) {
    Linked(t) && NodesInv(j, t, done) && ParentsInv(j, t.parent, done) && LabelsInv(j, t.labels, done)
  }

  lemma PartnerInjective(j: Problem, x: Node, y: Node)
    requires Sound(j) && x in j.dst.kids && y in j.dst.kids && Partner(j, x) == Partner(j, y)
    ensures x == y
  {
    assert forall z :: z in j.match0 ==> j.match0[z] in j.base.kids;
  }

  lemma PartnerNotFake(j: Problem, x: Node)
    requires Sound(j) && x in j.dst.kids
    ensures Partner(j, x) != FakeRoot
  {
    assert FakeRoot in j.base.kids;
  }

  lemma InvStart(j: Problem)
    requires Sound(j)
    ensures Inv(j, j.base, {})
  {
  }

  lemma PartnerInTree(j: Problem, t: Tree, done: set<Node>, x: Node)
    requires Sound(j) && Visited(j, done) && Inv(j, t, done) && x in j.dst.kids
    ensures x in done || x in j.match0 ==> Partner(j, x) in t.kids && Partner(j, x) in t.parent
    ensures x !in done && x !in j.match0 ==> x !in t.kids
  {
  }

  lemma PlacedGrows(j: Problem, done: set<Node>, x: Node, n: Node)
    ensures Placed(j, done + {x}, n) <==> Placed(j, done, n) || Partner(j, x) == n
  {
    assert x in done + {x};
    if Placed(j, done, n) {
      var y :| y in done && Partner(j, y) == n;
      assert y in done + {x};
    }
  }

  lemma ParentsStep(j: Problem, parent: map<Node, Node>, done: set<Node>, x: Node)
    requires Sound(j) && done <= j.dst.kids.Keys && ParentsInv(j, parent, done)
    requires x in j.dst.kids && x !in done
    ensures ParentsInv(j, parent[Partner(j, x) := Up(j, x)], done + {x})
  {
    hide Sound, Placed, Up, Partner;
    var q := parent[Partner(j, x) := Up(j, x)];
    forall y | y in done + {x} ensures Partner(j, y) in q && q[Partner(j, y)] == Up(j, y) {
      if Partner(j, y) == Partner(j, x) { PartnerInjective(j, x, y); }
    }
    forall n | n in j.base.parent && !Placed(j, done + {x}, n) ensures n in q && q[n] == j.base.parent[n] {
      PlacedGrows(j, done, x, n);
    }
  }

  lemma LabelsStep(j: Problem, labels: map<Node, string>, done: set<Node>, x: Node)
    requires Sound(j) && done <= j.dst.kids.Keys && LabelsInv(j, labels, done)
    requires x in j.dst.kids && x !in done
    ensures LabelsInv(j, labels[Partner(j, x) := Shown(j, x)], done + {x})
  {
    hide Sound, Placed, Shown, Partner;
    var q := labels[Partner(j, x) := Shown(j, x)];
    forall y | y in done + {x} ensures Partner(j, y) in q && q[Partner(j, y)] == Shown(j, y) {
      if Partner(j, y) == Partner(j, x) { PartnerInjective(j, x, y); }
    }
    forall n | n in j.base.parent && !Placed(j, done + {x}, n) ensures n in q && q[n] == Text(n) {
      PlacedGrows(j, done, x, n);
    }
  }

  lemma NodesStep(j: Problem, t: Tree, done: set<Node>, x: Node)
    requires Sound(j) && NodesInv(j, t, done) && x in j.dst.kids
    ensures t.kids.Keys + {Partner(j, x)} == j.base.kids.Keys + (done + {x} - j.match0.Keys)
  {
    hide Sound;
    if x in j.match0 { MatchInBase(j, x); }
  }

  lemma MatchInBase(j: Problem, x: Node)
    requires Sound(j) && x in j.match0
    ensures j.match0[x] in j.base.kids
  {
    assert j.match0[x] in j.base.parent;
  }

  /** Visiting x: whatever else the step does to child lists, it must hang x's partner where it belongs. */
  lemma InvStep(j: Problem, t: Tree, done: set<Node>, x: Node, r: Tree)
    requires Sound(j) && done <= j.dst.kids.Keys && Inv(j, t, done)
    requires x in j.dst.kids && x !in done
    requires Linked(r) && r.root == t.root
    requires r.kids.Keys == t.kids.Keys + {Partner(j, x)}
    requires r.parent == t.parent[Partner(j, x) := Up(j, x)]
    requires r.labels == t.labels[Partner(j, x) := Shown(j, x)]
    ensures Inv(j, r, done + {x})
  {
    ParentsStep(j, t.parent, done, x);
    LabelsStep(j, t.labels, done, x);
    NodesStep(j, t, done, x);
  }

  /** A bound for the depths of a finite map. */
  lemma DepthBound(depth: map<Node, nat>) returns (b: nat)
    ensures forall n :: n in depth ==> depth[n] < b
    decreases |depth|
  {
    if |depth| == 0 {
      b := 0;
    } else {
      var n :| n in depth;
      assert |depth - {n}| < |depth| by {
        assert (depth - {n}).Keys == depth.Keys - {n};
        assert |depth.Keys - {n}| < |depth.Keys|;
      }
      var b' := DepthBound(depth - {n});
      b := if depth[n] < b' then b' else depth[n] + 1;
      forall m | m in depth ensures depth[m] < b {
        if m != n { assert m in depth - {n}; }
      }
    }
  }

  ghost function RankOf(j: Problem, done: set<Node>, dd: map<Node, nat>, bb: map<Node, nat>, b: nat, n: Node): nat
    requires done <= dd.Keys
  {
    if Placed(j, done, n) then (var x :| x in done && Partner(j, x) == n; dd[x] + 1)
    else if n == FakeRoot || n !in bb then 0
    else b + 1 + bb[n]
  }

  lemma RankOfPartner(j: Problem, done: set<Node>, dd: map<Node, nat>, bb: map<Node, nat>, b: nat, x: Node)
    requires Sound(j) && done <= j.dst.kids.Keys && done <= dd.Keys && x in done
    ensures RankOf(j, done, dd, bb, b, Partner(j, x)) == dd[x] + 1
  {
    assert Placed(j, done, Partner(j, x));
    var y :| y in done && Partner(j, y) == Partner(j, x) && RankOf(j, done, dd, bb, b, Partner(j, x)) == dd[y] + 1;
    PartnerInjective(j, x, y);
  }

  lemma FakeRootNotPlaced(j: Problem, done: set<Node>, n: Node)
    requires Sound(j) && done <= j.dst.kids.Keys && Placed(j, done, n)
    ensures n != FakeRoot
    ensures n in j.base.parent || n in j.dst.kids
  {
    assert FakeRoot in j.base.kids;
  }

  lemma NotPlacedIsSource(j: Problem, t: Tree, done: set<Node>, n: Node)
    requires Sound(j) && Inv(j, t, done) && n in t.parent && !Placed(j, done, n)
    ensures n in j.base.parent
  {
    assert n in done - j.match0.Keys ==> Partner(j, n) == n;
  }

  /** The nodes below the root are the ones with a parent, and an unplaced source node is one of them. */
  lemma BelowRoot(j: Problem, t: Tree, done: set<Node>, n: Node)
    requires Inv(j, t, done)
    ensures n in t.parent <==> n in t.kids && n != t.root
    ensures n in j.base.parent && !Placed(j, done, n) ==> n in t.parent
  {
    assert Linked(t);
  }

  /** Every edge of the working tree leads to a higher rank. */
  lemma RankGrows(j: Problem, t: Tree, done: set<Node>, dd: map<Node, nat>, bb: map<Node, nat>, b: nat, n: Node)
    requires Sound(j) && Visited(j, done) && Inv(j, t, done) && n in t.parent
    requires Ranked(j.dst, dd) && Ranked(j.base, bb) && forall m :: m in dd ==> dd[m] < b
    ensures done <= dd.Keys
    ensures RankOf(j, done, dd, bb, b, t.parent[n]) < RankOf(j, done, dd, bb, b, n)
  {
    assert done <= dd.Keys;
    if Placed(j, done, n) {
      var x :| x in done && Partner(j, x) == n;
      RankOfPartner(j, done, dd, bb, b, x);
      if x in j.dst.parent {
        RankOfPartner(j, done, dd, bb, b, j.dst.parent[x]);
      } else if Placed(j, done, FakeRoot) {
        FakeRootNotPlaced(j, done, FakeRoot);
      }
    } else {
      NotPlacedIsSource(j, t, done, n);
      var p := j.base.parent[n];
      if Placed(j, done, p) {
        var y :| y in done && Partner(j, y) == p;
        RankOfPartner(j, done, dd, bb, b, y);
        assert dd[y] < b;
      }
    }
  }

  /** The working tree is a tree at every step: no cycle can arise. */
  lemma InvIsTree(j: Problem, t: Tree, done: set<Node>)
    requires Sound(j) && Visited(j, done) && Inv(j, t, done)
    ensures IsTree(t)
  {
    var dd :| Ranked(j.dst, dd);
    var bb :| Ranked(j.base, bb);
    var b := DepthBound(dd);
    assert done <= dd.Keys;
    var rank := map n | n in t.kids :: RankOf(j, done, dd, bb, b, n);
    forall c | c in t.parent ensures rank[t.parent[c]] < rank[c] {
      RankGrows(j, t, done, dd, bb, b, c);
    }
    assert Ranked(t, rank);
  }

  // ---------------------------------------------------------------- sibling order

  /** The children of y are order-sensitive on both sides. */
  ghost predicate Ordered(j: Problem, y: Node) {
    !Unordered(y) && !Unordered(Partner(j, y))
  }

  /** c's partner already hangs below y's partner. */
  ghost predicate Home(j: Problem, t: Tree, y: Node, c: Node) {
    Partner(j, c) in t.parent && t.parent[Partner(j, c)] == Partner(j, y)
  }

  /** The partners of the children of y listed in some stand in the target's order. */
  ghost predicate Sorted(j: Problem, cs: seq<Node>, s: seq<Node>, some: set<Node>) {
    forall c, d :: c in some && d in some && Before(cs, c, d) ==> Before(s, Partner(j, c), Partner(j, d))
  }

  ghost function HomeSet(j: Problem, t: Tree, y: Node): set<Node>
    requires y in j.dst.kids
  {
    set c | c in j.dst.kids[y] && Home(j, t, y, c)
  }

  /** The children of y that are at home are exactly the marked ones, and stand in order if order matters. */
  ghost predicate OrderAt(j: Problem, t: Tree, y: Node, marks: set<Node>) {
    && y in j.dst.kids && Partner(j, y) in t.kids
    && (forall c :: c in j.dst.kids[y] ==> (c in marks <==> Home(j, t, y, c)))
    && (Ordered(j, y) ==> Sorted(j, j.dst.kids[y], t.kids[Partner(j, y)], HomeSet(j, t, y)))
  }

  ghost predicate OrdersAt(j: Problem, t: Tree, done: set<Node>, marks: set<Node>) {
    forall y {:trigger OrderAt(j, t, y, marks)} :: y in done ==> OrderAt(j, t, y, marks)
  }

  /** The working children of x's partner are some of its source children, in their order. */
  ghost predicate Waiting(j: Problem, t: Tree, x: Node) {
    x in j.match0 ==>
      && j.match0[x] in j.base.kids && j.match0[x] in t.kids
      && Sublist(j.base.kids[j.match0[x]], t.kids[j.match0[x]])
  }

  /** The containers that have been aligned are in order, and the others as they were but for children taken away. */
  ghost predicate OrderInv(j: Problem, t: Tree, done: set<Node>, marks: set<Node>) {
    && OrdersAt(j, t, done, marks)
    && forall x {:trigger Waiting(j, t, x)} :: x in j.dst.kids && x !in done ==> Waiting(j, t, x)
  }

  lemma OrderStart(j: Problem)
    requires Sound(j)
    ensures OrderInv(j, j.base, {}, {})
  {
    forall x | x in j.match0 ensures Waiting(j, j.base, x) {
      SublistWhole(j.base.kids[j.match0[x]]);
    }
  }

  /** Taking a node out of the lists of the containers that wait. */
  lemma WaitingStep(j: Problem, t: Tree, z: Node, p: Node, n: Node, r: Tree)
    requires Sound(j) && Waiting(j, t, z) && z in j.dst.kids && (z in j.match0 ==> j.match0[z] != p)
    requires t.kids.Keys <= r.kids.Keys
    requires forall m {:trigger r.kids[m]} :: m in t.kids && m != p ==> r.kids[m] == Without(t.kids[m], n)
    ensures Waiting(j, r, z)
  {
    if z in j.match0 {
      SublistWithout(j.base.kids[j.match0[z]], t.kids[j.match0[z]], n);
    }
  }

  /** Position k follows the partner of the nearest ready sibling left of x, or is 0 if there is none. */
  ghost predicate Slot(j: Problem, cs: seq<Node>, s: seq<Node>, ready: set<Node>, x: Node, k: int) {
    || (k == 0 && forall c :: c in ready ==> !Before(cs, c, x))
    || (exists v :: && v in ready && Before(cs, v, x) && Partner(j, v) in s && k == Index(s, Partner(j, v)) + 1
                    && forall c :: c in ready && Before(cs, c, x) ==> c == v || Before(cs, c, v))
  }

  lemma SlotInRange(j: Problem, cs: seq<Node>, s: seq<Node>, ready: set<Node>, x: Node, k: int)
    requires Slot(j, cs, s, ready, x, k)
    ensures 0 <= k <= |s|
  {
  }

  /** Scanning leftwards from x, the first ready sibling met gives the slot. */
  lemma SlotAt(j: Problem, cs: seq<Node>, s: seq<Node>, ready: set<Node>, x: Node, i: nat, k: int)
    requires NoDup(cs) && x in cs && i < Index(cs, x) && cs[i] in ready && Partner(j, cs[i]) in s
    requires k == Index(s, Partner(j, cs[i])) + 1
    requires forall l :: i < l < Index(cs, x) ==> cs[l] !in ready
    ensures Slot(j, cs, s, ready, x, k)
  {
    var v := cs[i];
    assert Before(cs, v, x);
    forall c | c in ready && Before(cs, c, x) ensures c == v || Before(cs, c, v) {
      BeforeIndex(cs, c, x);
      BeforeIndex(cs, c, v);
      assert cs[Index(cs, c)] == c && cs[Index(cs, v)] == v;
    }
  }

  lemma NoSlotAt(cs: seq<Node>, ready: set<Node>, x: Node)
    requires NoDup(cs) && x in cs
    requires forall l :: 0 <= l < Index(cs, x) ==> cs[l] !in ready
    ensures forall c :: c in ready ==> !Before(cs, c, x)
  {
    forall c | c in ready ensures !Before(cs, c, x) {
      BeforeIndex(cs, c, x);
      assert c in cs ==> cs[Index(cs, c)] == c;
    }
  }

  lemma BeforeTrans(cs: seq<Node>, a: Node, b: Node, c: Node)
    requires NoDup(cs) && Before(cs, a, b) && Before(cs, b, c)
    ensures Before(cs, a, c)
  {
    BeforeIndex(cs, a, b);
    BeforeIndex(cs, b, c);
    BeforeIndex(cs, a, c);
  }

  /** Inserting x's partner at the slot keeps the ready siblings and x in the target's order. */
  lemma SlotKeepsOrder(j: Problem, cs: seq<Node>, s: seq<Node>, ready: set<Node>, x: Node, k: nat)
    requires NoDup(cs) && NoDup(s) && Partner(j, x) !in s && k <= |s|
    requires Slot(j, cs, s, ready, x, k) && Sorted(j, cs, s, ready)
    requires forall c :: c in ready ==> c in cs && Partner(j, c) in s
    ensures Sorted(j, cs, InsertAt(s, k, Partner(j, x)), ready + {x})
  {
    var n := Partner(j, x);
    var r := InsertAt(s, k, n);
    InsertAtElements(s, k, n);
    forall c, d | c in ready + {x} && d in ready + {x} && Before(cs, c, d)
      ensures Before(r, Partner(j, c), Partner(j, d))
    {
      BeforeIndex(cs, c, d);
      if c in ready && d in ready {
      } else if c in ready {
        SlotAfter(j, cs, s, ready, x, k, c);
        InsertAtOrder(s, k, n, Partner(j, c));
      } else if d in ready {
        SlotBefore(j, cs, s, ready, x, k, d);
        InsertAtOrder(s, k, n, Partner(j, d));
      }
    }
  }

  lemma SlotAfter(j: Problem, cs: seq<Node>, s: seq<Node>, ready: set<Node>, x: Node, k: nat, c: Node)
    requires NoDup(cs) && NoDup(s) && Slot(j, cs, s, ready, x, k) && Sorted(j, cs, s, ready)
    requires c in ready && Partner(j, c) in s && Before(cs, c, x)
    ensures Index(s, Partner(j, c)) < k
  {
    var v :| v in ready && Before(cs, v, x) && Partner(j, v) in s && k == Index(s, Partner(j, v)) + 1
             && forall c :: c in ready && Before(cs, c, x) ==> c == v || Before(cs, c, v);
    if c != v {
      BeforeIndex(s, Partner(j, c), Partner(j, v));
    }
  }

  lemma SlotBefore(j: Problem, cs: seq<Node>, s: seq<Node>, ready: set<Node>, x: Node, k: nat, d: Node)
    requires NoDup(cs) && NoDup(s) && Slot(j, cs, s, ready, x, k) && Sorted(j, cs, s, ready)
    requires d in ready && Partner(j, d) in s && Before(cs, x, d)
    ensures k <= Index(s, Partner(j, d))
  {
    if k != 0 {
      var v :| v in ready && Before(cs, v, x) && Partner(j, v) in s && k == Index(s, Partner(j, v)) + 1;
      BeforeTrans(cs, v, x, d);
      BeforeIndex(s, Partner(j, v), Partner(j, d));
    }
  }

  lemma HomeInKids(j: Problem, t: Tree, y: Node)
    requires Linked(t) && y in j.dst.kids
    ensures forall c :: c in HomeSet(j, t, y) ==>
              c in j.dst.kids[y] && Partner(j, y) in t.kids && Partner(j, c) in t.kids[Partner(j, y)]
  {
  }

  lemma HomeOne(j: Problem, t: Tree, z: Node, y: Node, x: Node, r: Tree, c: Node)
    requires Sound(j) && z in j.dst.kids && y in j.dst.kids && x in j.dst.kids[y] && c in j.dst.kids[z]
    requires r.parent == t.parent[Partner(j, x) := Partner(j, y)]
    ensures Home(j, r, z, c) <==> Home(j, t, z, c) || c == x
    ensures c == x ==> z == y
    ensures c != x ==> Partner(j, c) != Partner(j, x)
  {
    assert j.dst.parent[x] == y && j.dst.parent[c] == z;
    if Partner(j, c) == Partner(j, x) { PartnerInjective(j, c, x); }
  }

  lemma HomeStep(j: Problem, t: Tree, z: Node, y: Node, x: Node, r: Tree)
    requires Sound(j) && z in j.dst.kids && y in j.dst.kids && x in j.dst.kids[y]
    requires r.parent == t.parent[Partner(j, x) := Partner(j, y)]
    ensures HomeSet(j, r, z) == HomeSet(j, t, z) + if z == y then {x} else {}
  {
    forall c | c in j.dst.kids[z] ensures Home(j, r, z, c) <==> Home(j, t, z, c) || c == x {
      HomeOne(j, t, z, y, x, r, c);
    }
    if z != y && x in j.dst.kids[z] { HomeOne(j, t, z, y, x, r, x); }
  }

  lemma SortedWithout(j: Problem, cs: seq<Node>, s: seq<Node>, some: set<Node>, n: Node)
    requires NoDup(s) && Sorted(j, cs, s, some) && forall c :: c in some ==> Partner(j, c) != n
    ensures Sorted(j, cs, Without(s, n), some)
  {
    WithoutElements(s, n);
  }

  /** Hanging x's partner below y's at its slot, wherever it was before: every visited container stays in order. */
  lemma OrderStep(j: Problem, t: Tree, done: set<Node>, marks: set<Node>, y: Node, x: Node, k: nat, r: Tree)
    requires Sound(j) && OrderInv(j, t, done, marks) && Linked(t)
    requires y in done && y in j.dst.kids && x in j.dst.kids[y] && !Home(j, t, y, x) && Partner(j, y) in t.kids
    requires Slot(j, j.dst.kids[y], t.kids[Partner(j, y)], HomeSet(j, t, y), x, k)
    requires r.parent == t.parent[Partner(j, x) := Partner(j, y)]
    requires t.kids.Keys <= r.kids.Keys
    requires k <= |t.kids[Partner(j, y)]| && r.kids[Partner(j, y)] == InsertAt(t.kids[Partner(j, y)], k, Partner(j, x))
    requires forall m {:trigger r.kids[m]} :: m in t.kids && m != Partner(j, y) ==>
               r.kids[m] == Without(t.kids[m], Partner(j, x))
    ensures OrderInv(j, r, done, marks + {x})
  {
    forall z | z in done ensures OrderAt(j, r, z, marks + {x}) {
      OrderStepAt(j, t, done, marks, y, x, k, r, z);
    }
    forall z | z in j.dst.kids && z !in done ensures Waiting(j, r, z) {
      assert Waiting(j, t, z);
      if Partner(j, z) == Partner(j, y) { PartnerInjective(j, z, y); }
      WaitingStep(j, t, z, Partner(j, y), Partner(j, x), r);
    }
  }

  lemma OrderStepAt(j: Problem, t: Tree, done: set<Node>, marks: set<Node>, y: Node, x: Node, k: nat, r: Tree, z: Node)
    requires Sound(j) && OrderInv(j, t, done, marks) && Linked(t)
    requires y in done && y in j.dst.kids && x in j.dst.kids[y] && !Home(j, t, y, x) && Partner(j, y) in t.kids
    requires Slot(j, j.dst.kids[y], t.kids[Partner(j, y)], HomeSet(j, t, y), x, k)
    requires r.parent == t.parent[Partner(j, x) := Partner(j, y)]
    requires t.kids.Keys <= r.kids.Keys
    requires k <= |t.kids[Partner(j, y)]| && r.kids[Partner(j, y)] == InsertAt(t.kids[Partner(j, y)], k, Partner(j, x))
    requires forall m {:trigger r.kids[m]} :: m in t.kids && m != Partner(j, y) ==>
               r.kids[m] == Without(t.kids[m], Partner(j, x))
    requires z in done
    ensures OrderAt(j, r, z, marks + {x})
  {
    assert OrderAt(j, t, z, marks);
    forall c | c in j.dst.kids[z] ensures c in marks + {x} <==> Home(j, r, z, c) {
      HomeOne(j, t, z, y, x, r, c);
    }
    HomeStep(j, t, z, y, x, r);
    var home := HomeSet(j, t, z);
    if z == y {
      HomeInKids(j, t, z);
      if Ordered(j, z) {
        SlotKeepsOrder(j, j.dst.kids[y], t.kids[Partner(j, y)], home, x, k);
      }
    } else {
      if Partner(j, z) == Partner(j, y) { PartnerInjective(j, z, y); }
      if x in j.dst.kids[z] { HomeOne(j, t, z, y, x, r, x); }
      forall c | c in home ensures Partner(j, c) != Partner(j, x) {
        HomeOne(j, t, z, y, x, r, c);
      }
      if Ordered(j, z) {
        SortedWithout(j, j.dst.kids[z], t.kids[Partner(j, z)], home, Partner(j, x));
      }
    }
  }

  // ---------------------------------------------------------------- aligning the children of one node

  /** While the children of x are being aligned only x's partner's own child list moves;
      the children in some are already in the target's order. */
  ghost predicate AlignInv(j: Problem, t0: Tree, t: Tree, x: Node, some: set<Node>) {
    && Linked(t) && x in j.dst.kids && Partner(j, x) in t.kids
    && t.root == t0.root && t.parent == t0.parent && t.labels == t0.labels && t.kids.Keys == t0.kids.Keys
    && (forall m {:trigger t.kids[m]} :: m in t.kids && m != Partner(j, x) ==> t.kids[m] == t0.kids[m])
    && some <= HomeSet(j, t0, x)
    && Sorted(j, j.dst.kids[x], t.kids[Partner(j, x)], some)
  }

  lemma AlignOthers(j: Problem, t0: Tree, t: Tree, x: Node, some: set<Node>, b: Node)
    requires Sound(j) && AlignInv(j, t0, t, x, some)
    requires b in HomeSet(j, t0, x) && b !in some
    ensures forall c :: c in some ==>
              c in j.dst.kids[x] && Partner(j, c) != Partner(j, b) && Partner(j, c) in t.kids[Partner(j, x)]
    ensures Partner(j, b) in t.parent && t.parent[Partner(j, b)] == Partner(j, x)
  {
    HomeInKids(j, t, x);
    forall c | c in some
      ensures c in j.dst.kids[x] && Partner(j, c) != Partner(j, b) && Partner(j, c) in t.kids[Partner(j, x)]
    {
      assert c in HomeSet(j, t, x);
      if Partner(j, c) == Partner(j, b) { PartnerInjective(j, c, b); }
    }
  }

  lemma AlignOrder(j: Problem, t0: Tree, t: Tree, x: Node, some: set<Node>, b: Node, k: nat)
    requires Sound(j) && AlignInv(j, t0, t, x, some)
    requires b in HomeSet(j, t0, x) && b !in some
    requires Slot(j, j.dst.kids[x], Without(t.kids[Partner(j, x)], Partner(j, b)), some, b, k)
    ensures k <= |Without(t.kids[Partner(j, x)], Partner(j, b))|
    ensures Sorted(j, j.dst.kids[x], InsertAt(Without(t.kids[Partner(j, x)], Partner(j, b)), k, Partner(j, b)),
                   some + {b})
  {
    var s := t.kids[Partner(j, x)];
    AlignOthers(j, t0, t, x, some, b);
    WithoutElements(s, Partner(j, b));
    SortedWithout(j, j.dst.kids[x], s, some, Partner(j, b));
    SlotKeepsOrder(j, j.dst.kids[x], Without(s, Partner(j, b)), some, b, k);
  }

  lemma AlignStep(j: Problem, t0: Tree, t: Tree, x: Node, some: set<Node>, b: Node, k: nat)
    requires Sound(j) && AlignInv(j, t0, t, x, some)
    requires b in HomeSet(j, t0, x) && b !in some
    requires Slot(j, j.dst.kids[x], Without(t.kids[Partner(j, x)], Partner(j, b)), some, b, k)
    ensures Partner(j, b) in t.parent && t.parent[Partner(j, b)] == Partner(j, x)
    ensures k <= |Kids(Detach(t, Partner(j, b)), Partner(j, x))|
    ensures AlignInv(j, t0, Attach(Detach(t, Partner(j, b)), Partner(j, x), Partner(j, b), k), x, some + {b})
  {
    AlignOthers(j, t0, t, x, some, b);
    AlignOrder(j, t0, t, x, some, b, k);
    AlignCombine(j, t0, t, x, some, b, k);
  }

  lemma AlignCombine(j: Problem, t0: Tree, t: Tree, x: Node, some: set<Node>, b: Node, k: nat)
    requires AlignInv(j, t0, t, x, some) && b in HomeSet(j, t0, x)
    requires Partner(j, b) in t.parent && t.parent[Partner(j, b)] == Partner(j, x)
    requires k <= |Without(t.kids[Partner(j, x)], Partner(j, b))|
    requires Sorted(j, j.dst.kids[x], InsertAt(Without(t.kids[Partner(j, x)], Partner(j, b)), k, Partner(j, b)),
                    some + {b})
    ensures k <= |Kids(Detach(t, Partner(j, b)), Partner(j, x))|
    ensures AlignInv(j, t0, Attach(Detach(t, Partner(j, b)), Partner(j, x), Partner(j, b), k), x, some + {b})
  {
    AlignStepFrame(j, t0, t, x, Partner(j, b), k);
  }

  lemma AlignStepFrame(j: Problem, t0: Tree, t: Tree, x: Node, n: Node, k: nat)
    requires Linked(t) && x in j.dst.kids && Partner(j, x) in t.kids
    requires n in t.parent && t.parent[n] == Partner(j, x) && k <= |Without(t.kids[Partner(j, x)], n)|
    requires t.kids.Keys == t0.kids.Keys
    requires forall m {:trigger t.kids[m]} :: m in t.kids && m != Partner(j, x) ==> t.kids[m] == t0.kids[m]
    ensures k <= |Kids(Detach(t, n), Partner(j, x))|
    ensures var r := Attach(Detach(t, n), Partner(j, x), n, k);
            && Linked(r) && r.root == t.root && r.labels == t.labels
            && r.parent == t.parent && r.kids.Keys == t.kids.Keys
            && r.kids[Partner(j, x)] == InsertAt(Without(t.kids[Partner(j, x)], n), k, n)
            && forall m {:trigger r.kids[m]} :: m in t.kids && m != Partner(j, x) ==> r.kids[m] == t0.kids[m]
  {
    hide Partner;
    DetachAttachLinked(t, n, Partner(j, x), k);
    assert t.parent[n := Partner(j, x)] == t.parent;
  }

  /** Once every child at home is aligned, x joins the visited containers. */
  lemma AlignDone(j: Problem, t0: Tree, t: Tree, x: Node, some: set<Node>, done: set<Node>, marks: set<Node>,
                  marks': set<Node>)
    requires Sound(j) && done <= j.dst.kids.Keys && x !in done
    requires OrderInv(j, t0, done, marks)
    requires t.kids.Keys == t0.kids.Keys && t.parent == t0.parent
    requires x in j.dst.kids && Partner(j, x) in t.kids
    requires forall m {:trigger t.kids[m]} :: m in t.kids && m != Partner(j, x) ==> t.kids[m] == t0.kids[m]
    requires Ordered(j, x) ==> Sorted(j, j.dst.kids[x], t.kids[Partner(j, x)], HomeSet(j, t0, x))
    requires forall c :: c in marks' <==> c in HomeSet(j, t0, x) || (c in marks && c !in j.dst.kids[x])
    ensures OrderInv(j, t, done + {x}, marks')
  {
    forall z | z in j.dst.kids && z !in done + {x} ensures Waiting(j, t, z) {
      assert Waiting(j, t0, z);
      if Partner(j, z) == Partner(j, x) { PartnerInjective(j, z, x); }
    }
    forall z | z in done + {x} ensures OrderAt(j, t, z, marks') {
      assert HomeSet(j, t, z) == HomeSet(j, t0, z);
      if z == x {
        assert OrderAt(j, t, z, marks');
      } else {
        assert OrderAt(j, t0, z, marks);
        if Partner(j, z) == Partner(j, x) { PartnerInjective(j, z, x); }
        forall c | c in j.dst.kids[z] ensures c !in j.dst.kids[x] && c !in HomeSet(j, t0, x) {
          assert j.dst.parent[c] == z;
        }
      }
    }
  }

  lemma OrderFrame(j: Problem, t: Tree, r: Tree, done: set<Node>, marks: set<Node>, marks': set<Node>)
    requires OrderInv(j, t, done, marks) && r.parent == t.parent && r.kids == t.kids
    requires forall y, c :: y in done && y in j.dst.kids && c in j.dst.kids[y] ==> (c in marks <==> c in marks')
    ensures OrderInv(j, r, done, marks')
  {
    forall x | x in j.dst.kids && x !in done ensures Waiting(j, r, x) {
      assert Waiting(j, t, x);
    }
    forall y | y in done ensures OrderAt(j, r, y, marks') {
      assert OrderAt(j, t, y, marks);
      assert HomeSet(j, r, y) == HomeSet(j, t, y);
    }
  }

  // ---------------------------------------------------------------- deleting what has no partner

  ghost predicate DelInv(t: Tree, r: Tree, gone: set<Node>) {
    && IsTree(r) && r.root == t.root
    && r.kids.Keys == t.kids.Keys - gone && r.parent == t.parent - gone && r.labels == t.labels - gone
    && (forall m, c {:trigger c in r.kids[m]} {:trigger c in t.kids[m]} :: m in r.kids ==>
          (c in r.kids[m] <==> c in t.kids[m] && c !in gone))
    && (forall m, a, b {:trigger Before(r.kids[m], a, b)} {:trigger Before(t.kids[m], a, b)} ::
          m in r.kids && a !in gone && b !in gone && Before(t.kids[m], a, b) ==> Before(r.kids[m], a, b))
  }

  lemma DelStart(t: Tree)
    requires IsTree(t)
    ensures DelInv(t, t, {})
  {
    assert t.parent - {} == t.parent;
    assert t.labels - {} == t.labels;
  }

  lemma HasList(t: Tree, n: Node)
    requires IsTree(t) && n in t.parent
    ensures n in t.kids
  {
  }

  /** A node whose children are all gone can be deleted. */
  lemma DelStep(t: Tree, r: Tree, gone: set<Node>, n: Node)
    requires IsTree(t) && DelInv(t, r, gone) && n in t.parent && n !in gone
    requires forall c :: c in t.kids[n] ==> c in gone
    ensures Apply(r, Delete(n)).Some? && DelInv(t, Apply(r, Delete(n)).value, gone + {n})
  {
    hide Linked, IsTree;
    assert n in r.parent;
    HasList(t, n);
    assert n in r.kids;
    forall c ensures c !in r.kids[n] {
      assert c in r.kids[n] <==> c in t.kids[n] && c !in gone;
    }
    NonEmptyList(r.kids[n]);
    DropLeafIsTree(r, n);
    var u := Drop(Detach(r, n), n);
    assert u.parent == t.parent - (gone + {n});
    assert u.labels == t.labels - (gone + {n});
  }

  /** What the generator deletes: every node but the fake root that stands for no target node. */
  ghost predicate Doomed(j: Problem, n: Node) {
    n in j.base.parent && !Placed(j, j.dst.kids.Keys, n)
  }

  lemma ChildOfPlaced(j: Problem, t: Tree, c: Node)
    requires Sound(j) && Inv(j, t, j.dst.kids.Keys) && c in t.parent && Placed(j, j.dst.kids.Keys, c)
    ensures t.parent[c] == FakeRoot || Placed(j, j.dst.kids.Keys, t.parent[c])
  {
    var x :| x in j.dst.kids.Keys && Partner(j, x) == c;
    assert t.parent[Partner(j, x)] == Up(j, x);
    if x in j.dst.parent {
      assert j.dst.parent[x] in j.dst.kids.Keys;
    }
  }

  lemma DoomedBelow(j: Problem, t: Tree, n: Node, c: Node)
    requires Sound(j) && Inv(j, t, j.dst.kids.Keys) && n in t.kids && c in t.kids[n] && Doomed(j, n)
    ensures Doomed(j, c)
  {
    assert t.parent[c] == n;
    if Placed(j, j.dst.kids.Keys, c) {
      ChildOfPlaced(j, t, c);
    } else {
      NotPlacedIsSource(j, t, j.dst.kids.Keys, c);
    }
  }

  /** The tree is the target, with every node called by its partner's name. */
  ghost predicate Arrives(j: Problem, r: Tree) {
    IsTree(r) && r.root == FakeRoot && NodesArrive(j, r) && ParentsArrive(j, r) && ListsArrive(j, r)
      && LabelsShown(j, r)
  }

  ghost predicate NodesArrive(j: Problem, r: Tree) {
    forall n :: n in r.kids <==> n == FakeRoot || Placed(j, j.dst.kids.Keys, n)
  }

  ghost predicate ParentsArrive(j: Problem, r: Tree) {
    forall x {:trigger r.parent[Partner(j, x)]} {:trigger Partner(j, x) in r.parent} :: x in j.dst.kids ==>
      Partner(j, x) in r.parent && r.parent[Partner(j, x)] == Up(j, x)
  }

  ghost predicate ListsArrive(j: Problem, r: Tree) {
    forall x {:trigger r.kids[Partner(j, x)]} {:trigger Partner(j, x) in r.kids} :: x in j.dst.kids ==>
      Partner(j, x) in r.kids && ChildrenAgree(j, x, r.kids[Partner(j, x)])
  }

  ghost predicate LabelsShown(j: Problem, r: Tree) {
    forall x {:trigger r.labels[Partner(j, x)]} {:trigger Partner(j, x) in r.labels} :: x in j.dst.kids ==>
      Partner(j, x) in r.labels && r.labels[Partner(j, x)] == Shown(j, x)
  }

  function Partners(j: Problem, s: seq<Node>): (r: seq<Node>)
    ensures |r| == |s|
  {
    seq(|s|, i requires 0 <= i < |s| => Partner(j, s[i]))
  }

  /** The children are the partners of x's children: in x's order, or in any order below an unordered container. */
  ghost predicate ChildrenAgree(j: Problem, x: Node, s: seq<Node>)
    requires x in j.dst.kids
  {
    if Ordered(j, x) then s == Partners(j, j.dst.kids[x])
    else multiset(s) == multiset(Partners(j, j.dst.kids[x]))
  }

  lemma NoDupMultiset<T(!new)>(s: seq<T>, t: seq<T>)
    requires NoDup(s) && NoDup(t) && forall x :: x in s <==> x in t
    ensures multiset(s) == multiset(t)
  {
    forall x ensures multiset(s)[x] == multiset(t)[x] {
      NoDupCount(s, x);
      NoDupCount(t, x);
    }
  }

  lemma {:induction false} NoDupCount<T(!new)>(s: seq<T>, x: T)
    requires NoDup(s)
    ensures multiset(s)[x] == if x in s then 1 else 0
  {
    if s != [] {
      NoDupCount(s[1..], x);
      assert s == [s[0]] + s[1..];
      assert s[0] !in s[1..];
    }
  }

  lemma PartnersFacts(j: Problem, cs: seq<Node>)
    requires Sound(j) && NoDup(cs) && forall c :: c in cs ==> c in j.dst.kids
    ensures NoDup(Partners(j, cs))
    ensures forall n :: n in Partners(j, cs) <==> exists c :: c in cs && Partner(j, c) == n
    ensures forall a, b :: Before(Partners(j, cs), a, b) ==>
              exists c, d :: Before(cs, c, d) && Partner(j, c) == a && Partner(j, d) == b
  {
    var ps := Partners(j, cs);
    forall i, k | 0 <= i < k < |ps| ensures ps[i] != ps[k] {
      if ps[i] == ps[k] { PartnerInjective(j, cs[i], cs[k]); }
    }
    forall n ensures n in ps <==> exists c :: c in cs && Partner(j, c) == n {
      if n in ps { var i :| 0 <= i < |ps| && ps[i] == n; assert Partner(j, cs[i]) == n; }
      if c :| c in cs && Partner(j, c) == n { var i :| 0 <= i < |cs| && cs[i] == c; assert ps[i] == n; }
    }
    forall a, b | Before(ps, a, b) ensures exists c, d :: Before(cs, c, d) && Partner(j, c) == a && Partner(j, d) == b {
      var i, k :| 0 <= i < k < |ps| && ps[i] == a && ps[k] == b;
      assert Before(cs, cs[i], cs[k]);
    }
  }

  lemma ChildArrives(j: Problem, t: Tree, x: Node, n: Node)
    requires Sound(j) && Inv(j, t, j.dst.kids.Keys) && x in j.dst.kids && Partner(j, x) in t.kids
    ensures n in t.kids[Partner(j, x)] && !Doomed(j, n) <==> exists c :: c in j.dst.kids[x] && Partner(j, c) == n
  {
    if n in t.kids[Partner(j, x)] && !Doomed(j, n) {
      assert t.parent[n] == Partner(j, x);
      if !Placed(j, j.dst.kids.Keys, n) { NotPlacedIsSource(j, t, j.dst.kids.Keys, n); }
      var c :| c in j.dst.kids.Keys && Partner(j, c) == n;
      PlacedChildIsChild(j, t, x, c);
    }
    if c :| c in j.dst.kids[x] && Partner(j, c) == n {
      assert j.dst.parent[c] == x && c in j.dst.kids.Keys;
      assert Placed(j, j.dst.kids.Keys, n);
      assert t.parent[Partner(j, c)] == Up(j, c);
    }
  }

  lemma PlacedChildIsChild(j: Problem, t: Tree, x: Node, c: Node)
    requires Sound(j) && ParentsInv(j, t.parent, j.dst.kids.Keys) && x in j.dst.kids && c in j.dst.kids
    requires Partner(j, c) in t.parent && t.parent[Partner(j, c)] == Partner(j, x)
    ensures c in j.dst.kids[x]
  {
    PartnerNotFake(j, x);
    assert t.parent[Partner(j, c)] == Up(j, c);
    if c in j.dst.parent {
      PartnerInjective(j, j.dst.parent[c], x);
    }
  }

  lemma HomeAtEnd(j: Problem, t: Tree, x: Node, c: Node)
    requires Sound(j) && ParentsInv(j, t.parent, j.dst.kids.Keys) && x in j.dst.kids && c in j.dst.kids[x]
    ensures c in HomeSet(j, t, x) && c in j.dst.kids && Placed(j, j.dst.kids.Keys, Partner(j, c))
  {
    assert j.dst.parent[c] == x && c in j.dst.kids.Keys;
    assert t.parent[Partner(j, c)] == Up(j, c);
  }

  lemma OrderArrives(j: Problem, t: Tree, s: seq<Node>, x: Node, a: Node, b: Node)
    requires Sound(j) && ParentsInv(j, t.parent, j.dst.kids.Keys) && x in j.dst.kids && Partner(j, x) in t.kids
    requires NoDup(j.dst.kids[x])
    requires Sorted(j, j.dst.kids[x], t.kids[Partner(j, x)], HomeSet(j, t, x))
    requires forall a, b :: !Doomed(j, a) && !Doomed(j, b) && Before(t.kids[Partner(j, x)], a, b) ==> Before(s, a, b)
    requires exists c, d :: Before(j.dst.kids[x], c, d) && Partner(j, c) == a && Partner(j, d) == b
    ensures Before(s, a, b)
  {
    var c, d :| Before(j.dst.kids[x], c, d) && Partner(j, c) == a && Partner(j, d) == b;
    BeforeIndex(j.dst.kids[x], c, d);
    HomeAtEnd(j, t, x, c);
    HomeAtEnd(j, t, x, d);
  }

  lemma ChildrenArrive(j: Problem, t: Tree, s: seq<Node>, x: Node)
    requires Sound(j) && Inv(j, t, j.dst.kids.Keys) && x in j.dst.kids && Partner(j, x) in t.kids
    requires Ordered(j, x) ==> Sorted(j, j.dst.kids[x], t.kids[Partner(j, x)], HomeSet(j, t, x))
    requires NoDup(s) && forall n :: n in s <==> n in t.kids[Partner(j, x)] && !Doomed(j, n)
    requires forall a, b :: !Doomed(j, a) && !Doomed(j, b) && Before(t.kids[Partner(j, x)], a, b) ==> Before(s, a, b)
    ensures ChildrenAgree(j, x, s)
  {
    var cs := j.dst.kids[x];
    var ps := Partners(j, cs);
    forall c | c in cs ensures c in j.dst.kids { HomeAtEnd(j, t, x, c); }
    PartnersFacts(j, cs);
    forall n ensures n in s <==> n in ps {
      ChildArrives(j, t, x, n);
    }
    if Ordered(j, x) {
      forall a, b | Before(ps, a, b) ensures Before(s, a, b) {
        OrderArrives(j, t, s, x, a, b);
      }
      SameOrder(ps, s);
    } else {
      NoDupMultiset(s, ps);
    }
  }

  lemma ListsDo(j: Problem, t: Tree, r: Tree, gone: set<Node>, marks: set<Node>, x: Node)
    requires Sound(j) && Inv(j, t, j.dst.kids.Keys) && OrderAt(j, t, x, marks)
    requires DelInv(t, r, gone) && forall n :: n in gone <==> Doomed(j, n)
    requires x in j.dst.kids
    ensures Partner(j, x) in r.kids && ChildrenAgree(j, x, r.kids[Partner(j, x)])
  {
    var w := Partner(j, x);
    assert x in j.dst.kids.Keys && Placed(j, j.dst.kids.Keys, w);
    assert w in r.kids;
    forall n ensures n in r.kids[w] <==> n in t.kids[w] && !Doomed(j, n) {}
    ChildrenArrive(j, t, r.kids[w], x);
  }

  lemma NodesDo(j: Problem, t: Tree, r: Tree, gone: set<Node>)
    requires Sound(j) && Inv(j, t, j.dst.kids.Keys)
    requires r.kids.Keys == t.kids.Keys - gone && forall n :: n in gone <==> Doomed(j, n)
    ensures NodesArrive(j, r)
  {
    forall n ensures n in r.kids <==> n == FakeRoot || Placed(j, j.dst.kids.Keys, n) {
      if n in t.parent && !Placed(j, j.dst.kids.Keys, n) { NotPlacedIsSource(j, t, j.dst.kids.Keys, n); }
      if Placed(j, j.dst.kids.Keys, n) {
        var x :| x in j.dst.kids.Keys && Partner(j, x) == n;
        assert t.parent[Partner(j, x)] == Up(j, x);
      }
    }
  }

  /** After the deletes nothing but the target is left. */
  lemma Arrival(j: Problem, t: Tree, r: Tree, gone: set<Node>, marks: set<Node>)
    requires Sound(j) && Inv(j, t, j.dst.kids.Keys) && OrderInv(j, t, j.dst.kids.Keys, marks)
    requires DelInv(t, r, gone) && forall n :: n in gone <==> Doomed(j, n)
    ensures Arrives(j, r)
  {
    NodesDo(j, t, r, gone);
    assert !Doomed(j, FakeRoot);
    forall x | x in j.dst.kids
      ensures Partner(j, x) in r.parent && r.parent[Partner(j, x)] == Up(j, x)
      ensures Partner(j, x) in r.labels && r.labels[Partner(j, x)] == Shown(j, x)
    {
      assert x in j.dst.kids.Keys && Placed(j, j.dst.kids.Keys, Partner(j, x));
      assert t.parent[Partner(j, x)] == Up(j, x);
      assert t.labels[Partner(j, x)] == Shown(j, x);
    }
    assert ListsArrive(j, r) by {
      forall x | x in j.dst.kids ensures Partner(j, x) in r.kids && ChildrenAgree(j, x, r.kids[Partner(j, x)]) {
        assert OrderAt(j, t, x, marks);
        ListsDo(j, t, r, gone, marks, x);
      }
    }
  }

  /** The labels all arrive exactly when a paired root has the same label on both sides:
      the generator never updates the root. */
  lemma LabelsArrive(j: Problem, r: Tree)
    requires j.dst.root in j.dst.kids && LabelsShown(j, r)
    ensures (forall x :: x in j.dst.kids ==> r.labels[Partner(j, x)] == Text(x))
            <==> (j.dst.root in j.match0 ==> Text(j.match0[j.dst.root]) == Text(j.dst.root))
  {
    assert r.labels[Partner(j, j.dst.root)] == Shown(j, j.dst.root);
  }

  function Leaf(n: Node): Tree {
    Tree(n, map[], map[n := []], map[n := Text(n)])
  }

  /** Two files of one node each, paired. */
  function RootPair(a: Node, b: Node): Problem {
    Problem(UnderFakeRoot(Some(Leaf(a))), Leaf(b), map[b := a])
  }

  lemma LeafIsAst(n: Node)
    requires n.Ast?
    ensures IsAst(Leaf(n))
  {
    assert Ranked(Leaf(n), map[n := 0]);
  }

  lemma RootPairSound(a: Node, b: Node)
    requires a.Ast? && b.Ast? && a != b
    ensures Sound(RootPair(a, b))
  {
    LeafIsAst(a);
    LeafIsAst(b);
    UnderFakeRootIsTree(Some(Leaf(a)));
    hide IsTree, Linked;
    var j := RootPair(a, b);
    assert j.base.kids == map[a := []][FakeRoot := [a]];
    assert j.base.parent == map[a := FakeRoot];
  }

  /** When their labels differ the target's label does not arrive: the root still shows the source's. */
  lemma RootKeepsLabel(a: Node, b: Node, r: Tree)
    requires a.Ast? && b.Ast? && Text(a) != Text(b)
    ensures Sound(RootPair(a, b))
    ensures LabelsShown(RootPair(a, b), r) ==> a in r.labels && r.labels[a] == Text(a) != Text(b)
  {
    RootPairSound(a, b);
    hide Sound;
    var j := RootPair(a, b);
    assert b in j.dst.kids && Partner(j, b) == a;
  }
}
