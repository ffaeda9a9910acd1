/** Each step of the generator, on values: the action it records replays to the tree it leaves. */
module ScriptSteps {
  import opened Lists
  import opened Trees
  import opened ScriptSpec

  /** What holds between two visits. */
  ghost predicate Stage(j: Problem, t: Tree, done: set<Node>, marks: set<Node>) {
    Sound(j) && Visited(j, done) && Inv(j, t, done) && OrderInv(j, t, done, marks)
  }

  /** x is the next node to visit: its parent is visited, and the root comes first. */
  ghost predicate Next(j: Problem, done: set<Node>, x: Node) {
    && x in j.dst.kids && x !in done
    && (x in j.dst.parent ==> j.dst.parent[x] in done)
    && (x !in j.dst.parent ==> done == {})
  }

  /** k is the position findPos gives for x. */
  ghost predicate PlaceFor(j: Problem, t: Tree, x: Node, k: int) {
    if x in j.dst.parent
    then
      var y := j.dst.parent[x];
      y in j.dst.kids && Slot(j, j.dst.kids[y], Kids(t, Partner(j, y)), HomeSet(j, t, y), x, k)
    else k == 0
  }

  lemma NextVisited(j: Problem, done: set<Node>, x: Node)
    requires Sound(j) && Visited(j, done) && Next(j, done, x)
    ensures Visited(j, done + {x})
  {
  }

  lemma UpInTree(j: Problem, t: Tree, done: set<Node>, x: Node)
    requires Sound(j) && Visited(j, done) && Inv(j, t, done) && Next(j, done, x)
    ensures Up(j, x) in t.kids && Up(j, x) != Partner(j, x)
  {
    if x in j.dst.parent {
      PartnerInTree(j, t, done, j.dst.parent[x]);
      if Partner(j, x) == Up(j, x) { PartnerInjective(j, x, j.dst.parent[x]); }
    } else {
      PartnerNotFake(j, x);
    }
  }

  lemma PlaceInRange(j: Problem, t: Tree, x: Node, k: int)
    requires PlaceFor(j, t, x, k)
    ensures 0 <= k <= |Kids(t, Up(j, x))|
  {
    if x in j.dst.parent {
      var y := j.dst.parent[x];
      SlotInRange(j, j.dst.kids[y], Kids(t, Partner(j, y)), HomeSet(j, t, y), x, k);
    }
  }

  // ---------------------------------------------------------------- unmatched nodes

  lemma NotYetHome(j: Problem, t: Tree, done: set<Node>, x: Node)
    requires Sound(j) && Visited(j, done) && Inv(j, t, done) && Next(j, done, x) && x !in j.match0
    ensures Partner(j, x) == x && x !in t.kids && x !in t.parent && Shown(j, x) == Text(x)
    ensures x !in done && x != FakeRoot
  {
    PartnerInTree(j, t, done, x);
  }

  lemma InsertShape(j: Problem, t: Tree, done: set<Node>, x: Node, k: nat, r: Tree)
    requires Sound(j) && done <= j.dst.kids.Keys && Inv(j, t, done) && x in j.dst.kids && x !in done
    requires Partner(j, x) == x && x !in t.kids && x !in t.parent && Shown(j, x) == Text(x)
    requires Up(j, x) in t.kids && k <= |t.kids[Up(j, x)]|
    requires r == Attach(Fresh(t, x, Text(x)), Up(j, x), x, k)
    ensures Inv(j, r, done + {x})
    ensures r.parent == t.parent[x := Up(j, x)]
  {
    FreshAttachLinked(t, x, Up(j, x), k, Text(x));
    InvStep(j, t, done, x, r);
  }

  lemma FreshLists(t: Tree, x: Node, p: Node, k: nat, r: Tree)
    requires Linked(t) && x !in t.kids && p in t.kids && k <= |t.kids[p]|
    requires r == Attach(Fresh(t, x, Text(x)), p, x, k)
    ensures t.kids.Keys <= r.kids.Keys
    ensures r.kids[p] == InsertAt(t.kids[p], k, x)
    ensures forall m {:trigger r.kids[m]} :: m in t.kids && m != p ==> r.kids[m] == Without(t.kids[m], x)
  {
    forall m | m in t.kids ensures x !in t.kids[m] {
      assert x in t.kids[m] ==> x in t.parent;
    }
  }

  lemma InsertOrder(j: Problem, t: Tree, done: set<Node>, marks: set<Node>, x: Node, k: nat, r: Tree)
    requires Stage(j, t, done, marks) && Next(j, done, x) && x !in j.match0 && PlaceFor(j, t, x, k)
    requires Up(j, x) in t.kids && k <= |t.kids[Up(j, x)]|
    requires r == Attach(Fresh(t, x, Text(x)), Up(j, x), x, k) && r.parent == t.parent[x := Up(j, x)]
    ensures OrderInv(j, r, done, marks + {x})
  {
    NotYetHome(j, t, done, x);
    if x in j.dst.parent {
      FreshLists(t, x, Up(j, x), k, r);
      OrderStep(j, t, done, marks, j.dst.parent[x], x, k, r);
    } else {
      FreshLists(t, x, Up(j, x), k, r);
      forall z | z in j.dst.kids && z !in done ensures Waiting(j, r, z) {
        assert Waiting(j, t, z);
        WaitingStep(j, t, z, Up(j, x), x, r);
      }
    }
  }

  lemma InsertReplays(base: Tree, t: Tree, script: seq<Action>, x: Node, p: Node, k: nat, r: Tree)
    requires Replay(base, script) == Some(t) && x !in t.kids && p in t.kids && k <= |t.kids[p]|
    requires r == Attach(Fresh(t, x, Text(x)), p, x, k) && IsTree(r)
    ensures Replay(base, script + [Insert(x, p, k)]) == Some(r)
  {
    ReplayAppend(base, script, Insert(x, p, k));
  }

  /** Inserting an unmatched target node. */
  lemma InsertEffect(j: Problem, t: Tree, done: set<Node>, marks: set<Node>, script: seq<Action>, x: Node, k: nat,
                     r: Tree)
    requires Stage(j, t, done, marks) && Replay(j.base, script) == Some(t)
    requires Next(j, done, x) && x !in j.match0 && PlaceFor(j, t, x, k)
    requires r == Attach(Fresh(t, x, Text(x)), Up(j, x), x, k)
    ensures Up(j, x) in t.kids && k <= |t.kids[Up(j, x)]| && x !in t.kids && Up(j, x) != x
    ensures Visited(j, done + {x}) && Inv(j, r, done + {x}) && OrderInv(j, r, done, marks + {x})
    ensures Replay(j.base, script + [Insert(x, Up(j, x), k)]) == Some(r)
  {
    UpInTree(j, t, done, x);
    PlaceInRange(j, t, x, k);
    NextVisited(j, done, x);
    NotYetHome(j, t, done, x);
    InsertShape(j, t, done, x, k, r);
    InsertOrder(j, t, done, marks, x, k, r);
    InvIsTree(j, r, done + {x});
    InsertReplays(j.base, t, script, x, Up(j, x), k, r);
  }

  // ---------------------------------------------------------------- matched nodes

  /** The tree after n shows v. */
  function Relabelled(t: Tree, n: Node, v: string): Tree {
    t.(labels := t.labels[n := v])
  }

  /** An Update is recorded only when the label differs. */
  function RelabelScript(t: Tree, script: seq<Action>, n: Node, v: string): seq<Action> {
    if n in t.labels && t.labels[n] == v then script else script + [Update(n, v)]
  }

  lemma RelabelEffect(base: Tree, t: Tree, script: seq<Action>, n: Node, v: string)
    requires IsTree(t) && Replay(base, script) == Some(t) && n in t.kids
    ensures IsTree(Relabelled(t, n, v))
    ensures Replay(base, RelabelScript(t, script, n, v)) == Some(Relabelled(t, n, v))
  {
    var r := Relabelled(t, n, v);
    var depth :| Ranked(t, depth);
    assert Ranked(r, depth);
    assert r.labels.Keys == t.labels.Keys;
    if t.labels[n] == v {
      SameEntry(t.labels, n, v);
    } else {
      ReplayAppend(base, script, Update(n, v));
    }
  }

  lemma PairedFacts(j: Problem, t: Tree, done: set<Node>, x: Node)
    requires Sound(j) && Visited(j, done) && Inv(j, t, done) && Next(j, done, x) && x in j.match0
    ensures Partner(j, x) in t.kids && Partner(j, x) in t.parent && Partner(j, x) in t.labels
    ensures t.kids.Keys + {Partner(j, x)} == t.kids.Keys
    ensures x in j.dst.parent ==> Shown(j, x) == Text(x)
  {
    PartnerInTree(j, t, done, x);
    SameMember(t.kids.Keys, Partner(j, x));
  }

  /** A matched node that already hangs below its parent's partner. */
  lemma StayEffect(j: Problem, t: Tree, done: set<Node>, marks: set<Node>, x: Node, r: Tree)
    requires Stage(j, t, done, marks) && Next(j, done, x) && x in j.match0 && x in j.dst.parent
    requires Partner(j, x) in t.parent && t.parent[Partner(j, x)] == Up(j, x)
    requires r == Relabelled(t, Partner(j, x), Text(x)) && Linked(r)
    ensures Visited(j, done + {x}) && Inv(j, r, done + {x}) && OrderInv(j, r, done, marks + {x})
  {
    NextVisited(j, done, x);
    PairedFacts(j, t, done, x);
    SameEntry(t.parent, Partner(j, x), Up(j, x));
    InvStep(j, t, done, x, r);
    StayOrder(j, t, done, marks, x, r);
  }

  lemma StayOrder(j: Problem, t: Tree, done: set<Node>, marks: set<Node>, x: Node, r: Tree)
    requires OrderInv(j, t, done, marks) && x in j.dst.parent && j.dst.parent[x] in done
    requires j.dst.parent[x] in j.dst.kids && x in j.dst.kids[j.dst.parent[x]]
    requires Partner(j, x) in t.parent && t.parent[Partner(j, x)] == Up(j, x)
    requires r.parent == t.parent && r.kids == t.kids
    ensures OrderInv(j, r, done, marks + {x})
  {
    assert OrderAt(j, t, j.dst.parent[x], marks);
    assert Home(j, t, j.dst.parent[x], x);
    OrderFrame(j, t, r, done, marks, marks + {x});
  }

  /** Every source node lies below the child of the fake root. */
  lemma {:induction false} SourceHasRoot(j: Problem, depth: map<Node, nat>, n: Node)
    requires Linked(j.base) && j.base.root == FakeRoot && Ranked(j.base, depth) && n in j.base.parent
    ensures j.base.kids[FakeRoot] != []
    decreases depth[n]
  {
    var p := j.base.parent[n];
    assert n in j.base.kids[p];
    if p != FakeRoot { SourceHasRoot(j, depth, p); }
  }

  /** The matched root stays where it is, with its own label. */
  lemma RootEffect(j: Problem, t: Tree, done: set<Node>, marks: set<Node>, x: Node)
    requires Stage(j, t, done, marks) && Next(j, done, x) && x in j.match0 && x !in j.dst.parent
    ensures Visited(j, done + {x}) && Inv(j, t, done + {x}) && OrderInv(j, t, done, marks + {x})
    ensures Partner(j, x) in t.parent && t.parent[Partner(j, x)] == FakeRoot
  {
    NextVisited(j, done, x);
    PairedFacts(j, t, done, x);
    RootPlace(j, t, done, x);
    SameEntry(t.parent, Partner(j, x), Up(j, x));
    SameEntry(t.labels, Partner(j, x), Shown(j, x));
    InvStep(j, t, done, x, t);
  }

  lemma RootPlace(j: Problem, t: Tree, done: set<Node>, x: Node)
    requires Sound(j) && Inv(j, t, done) && done == {} && x == j.dst.root && x in j.match0
    ensures Partner(j, x) in t.parent && t.parent[Partner(j, x)] == FakeRoot
    ensures Partner(j, x) in t.labels && t.labels[Partner(j, x)] == Shown(j, x)
  {
    var n := Partner(j, x);
    var depth :| Ranked(j.base, depth);
    SourceHasRoot(j, depth, n);
    assert n in j.base.kids[FakeRoot];
    assert j.base.parent[n] == FakeRoot;
    assert !Placed(j, done, n);
    assert t.labels[n] == Text(n);
  }

  lemma MoveShape(j: Problem, t: Tree, done: set<Node>, x: Node, k: nat, u: Tree, r: Tree)
    requires Sound(j) && Visited(j, done) && Inv(j, t, done)
    requires Next(j, done, x) && x in j.match0 && x in j.dst.parent
    requires Up(j, x) in t.kids && Partner(j, x) in t.parent && t.parent[Partner(j, x)] != Up(j, x)
    requires k <= |t.kids[Up(j, x)]|
    requires u == Relabelled(t, Partner(j, x), Text(x)) && Linked(u)
    requires r == Attach(Detach(u, Partner(j, x)), Up(j, x), Partner(j, x), k)
    ensures k <= |Kids(Detach(u, Partner(j, x)), Up(j, x))|
    ensures Inv(j, r, done + {x})
    ensures r.parent == t.parent[Partner(j, x) := Up(j, x)] && r.kids.Keys == t.kids.Keys
  {
    PairedFacts(j, t, done, x);
    assert t.parent[Partner(j, x)] in t.kids;
    DetachAttachLinked(u, Partner(j, x), Up(j, x), k);
    InvStep(j, t, done, x, r);
  }

  lemma MoveLists(t: Tree, n: Node, p: Node, k: nat, u: Tree, r: Tree)
    requires Linked(t) && n in t.parent && t.parent[n] in t.kids && p in t.kids && t.parent[n] != p && k <= |t.kids[p]|
    requires u.parent == t.parent && u.kids == t.kids && r == Attach(Detach(u, n), p, n, k)
    ensures r.kids[p] == InsertAt(t.kids[p], k, n)
    ensures forall m {:trigger r.kids[m]} :: m in t.kids && m != p ==> m in r.kids && r.kids[m] == Without(t.kids[m], n)
  {
    forall m | m in t.kids && m != t.parent[n] ensures n !in t.kids[m] {
    }
  }

  lemma MoveOrder(j: Problem, t: Tree, done: set<Node>, marks: set<Node>, x: Node, k: nat, u: Tree, r: Tree)
    requires Stage(j, t, done, marks)
    requires Next(j, done, x) && x in j.match0 && x in j.dst.parent && PlaceFor(j, t, x, k)
    requires Up(j, x) in t.kids && Partner(j, x) in t.parent && t.parent[Partner(j, x)] != Up(j, x)
    requires k <= |t.kids[Up(j, x)]|
    requires u.parent == t.parent && u.kids == t.kids
    requires r == Attach(Detach(u, Partner(j, x)), Up(j, x), Partner(j, x), k)
    requires r.parent == t.parent[Partner(j, x) := Up(j, x)] && r.kids.Keys == t.kids.Keys
    ensures OrderInv(j, r, done, marks + {x})
  {
    assert t.parent[Partner(j, x)] in t.kids;
    MoveLists(t, Partner(j, x), Up(j, x), k, u, r);
    OrderStep(j, t, done, marks, j.dst.parent[x], x, k, r);
  }

  lemma MoveReplays(base: Tree, u: Tree, script: seq<Action>, n: Node, p: Node, k: nat, subtree: bool, r: Tree)
    requires Replay(base, script) == Some(u) && n in u.parent && u.parent[n] in u.kids && p in u.kids
    requires k <= |Kids(Detach(u, n), p)|
    requires r == Attach(Detach(u, n), p, n, k) && IsTree(r)
    ensures Replay(base, script + [Move(n, p, k, subtree)]) == Some(r)
  {
    ReplayAppend(base, script, Move(n, p, k, subtree));
  }

  /** Moving a matched node below its parent's partner; u is the tree once the label is up to date. */
  lemma MoveEffect(j: Problem, t: Tree, done: set<Node>, marks: set<Node>, x: Node, k: nat, u: Tree, r: Tree)
    requires Stage(j, t, done, marks) && Next(j, done, x) && x in j.match0 && x in j.dst.parent
    requires PlaceFor(j, t, x, k) && Partner(j, x) in t.parent && t.parent[Partner(j, x)] != Up(j, x)
    requires u == Relabelled(t, Partner(j, x), Text(x)) && Linked(u)
    requires r == Attach(Detach(u, Partner(j, x)), Up(j, x), Partner(j, x), k)
    ensures Up(j, x) in t.kids && k <= |t.kids[Up(j, x)]| && Up(j, x) != Partner(j, x)
    ensures k <= |Kids(Detach(u, Partner(j, x)), Up(j, x))|
    ensures Visited(j, done + {x}) && Inv(j, r, done + {x}) && IsTree(r) && OrderInv(j, r, done, marks + {x})
  {
    UpInTree(j, t, done, x);
    PlaceInRange(j, t, x, k);
    NextVisited(j, done, x);
    MoveShape(j, t, done, x, k, u, r);
    MoveOrder(j, t, done, marks, x, k, u, r);
    InvIsTree(j, r, done + {x});
  }

  // ---------------------------------------------------------------- the maps and marks of the generator

  /** The two pairing maps are inverse, and pair each known target node with its partner. */
  ghost predicate Pairing(j: Problem, toDst: map<Node, Node>, toSrc: map<Node, Node>, done: set<Node>,
                          names: set<Node>) {
    && toSrc.Keys == j.match0.Keys + done + {FakeRoot}
    && (forall x {:trigger toSrc[x]} :: x in toSrc ==>
          toSrc[x] == Partner(j, x) && toSrc[x] in names && toSrc[x] in toDst && toDst[toSrc[x]] == x)
    && (forall c {:trigger toDst[c]} :: c in toDst ==> toDst[c] in toSrc && toSrc[toDst[c]] == c)
  }

  lemma PairingGrows(j: Problem, toDst: map<Node, Node>, toSrc: map<Node, Node>, done: set<Node>, names: set<Node>,
                     x: Node)
    requires Pairing(j, toDst, toSrc, done, names) && x !in j.match0 && x !in done && x != FakeRoot && x !in names
    ensures Pairing(j, toDst[x := x], toSrc[x := x], done + {x}, names + {x})
  {
  }

  lemma PairingVisits(j: Problem, toDst: map<Node, Node>, toSrc: map<Node, Node>, done: set<Node>, names: set<Node>,
                      x: Node)
    requires Pairing(j, toDst, toSrc, done, names) && x in j.match0
    ensures Pairing(j, toDst, toSrc, done + {x}, names)
  {
  }

  /** Every marked target node is paired, its partner is marked too, and its parent is aligned. */
  ghost predicate PairedMarks(j: Problem, toSrc: map<Node, Node>, done: set<Node>, aligned: set<Node>,
                              dstIn: set<Node>, srcIn: set<Node>) {
    forall v {:trigger v in dstIn} :: v in dstIn ==>
      && v in toSrc && toSrc[v] in srcIn && v in j.dst.kids
      && (if v in j.dst.parent then j.dst.parent[v] in aligned else v in done)
  }

  /** v's partner is marked in order and hangs below y's. */
  ghost predicate Ready(j: Problem, t: Tree, toSrc: map<Node, Node>, dstIn: set<Node>, srcIn: set<Node>, y: Node,
                        v: Node) {
    v in dstIn && v in toSrc && toSrc[v] in srcIn && Home(j, t, y, v)
  }

  ghost function ReadySet(j: Problem, t: Tree, toSrc: map<Node, Node>, dstIn: set<Node>, srcIn: set<Node>,
                          y: Node): set<Node>
    requires y in j.dst.kids
  {
    set v | v in j.dst.kids[y] && Ready(j, t, toSrc, dstIn, srcIn, y, v)
  }

  lemma ReadyIsHome(j: Problem, t: Tree, toSrc: map<Node, Node>, done: set<Node>, aligned: set<Node>,
                    dstIn: set<Node>, srcIn: set<Node>, y: Node)
    requires OrderInv(j, t, aligned, dstIn) && PairedMarks(j, toSrc, done, aligned, dstIn, srcIn)
    requires y in aligned && y in j.dst.kids
    ensures ReadySet(j, t, toSrc, dstIn, srcIn, y) == HomeSet(j, t, y)
  {
    assert OrderAt(j, t, y, dstIn);
  }

  /** The slot among the ready siblings is the slot among those at home; labels play no part. */
  lemma PlaceByReady(j: Problem, t: Tree, t0: Tree, toSrc: map<Node, Node>, done: set<Node>, dstIn: set<Node>,
                     srcIn: set<Node>, x: Node, k: int)
    requires OrderInv(j, t0, done, dstIn) && PairedMarks(j, toSrc, done, done, dstIn, srcIn)
    requires t.parent == t0.parent && t.kids == t0.kids
    requires x in j.dst.parent ==> j.dst.parent[x] in done
    requires x !in j.dst.parent ==> k == 0
    requires x in j.dst.parent ==>
               var y := j.dst.parent[x];
               && y in j.dst.kids
               && Slot(j, j.dst.kids[y], Kids(t, Partner(j, y)), ReadySet(j, t, toSrc, dstIn, srcIn, y), x, k)
    ensures PlaceFor(j, t0, x, k)
  {
    if x in j.dst.parent {
      var y := j.dst.parent[x];
      ReadyIsHome(j, t0, toSrc, done, done, dstIn, srcIn, y);
      assert ReadySet(j, t, toSrc, dstIn, srcIn, y) == ReadySet(j, t0, toSrc, dstIn, srcIn, y);
    }
  }

  lemma NextListed(j: Problem, t: Tree, done: set<Node>, x: Node)
    requires Sound(j) && Next(j, done, x)
    ensures x in j.dst.parent ==>
              var y := j.dst.parent[x]; y in j.dst.kids && x in j.dst.kids[y] && NoDup(j.dst.kids[y])
  {
  }

  lemma NotOwnParent(t: Tree, n: Node)
    requires IsTree(t) && n in t.parent
    ensures t.parent[n] != n
  {
    var depth :| Ranked(t, depth);
    assert depth[t.parent[n]] < depth[n];
  }

  lemma RootOrChild(j: Problem, x: Node)
    requires Sound(j) && x in j.dst.kids
    ensures x == j.dst.root <==> x !in j.dst.parent
  {
  }

  lemma InvLinked(j: Problem, t: Tree, done: set<Node>)
    requires Inv(j, t, done)
    ensures Linked(t)
  {
  }

  lemma PairingGives(j: Problem, toDst: map<Node, Node>, toSrc: map<Node, Node>, done: set<Node>, names: set<Node>,
                     x: Node)
    requires Pairing(j, toDst, toSrc, done, names) && (x in j.match0 || x in done)
    ensures x in toSrc && toSrc[x] == Partner(j, x) && toSrc[x] in names
  {
  }

  lemma PairingGives2(j: Problem, toDst: map<Node, Node>, toSrc: map<Node, Node>, done: set<Node>, names: set<Node>,
                      x: Node)
    requires Pairing(j, toDst, toSrc, done, names) && x in toSrc
    ensures toSrc[x] == Partner(j, x) && toSrc[x] in names
  {
  }

  /** A node that is not home is not marked. */
  lemma NotMarked(j: Problem, t: Tree, done: set<Node>, marks: set<Node>, x: Node)
    requires Stage(j, t, done, marks) && Next(j, done, x) && x in j.dst.parent
    requires Partner(j, x) in t.parent && t.parent[Partner(j, x)] != Up(j, x)
    ensures x !in marks
  {
    assert OrderAt(j, t, j.dst.parent[x], marks);
    assert x in j.dst.kids[j.dst.parent[x]];
  }

  lemma StageSound(j: Problem, t: Tree, done: set<Node>, marks: set<Node>)
    requires Stage(j, t, done, marks)
    ensures Sound(j) && Visited(j, done) && done <= j.dst.kids.Keys
  {
  }

  lemma MarksInTarget(j: Problem, toSrc: map<Node, Node>, done: set<Node>, aligned: set<Node>, dstIn: set<Node>,
                      srcIn: set<Node>)
    requires PairedMarks(j, toSrc, done, aligned, dstIn, srcIn)
    ensures dstIn <= j.dst.kids.Keys
  {
  }

  lemma NextInTarget(j: Problem, done: set<Node>, x: Node)
    requires Next(j, done, x)
    ensures x in j.dst.kids && x !in done
  {
  }

  lemma VisitedInTarget(j: Problem, done: set<Node>)
    requires Visited(j, done)
    ensures done <= j.dst.kids.Keys
  {
  }

  /** The partner of x's parent, as the generator looks it up. */
  lemma UpLookup(j: Problem, toDst: map<Node, Node>, toSrc: map<Node, Node>, done: set<Node>, names: set<Node>, x: Node)
    requires Sound(j) && Pairing(j, toDst, toSrc, done, names) && Next(j, done, x)
    ensures x in j.dst.parent ==> j.dst.parent[x] in toSrc && toSrc[j.dst.parent[x]] == Up(j, x)
    ensures x !in j.dst.parent ==> Up(j, x) == FakeRoot
    ensures x in toSrc <==> x in j.match0
  {
  }

  lemma MarkVisited(j: Problem, toSrc: map<Node, Node>, done: set<Node>, aligned: set<Node>, dstIn: set<Node>,
                    srcIn: set<Node>, x: Node)
    requires PairedMarks(j, toSrc, aligned, aligned, dstIn, srcIn) && Next(j, aligned, x) && done == aligned + {x}
    requires x in toSrc
    ensures PairedMarks(j, toSrc, done, aligned, dstIn + {x}, srcIn + {toSrc[x]})
  {
  }

  lemma MarksSurvive(j: Problem, toSrc: map<Node, Node>, toSrc': map<Node, Node>, aligned: set<Node>,
                     dstIn: set<Node>, srcIn: set<Node>)
    requires PairedMarks(j, toSrc, aligned, aligned, dstIn, srcIn)
    requires toSrc.Keys <= toSrc'.Keys && forall v {:trigger toSrc[v]} :: v in toSrc ==> toSrc'[v] == toSrc[v]
    ensures PairedMarks(j, toSrc', aligned, aligned, dstIn, srcIn)
  {
  }

  lemma TreeLinked(t: Tree)
    requires IsTree(t)
    ensures Linked(t)
  {
  }

  /** When every target node is visited, the paired nodes are those that stand for one. */
  lemma PairedAtEnd(j: Problem, toDst: map<Node, Node>, toSrc: map<Node, Node>, names: set<Node>, n: Node)
    requires Sound(j) && Pairing(j, toDst, toSrc, j.dst.kids.Keys, names) && n in j.base.parent
    ensures n in toDst <==> Placed(j, j.dst.kids.Keys, n)
  {
    if Placed(j, j.dst.kids.Keys, n) {
      var x :| x in j.dst.kids.Keys && Partner(j, x) == n;
      assert toSrc[x] == n;
    }
    if n in toDst {
      var x := toDst[n];
      assert toSrc[x] == Partner(j, x);
      assert Partner(j, FakeRoot) == FakeRoot by { MatchedInTarget(j); }
    }
  }

  lemma MatchedInTarget(j: Problem)
    requires Sound(j)
    ensures FakeRoot !in j.match0 && FakeRoot !in j.base.parent
    ensures j.match0.Keys + j.dst.kids.Keys == j.dst.kids.Keys
  {
  }

  /** The source root is the only working child of the fake root at the end. */
  lemma RootAtEnd(j: Problem, t: Tree, r: Node)
    requires Sound(j) && Inv(j, t, j.dst.kids.Keys) && j.base.kids[FakeRoot] == [r]
    ensures FakeRoot in t.kids && t.kids[FakeRoot] == [r]
  {
    RootStays(j, t, r);
    forall c | c in t.kids[FakeRoot] ensures c == r { OnlyRoot(j, t, r, c); }
    Singleton(t.kids[FakeRoot], r);
  }

  lemma Singleton(s: seq<Node>, r: Node)
    requires NoDup(s) && r in s && forall c :: c in s ==> c == r
    ensures s == [r]
  {
    NoDupLength(s);
    assert SetOf(s) == {r};
  }

  lemma RootStays(j: Problem, t: Tree, r: Node)
    requires Sound(j) && Inv(j, t, j.dst.kids.Keys) && j.base.kids[FakeRoot] == [r]
    ensures FakeRoot in t.kids && r in t.kids[FakeRoot]
  {
    assert Partner(j, j.dst.root) == r && j.dst.root in j.dst.kids.Keys;
    assert t.parent[Partner(j, j.dst.root)] == Up(j, j.dst.root);
  }

  lemma OnlyRootPlaced(j: Problem, t: Tree, r: Node, c: Node)
    requires Sound(j) && ParentsInv(j, t.parent, j.dst.kids.Keys) && j.base.kids[FakeRoot] == [r]
    requires c in t.parent && t.parent[c] == FakeRoot && Placed(j, j.dst.kids.Keys, c)
    ensures c == r
  {
    var x :| x in j.dst.kids.Keys && Partner(j, x) == c;
    assert t.parent[Partner(j, x)] == Up(j, x);
    if x in j.dst.parent { PartnerNotFake(j, j.dst.parent[x]); }
  }

  lemma OnlyRoot(j: Problem, t: Tree, r: Node, c: Node)
    requires Sound(j) && Inv(j, t, j.dst.kids.Keys) && j.base.kids[FakeRoot] == [r] && c in t.kids[FakeRoot]
    ensures c == r
  {
    assert t.parent[c] == FakeRoot;
    if Placed(j, j.dst.kids.Keys, c) {
      OnlyRootPlaced(j, t, r, c);
    } else {
      NotPlacedIsSource(j, t, j.dst.kids.Keys, c);
    }
  }
}
