/** Edit script generation after Chawathe et al. (1996): the working copy, the in-order marks and the script. */
module EditScripts {
  import opened Lists
  import opened Trees
  import opened ScriptSpec
  import opened ScriptSteps
  import opened AlignSteps
  import opened KeptChildren
  import opened Ledgers
  import opened MoveCounts
  import opened WorkingCopy
  import ChildLcs

  /** The generator's state. A copied node is called by the AST node it was made from; at finds it. */
  class ChawatheState {
    const j: Problem
    var at: Nodes
    var toDst: map<Node, Node>
    var toSrc: map<Node, Node>
    var dstInOrder: set<Node>
    var srcInOrder: set<Node>
    var script: seq<Action>
    ghost var t: Tree
    ghost var done: set<Node>

    constructor (j: Problem, at: Nodes, toDst: map<Node, Node>, toSrc: map<Node, Node>)
      requires Sound(j) && Rep(at, j.base) && Pairing(j, toDst, toSrc, {}, at.Keys)
      ensures this.j == j && this.at == at && done == {} && script == [] && Valid() && Marked(done)
      ensures Ledger(j, script, done, dstInOrder)
    {
      this.j, this.at, this.toDst, this.toSrc := j, at, toDst, toSrc;
      this.dstInOrder, this.srcInOrder, this.script := {}, {}, [];
      this.t, this.done := j.base, {};
      new;
      InvStart(j);
      OrderStart(j);
      LedgerStart(j);
    }

    /** A node with a parent is listed there. */
    static ghost predicate Listed(t: Tree) {
      forall n {:trigger t.parent[n]} :: n in t.parent ==> t.parent[n] in t.kids && n in t.kids[t.parent[n]]
    }

    /** The insertion position of x below its parent's partner: just after the partner of the nearest
        left sibling that is in order there. */
    method FindPos(x: Node) returns (k: int)
      requires Rep(at, t) && Listed(t) && Pairing(j, toDst, toSrc, done, at.Keys)
      requires x in j.dst.parent ==>
                 var y := j.dst.parent[x]; y in j.dst.kids && x in j.dst.kids[y] && NoDup(j.dst.kids[y]) && y in toSrc
      ensures x !in j.dst.parent ==> k == 0
      ensures x in j.dst.parent ==>
                var y := j.dst.parent[x];
                && y in j.dst.kids
                && Slot(j, j.dst.kids[y], Kids(t, Partner(j, y)),
                        ReadySet(j, t, toSrc, dstInOrder, srcInOrder, y), x, k)
    {
      hide Rep, Listed, Pairing, NoDup, Before;
      if x !in j.dst.parent { return 0; }
      var y := j.dst.parent[x];
      var siblings := j.dst.kids[y];
      var i := Index(siblings, x) - 1;
      while i >= 0
        invariant -1 <= i < Index(siblings, x)
        invariant forall l :: i < l < Index(siblings, x) ==>
                    siblings[l] !in ReadySet(j, t, toSrc, dstInOrder, srcInOrder, y)
      {
        k := After(siblings[i], y);
        if k != 0 {
          SlotAt(j, siblings, Kids(t, Partner(j, y)), ReadySet(j, t, toSrc, dstInOrder, srcInOrder, y), x, i, k);
          return;
        }
        i := i - 1;
      }
      NoSlotAt(siblings, ReadySet(j, t, toSrc, dstInOrder, srcInOrder, y), x);
      return 0;
    }

    /** The position after v's partner below y's, or 0 if v is not in order there. */
    method After(v: Node, y: Node) returns (k: int)
      requires Rep(at, t) && Listed(t) && Pairing(j, toDst, toSrc, done, at.Keys)
      requires y in toSrc
      ensures Ready(j, t, toSrc, dstInOrder, srcInOrder, y, v) <==> k != 0
      ensures Ready(j, t, toSrc, dstInOrder, srcInOrder, y, v) ==>
                && Partner(j, v) in Kids(t, Partner(j, y))
                && k == Index(Kids(t, Partner(j, y)), Partner(j, v)) + 1
    {
      var z := at[toSrc[y]];
      if v in dstInOrder && v in toSrc {
        var u := at[toSrc[v]];
        ParentAgrees(toSrc[v], toSrc[y]);
        if u.parent == z && toSrc[v] in srcInOrder {
          var upos := u.ChildIndex();
          if upos != -1 { return upos + 1; }
        }
      }
      return 0;
    }

    /** The parent pointers and child lists on the heap are those of the tree. */
    lemma ParentAgrees(n: Node, p: Node)
      requires Rep(at, t) && Listed(t) && n in at && p in at
      ensures at[n].parent == at[p] <==> n in t.parent && t.parent[n] == p
      ensures at[n].parent == at[p] ==> n in Kids(t, p) && Index(at[p].children, at[n]) == Index(Kids(t, p), n)
    {
      assert Holds(at, t, n, at[n]) && Holds(at, t, p, at[p]);
      if n in t.parent {
        assert at[t.parent[n]].orig == t.parent[n] && at[p].orig == p;
      }
      SameIndex(at, at[p].children, t.kids[p], n);
    }

    // -------------------------------------------------------------- invariants of the generator

    ghost predicate Valid()
      reads this, at.Values
    {
      && Rep(at, t) && Pairing(j, toDst, toSrc, done, at.Keys)
      && Sound(j) && Visited(j, done) && Inv(j, t, done)
      && Replay(j.base, script) == Some(t)
    }

    /** The marks say exactly which children of aligned nodes are at home, in order. */
    ghost predicate Marked(aligned: set<Node>)
      reads this
    {
      OrderInv(j, t, aligned, dstInOrder) && PairedMarks(j, toSrc, done, aligned, dstInOrder, srcInOrder)
    }

    /** findPos on a node that is next to be visited; it does not look at labels. */
    method PlaceNext(x: Node, ghost t0: Tree) returns (k: nat)
      requires Rep(at, t) && Linked(t) && Pairing(j, toDst, toSrc, done, at.Keys)
      requires Stage(j, t0, done, dstInOrder) && PairedMarks(j, toSrc, done, done, dstInOrder, srcInOrder)
      requires t.parent == t0.parent && t.kids == t0.kids && Next(j, done, x)
      ensures PlaceFor(j, t0, x, k)
    {
      NextListed(j, t0, done, x);
      var p := FindPos(x);
      PlaceByReady(j, t, t0, toSrc, done, dstInOrder, srcInOrder, x, p);
      PlaceInRange(j, t0, x, p);
      k := p;
    }

    /** Creates the node for x and hangs it below z at k. */
    method GrowTree(x: Node, z: Node, k: nat) returns (w: CNode)
      requires Rep(at, t) && Linked(t) && x !in t.kids && z in at && k <= |Kids(t, z)|
      modifies this`at, this`t, at.Values
      ensures fresh(w) && at == old(at)[x := w]
      ensures t == Attach(Fresh(old(t), x, Text(x)), z, x, k)
      ensures Rep(at, t)
    {
      w := HangNew(x, at[z], k, at, t);
      t := Attach(Fresh(t, x, Text(x)), z, x, k);
      at := at[x := w];
    }

    /** Pairs x with the node made for it. */
    method PairNew(x: Node)
      modifies this`toDst, this`toSrc, this`done
      ensures toDst == old(toDst)[x := x] && toSrc == old(toSrc)[x := x] && done == old(done) + {x}
    {
      toDst := toDst[x := x];
      toSrc := toSrc[x := x];
      done := done + {x};
    }

    /** Creates the node for x, hangs it below z at k, pairs it and records the action. */
    method CreateNode(x: Node, z: Node, k: nat)
      requires Rep(at, t) && Linked(t) && x !in t.kids && z in at && k <= |Kids(t, z)|
      modifies this, at.Values
      ensures x in at && fresh(at[x]) && at == old(at)[x := at[x]]
      ensures t == Attach(Fresh(old(t), x, Text(x)), z, x, k)
      ensures Rep(at, t)
      ensures toDst == old(toDst)[x := x] && toSrc == old(toSrc)[x := x]
      ensures done == old(done) + {x} && script == old(script) + [Insert(x, z, k)]
      ensures dstInOrder == old(dstInOrder) && srcInOrder == old(srcInOrder)
    {
      script := script + [Insert(x, z, k)];
      PairNew(x);
      var w := GrowTree(x, z, k);
    }

    /** An unmatched target node: a new node is inserted below its parent's partner. */
    method InsertPartner(x: Node, z: Node)
      requires Valid() && Marked(done) && Next(j, done, x) && x !in j.match0 && z == Up(j, x)
      requires Ledger(j, script, done, dstInOrder)
      modifies this, at.Values
      ensures Valid() && done == old(done) + {x}
      ensures OrderInv(j, t, old(done), dstInOrder + {x})
      ensures dstInOrder == old(dstInOrder) && srcInOrder == old(srcInOrder)
      ensures x in at && fresh(at[x]) && at == old(at)[x := at[x]]
      ensures toSrc == old(toSrc)[x := x]
      ensures Ledger(j, script, done, dstInOrder + {x}) && AddsMoves(old(script), script, CrossMove(j, x))
    {
      hide AddsMoves, CrossMove, Sound, OrderInv, Visited, PairedMarks, Pairing, Attach, Fresh, Replay, Next, PlaceFor,
        Ledger;
      InvLinked(j, t, done);
      var k := PlaceNext(x, t);
      InsertAdds(j, script, x, z, k);
      ghost var r := Attach(Fresh(t, x, Text(x)), z, x, k);
      InsertEffect(j, t, done, dstInOrder, script, x, k, r);
      NotYetHome(j, t, done, x);
      PairingGrows(j, toDst, toSrc, done, at.Keys, x);
      LedgerInsert(j, script, done, dstInOrder, x, z, k);
      LedgerMarks(j, script + [Insert(x, z, k)], done + {x}, dstInOrder, dstInOrder + {x});
      CreateNode(x, z, k);
      assert at.Keys == old(at).Keys + {x};
    }

    /** Whether the node had children in its own file. */
    function HadChildren(n: Node): bool {
      if n in j.base.kids then |j.base.kids[n]| > 0 else n in j.dst.kids && |j.dst.kids[n]| > 0
    }

    /** Brings the label of n up to date and records an Update if it differed. */
    method UpdateLabel(n: Node, v: string)
      requires Rep(at, t) && n in at
      modifies this`script, this`t, at.Values
      ensures Rep(at, t) && t == Relabelled(old(t), n, v)
      ensures script == RelabelScript(old(t), old(script), n, v)
    {
      assert Holds(at, t, n, at[n]);
      if at[n].text != v {
        script := script + [Update(n, v)];
        Relabel(at[n], v, at, t);
        t := Relabelled(t, n, v);
      } else {
        SameEntry(t.labels, n, v);
      }
    }

    /** Moves n below z at k and records the action. */
    method MoveNode(n: Node, z: Node, k: nat)
      requires Rep(at, t) && Linked(t) && n in at && z in at && n != z
      requires n in t.parent && t.parent[n] != z && t.parent[n] != n && k <= |Kids(t, z)|
      modifies this`script, this`t, at.Values
      ensures Rep(at, t) && t == Attach(Detach(old(t), n), z, n, k)
      ensures script == old(script) + [Move(n, z, k, HadChildren(n))]
    {
      script := script + [Move(n, z, k, HadChildren(n))];
      Rehang(at[z], at[n], k, at, t);
      t := Attach(Detach(t, n), z, n, k);
    }

    /** Moves x's partner below z. */
    method MoveHome(x: Node, z: Node, ghost t0: Tree)
      requires Rep(at, t) && Pairing(j, toDst, toSrc, done, at.Keys)
      requires Stage(j, t0, done, dstInOrder) && PairedMarks(j, toSrc, done, done, dstInOrder, srcInOrder)
      requires t == Relabelled(t0, Partner(j, x), Text(x)) && IsTree(t) && Replay(j.base, script) == Some(t)
      requires Next(j, done, x) && x in j.match0 && x in j.dst.parent && z == Up(j, x)
      requires Partner(j, x) in t0.parent && t0.parent[Partner(j, x)] != z
      requires Ledger(j, script, done + {x}, dstInOrder)
      modifies this`script, this`t, at.Values
      ensures Rep(at, t) && Replay(j.base, script) == Some(t)
      ensures Visited(j, done + {x}) && Inv(j, t, done + {x}) && OrderInv(j, t, done, dstInOrder + {x})
      ensures Ledger(j, script, done + {x}, dstInOrder + {x}) && AddsMoves(old(script), script, CrossMove(j, x))
    {
      hide Inv, Sound, OrderInv, Visited, PairedMarks, Stage, Next, Pairing, Replay, IsTree, Attach, Detach,
        PlaceFor, Ledger, AddsMoves, CrossMove;
      PairingGives(j, toDst, toSrc, done, at.Keys, x);
      TreeLinked(t);
      var n := toSrc[x];
      var k := PlaceNext(x, t0);
      ghost var r := Attach(Detach(t, n), z, n, k);
      MoveEffect(j, t0, done, dstInOrder, x, k, t, r);
      NotOwnParent(t, n);
      MoveReplays(j.base, t, script, n, z, k, HadChildren(n), r);
      MoveAdds(j, t0, done, dstInOrder, script, x, k, HadChildren(n));
      StageSound(j, t0, done, dstInOrder);
      MarksInTarget(j, toSrc, done, done, dstInOrder, srcInOrder);
      NextInTarget(j, done, x);
      NotMarked(j, t0, done, dstInOrder, x);
      LedgerMove(j, script, done + {x}, dstInOrder, x, z, k, HadChildren(n));
      MoveNode(n, z, k);
    }

    /** Moves x's partner below z unless it is there. */
    method Settle(x: Node, z: Node, ghost t0: Tree)
      requires Rep(at, t) && Pairing(j, toDst, toSrc, done, at.Keys)
      requires Stage(j, t0, done, dstInOrder) && PairedMarks(j, toSrc, done, done, dstInOrder, srcInOrder)
      requires t == Relabelled(t0, Partner(j, x), Text(x)) && IsTree(t) && Replay(j.base, script) == Some(t)
      requires Next(j, done, x) && x in j.match0 && x in j.dst.parent && z == Up(j, x)
      requires Ledger(j, script, done + {x}, dstInOrder)
      modifies this`script, this`t, at.Values
      ensures Rep(at, t) && Replay(j.base, script) == Some(t)
      ensures Visited(j, done + {x}) && Inv(j, t, done + {x}) && OrderInv(j, t, done, dstInOrder + {x})
      ensures Ledger(j, script, done + {x}, dstInOrder + {x}) && AddsMoves(old(script), script, CrossMove(j, x))
    {
      hide Inv, Sound, OrderInv, Visited, PairedMarks, Ledger, AddsMoves, CrossMove;
      PairedFacts(j, t0, done, x);
      UpInTree(j, t0, done, x);
      ParentAgrees(toSrc[x], z);
      if at[toSrc[x]].parent == at[z] {
        LedgerMarks(j, script, done + {x}, dstInOrder, dstInOrder + {x});
        StayEffect(j, t0, done, dstInOrder, x, t);
        StayAdds(j, t0, done, dstInOrder, script, x);
      } else {
        MoveHome(x, z, t0);
      }
    }

    /** A matched target node below the root: its label is updated and it is moved if it hangs elsewhere. */
    method VisitMatched(x: Node, z: Node)
      requires Valid() && Marked(done) && Next(j, done, x) && x in j.match0 && x in j.dst.parent && z == Up(j, x)
      requires Ledger(j, script, done, dstInOrder)
      modifies this`script, this`t, at.Values
      ensures Rep(at, t) && Replay(j.base, script) == Some(t)
      ensures Visited(j, done + {x}) && Inv(j, t, done + {x}) && OrderInv(j, t, done, dstInOrder + {x})
      ensures Ledger(j, script, done + {x}, dstInOrder + {x}) && AddsMoves(old(script), script, CrossMove(j, x))
    {
      hide Inv, Sound, OrderInv, Visited, Linked, PairedMarks, Ledger, AddsMoves, CrossMove;
      ghost var t0 := t;
      RelabelAdds(t, script, Partner(j, x), Text(x));
      PairedFacts(j, t, done, x);
      InvIsTree(j, t, done);
      RelabelEffect(j.base, t, script, Partner(j, x), Text(x));
      NextInTarget(j, done, x);
      VisitedInTarget(j, done);
      RelabelIsRenamed(j, t, done, script, x);
      LedgerUpdate(j, script, done, dstInOrder, x, RelabelScript(t, script, Partner(j, x), Text(x)));
      UpdateLabel(toSrc[x], Text(x));
      ghost var renamed := script;
      Settle(x, z, t0);
      AddsAfter(old(script), renamed, script, CrossMove(j, x));
    }

    /** A matched root is left alone. */
    lemma RootVisit(x: Node)
      requires Stage(j, t, done, dstInOrder) && Next(j, done, x) && x in j.match0 && x !in j.dst.parent
      requires Ledger(j, script, done, dstInOrder)
      ensures Visited(j, done + {x}) && Inv(j, t, done + {x}) && OrderInv(j, t, done, dstInOrder + {x})
      ensures Ledger(j, script, done + {x}, dstInOrder + {x})
    {
      hide Inv, OrderInv, Visited, Linked, Ledger;
      RootEffect(j, t, done, dstInOrder, x);
      NextInTarget(j, done, x);
      StageSound(j, t, done, dstInOrder);
      RootOrChild(j, x);
      LedgerUpdate(j, script, done, dstInOrder, x, script);
      LedgerMarks(j, script, done + {x}, dstInOrder, dstInOrder + {x});
    }

    /** A matched target node; a matched root is left alone. */
    method VisitPaired(x: Node, z: Node)
      requires Valid() && Marked(done) && Next(j, done, x) && x in j.match0 && z == Up(j, x)
      requires Ledger(j, script, done, dstInOrder)
      modifies this, at.Values
      ensures Valid() && done == old(done) + {x}
      ensures OrderInv(j, t, old(done), dstInOrder + {x})
      ensures Ledger(j, script, done, dstInOrder + {x}) && AddsMoves(old(script), script, CrossMove(j, x))
      ensures at == old(at) && dstInOrder == old(dstInOrder) && srcInOrder == old(srcInOrder) && toSrc == old(toSrc)
    {
      hide Inv, Sound, OrderInv, Visited, Linked, Pairing, PairedMarks, Ledger, Up, Rep, Replay, AddsMoves, CrossMove;
      RootOrChild(j, x);
      PairingVisits(j, toDst, toSrc, done, at.Keys, x);
      if x != j.dst.root {
        VisitMatched(x, z);
      } else {
        RootVisit(x);
        NoCross(j, x, script);
      }
      done := done + {x};
    }

    // -------------------------------------------------------------- aligning the children of one node

    /** n is paired with a child of x. */
    predicate PairedBelow(x: Node, n: Node)
      reads this
    {
      n in toDst && toDst[n] in j.dst.parent && j.dst.parent[toDst[n]] == x
    }

    /** The working children of x's partner that are paired with children of x, in working order. */
    method SourceSide(x: Node) returns (s1: seq<Node>)
      requires Rep(at, t) && Linked(t) && Partner(j, x) in at
      ensures Sublist(Kids(t, Partner(j, x)), s1)
      ensures forall n :: n in s1 <==> n in Kids(t, Partner(j, x)) && PairedBelow(x, n)
    {
      var w := at[Partner(j, x)];
      ghost var ns := Kids(t, Partner(j, x));
      assert Holds(at, t, Partner(j, x), w);
      KidsDiffer(t, Partner(j, x));
      hide Linked, Sublist, NoDup;
      s1 := [];
      assert Sublist(ns[..0], s1) by { SublistNone<Node>(ns[..0]); }
      var i := 0;
      while i < |w.children|
        invariant 0 <= i <= |w.children|
        invariant Sublist(ns[..i], s1)
        invariant forall n :: n in s1 <==> n in ns[..i] && PairedBelow(x, n)
      {
        var c := w.children[i].orig;
        assert ns[i] == c;
        assert ns[..i+1] == ns[..i] + [c];
        if PairedBelow(x, c) {
          SublistTake(ns, s1, i);
          s1 := s1 + [c];
        } else {
          SublistSkip(ns, s1, i);
        }
        i := i + 1;
      }
      assert ns[..i] == ns;
    }

    /** The children of x whose partner hangs below x's partner, in x's order. */
    method TargetSide(x: Node) returns (s2: seq<Node>)
      requires Rep(at, t) && Linked(t) && x in j.dst.kids && NoDup(j.dst.kids[x]) && Partner(j, x) in at
      requires forall v {:trigger toSrc[v]} :: v in toSrc ==> toSrc[v] == Partner(j, v) && toSrc[v] in at
      requires forall c :: c in HomeSet(j, t, x) ==> c in toSrc
      ensures Sublist(j.dst.kids[x], s2)
      ensures forall c :: c in s2 <==> c in HomeSet(j, t, x)
    {
      hide Linked, Sublist, NoDup;
      var cs := j.dst.kids[x];
      s2 := [];
      assert Sublist(cs[..0], s2) by { SublistNone<Node>(cs[..0]); }
      var i := 0;
      while i < |cs|
        invariant 0 <= i <= |cs|
        invariant Sublist(cs[..i], s2)
        invariant forall c :: c in s2 <==> c in cs[..i] && Home(j, t, x, c)
      {
        var c := cs[i];
        assert cs[..i+1] == cs[..i] + [c];
        if c in toSrc { LinkedParent(toSrc[c], Partner(j, x)); }
        if c in toSrc && at[toSrc[c]].parent == at[Partner(j, x)] {
          SublistTake(cs, s2, i);
          s2 := s2 + [c];
        } else {
          assert !Home(j, t, x, c);
          SublistSkip(cs, s2, i);
        }
        i := i + 1;
      }
      assert cs[..i] == cs;
    }

    lemma LinkedParent(n: Node, p: Node)
      requires Rep(at, t) && Linked(t) && n in at && p in at
      ensures at[n].parent == at[p] <==> n in t.parent && t.parent[n] == p
    {
      ParentAgrees(n, p);
    }

    /** Where each node stands among its parent's children, in the working tree. */
    method Places(s1: seq<Node>) returns (idx: seq<int>)
      requires forall n :: n in s1 ==> n in at
      ensures |idx| == |s1|
    {
      idx := [];
      for i := 0 to |s1|
        invariant |idx| == i
      {
        var p := at[s1[i]].ChildIndex();
        idx := idx + [p];
      }
    }

    /** The parent of a node in its own file. */
    function FileParent(n: Node): Option<Node> {
      if n in j.base.parent && j.base.parent[n] != FakeRoot then Some(j.base.parent[n])
      else if n in j.dst.parent then Some(j.dst.parent[n])
      else None
    }

    /** What keeping the pair (n, y) is worth: 100, more if it also kept its place. */
    function Score(n: Node, y: Node, ix: int, iy: int): (r: int)
      ensures 100 <= r <= 130
    {
      100 + (if ix != -1 && ix == iy then 20 else 0) + PositionBonus(n, y)
    }

    function PositionBonus(n: Node, y: Node): (r: int)
      ensures 0 <= r <= 10
    {
      if n == FakeRoot || y == FakeRoot then 0
      else
        var p, q := n.pos, y.pos;
        var hasPos :=
          && (p.endByte > 0 || p.startRow > 0 || p.endRow > 0)
          && (q.endByte > 0 || q.startRow > 0 || q.endRow > 0);
        if !hasPos then 0
        else if p.startRow == q.startRow && p.startCol == q.startCol then 10
        else if p.startRow == q.startRow then 5
        else
          match (FileParent(n), FileParent(y))
          case (Some(np), Some(yp)) =>
            if np.Ast? && yp.Ast? && p.startRow - np.pos.startRow == q.startRow - yp.pos.startRow
              && p.startCol == q.startCol
            then 3 else 0
          case _ => 0
    }

    /** The children that keep their place: the heaviest common subsequence of the two sides. */
    method Keep(x: Node, s1: seq<Node>, s2: seq<Node>) returns (kept: set<Node>)
      requires x in j.dst.kids && NoDup(j.dst.kids[x])
      requires forall n :: n in s1 ==> n in at
      requires forall v {:trigger toSrc[v]} :: v in toSrc ==> toSrc[v] == Partner(j, v)
      requires forall c, d {:trigger Partner(j, c), Partner(j, d)} ::
                 c in s2 && d in s2 && Partner(j, c) == Partner(j, d) ==> c == d
      requires Sublist(Kids(t, Partner(j, x)), s1) && Sublist(j.dst.kids[x], s2) && NoDup(Kids(t, Partner(j, x)))
      requires forall c :: c in s2 ==> c in toSrc && Partner(j, c) in s1
      ensures forall c :: c in kept ==> c in s2
      ensures Sorted(j, j.dst.kids[x], Kids(t, Partner(j, x)), kept)
      ensures NearMost(j, j.dst.kids[x], Kids(t, Partner(j, x)), SetOf(s2), kept)
    {
      var idx := Places(s1);
      var b := BoardOf(x, s1, s2, idx, toSrc);
      BoardFacts(x, s1, s2, idx, toSrc);
      var ps := ChildLcs.Align(b);
      kept := Targets(b, ps, s2);
      hide ChildLcs.Chain, ChildLcs.Total, ChildLcs.OneToOne, ChildLcs.Priced, Faces, Sorted, Sublist, NearMost,
        BoardOf;
      KeptSorted(j, j.dst.kids[x], Kids(t, Partner(j, x)), s1, s2, b, ps, kept);
      KeptNearMost(j, j.dst.kids[x], Kids(t, Partner(j, x)), s1, s2, b, ps, kept);
    }

    /** The board of the two sides: a hit where the nodes are partners. */
    function BoardOf(x: Node, s1: seq<Node>, s2: seq<Node>, idx: seq<int>, partner: map<Node, Node>): ChildLcs.Board
      requires x in j.dst.kids && |idx| == |s1|
    {
      var hit := (i: nat, k: nat) => i < |s1| && k < |s2| && s2[k] in partner && partner[s2[k]] == s1[i];
      var score := (i: nat, k: nat) =>
        if i < |s1| && k < |s2| then Score(s1[i], s2[k], idx[i], Index(j.dst.kids[x], s2[k])) else 0;
      ChildLcs.Board(|s1|, |s2|, hit, score)
    }

    lemma BoardFacts(x: Node, s1: seq<Node>, s2: seq<Node>, idx: seq<int>, partner: map<Node, Node>)
      requires x in j.dst.kids && |idx| == |s1| && NoDup(s1) && NoDup(s2)
      requires forall c :: c in s2 ==> c in partner && partner[c] == Partner(j, c)
      requires forall c, d {:trigger Partner(j, c), Partner(j, d)} ::
                 c in s2 && d in s2 && Partner(j, c) == Partner(j, d) ==> c == d
      ensures var b := BoardOf(x, s1, s2, idx, partner);
              ChildLcs.OneToOne(b) && ChildLcs.Priced(b) && Faces(j, s1, s2, b)
    {
      hide Score, Index;
    }

    /** The target nodes of the pairs. */
    method Targets(b: ChildLcs.Board, ps: seq<(nat, nat)>, s2: seq<Node>) returns (kept: set<Node>)
      requires ChildLcs.Chain(b, ps, 0, 0) && b.n == |s2|
      ensures forall c :: c in kept <==> exists i :: 0 <= i < |ps| && ps[i].1 < |s2| && c == s2[ps[i].1]
    {
      kept := {};
      for i := 0 to |ps|
        invariant forall c :: c in kept <==> exists l :: 0 <= l < i && ps[l].1 < |s2| && c == s2[ps[l].1]
      {
        kept := kept + {s2[ps[i].1]};
      }
    }

    /** Takes a node out of its parent's list. */
    method TakeNode(n: Node)
      requires Rep(at, t) && Linked(t) && n in at && n in t.parent && t.parent[n] != n
      modifies this`t, at.Values
      ensures Rep(at, t) && t == Detach(old(t), n) && at[n].parent == null
    {
      Unhang(at[n], at, t);
      t := Detach(t, n);
    }

    /** Takes b's partner out of its list and finds its slot among the children aligned so far. */
    method TakeOut(b: Node, x: Node, ghost t0: Tree, ghost some: set<Node>) returns (k: int)
      requires Rep(at, t) && Pairing(j, toDst, toSrc, done, at.Keys)
      requires Sound(j) && Inv(j, t0, done) && AlignInv(j, t0, t, x, some)
      requires b in HomeSet(j, t0, x) && b !in some && x in toSrc
      requires forall c :: c in j.dst.kids[x] ==> (c in dstInOrder <==> c in some)
      requires PartnerSet(j, some) <= srcInOrder
      modifies this`t, at.Values
      ensures Rep(at, t) && t == Detach(old(t), Partner(j, b)) && Partner(j, b) in at
      ensures at[Partner(j, b)].parent == null
      ensures Slot(j, j.dst.kids[x], Without(Kids(old(t), Partner(j, x)), Partner(j, b)), some, b, k)
    {
      hide Inv, Sound, OrderInv, AlignInv, PartnerSet, Detach, Slot, ReadySet, Linked, HomeSet, Without;
      TakeOutFacts(j, t0, t, toDst, toSrc, done, at.Keys, x, some, b, dstInOrder, srcInOrder);
      TakeNode(toSrc[b]);
      k := FindPos(b);
    }

    /** Hangs a detached node below p at k and records the Move. */
    method PutBack(n: Node, p: Node, k: nat)
      requires Rep(at, t) && n in at && p in at && n != p && at[n].parent == null && k <= |Kids(t, p)|
      modifies this`script, this`t, at.Values
      ensures Rep(at, t) && t == Attach(old(t), p, n, k)
      ensures script == old(script) + [Move(n, p, k, HadChildren(n))]
    {
      script := script + [Move(n, p, k, HadChildren(n))];
      Hang(at[p], at[n], k, at, t);
      t := Attach(t, p, n, k);
    }

    /** Marks b and its partner as standing in order. */
    method Mark(b: Node)
      requires b in toSrc
      modifies this`dstInOrder, this`srcInOrder
      ensures dstInOrder == old(dstInOrder) + {b} && srcInOrder == old(srcInOrder) + {toSrc[b]}
    {
      srcInOrder := srcInOrder + {toSrc[b]};
      dstInOrder := dstInOrder + {b};
    }

    /** Moves the partner of a misaligned child b of x to its slot. */
    method AlignOne(b: Node, x: Node, ghost t0: Tree, ghost some: set<Node>, ghost before: seq<Action>,
                    ghost moved: set<Node>)
      requires Rep(at, t) && Pairing(j, toDst, toSrc, done, at.Keys)
      requires Sound(j) && Visited(j, done) && Inv(j, t0, done) && AlignInv(j, t0, t, x, some)
      requires b in HomeSet(j, t0, x) && b !in some && x in toSrc && Replay(j.base, script) == Some(t)
      requires forall c :: c in j.dst.kids[x] ==> (c in dstInOrder <==> c in some)
      requires PartnerSet(j, some) <= srcInOrder
      requires Ledger(j, script, done, dstInOrder) && b !in done && dstInOrder <= j.dst.kids.Keys
      requires MovesAll(j, x, before, script, moved) && b !in moved
      modifies this`script, this`t, at.Values
      ensures Rep(at, t) && AlignInv(j, t0, t, x, some + {b}) && Replay(j.base, script) == Some(t)
      ensures Ledger(j, script, done, dstInOrder + {b}) && MovesAll(j, x, before, script, moved + {b})
    {
      hide Inv, Sound, OrderInv, AlignInv, PartnerSet, Detach, Slot, Linked, HomeSet, Without, Visited, Attach,
        Replay, Pairing, Ledger, MovesAll, Holds, Filed, Same;
      ghost var u := t;
      PairingGives2(j, toDst, toSrc, done, at.Keys, x);
      AlignFacts(j, t0, t, x, some, b);
      var k := TakeOut(b, x, t0, some);
      ghost var r := if k >= 0 then Attach(Detach(u, Partner(j, b)), Partner(j, x), Partner(j, b), k) else u;
      AlignEffect(j, t0, u, x, some, b, k, done, script, HadChildren(Partner(j, b)), r);
      HomeMatched(j, t0, done, x, b);
      assert b !in dstInOrder;
      LedgerMove(j, script, done, dstInOrder, b, Partner(j, x), k, HadChildren(Partner(j, b)));
      MovesMore(j, x, before, script, moved, b, k, HadChildren(Partner(j, b)));
      PutBack(Partner(j, b), Partner(j, x), k);
    }

    /** Moves one misaligned child of x and marks it. */
    method AlignNext(b: Node, x: Node, ghost t0: Tree, ghost some: set<Node>, ghost dst0: set<Node>,
                     ghost src0: set<Node>, ghost before: seq<Action>, ghost moved: set<Node>)
      requires Rep(at, t) && Pairing(j, toDst, toSrc, done, at.Keys)
      requires Sound(j) && Visited(j, done) && Inv(j, t0, done) && AlignInv(j, t0, t, x, some)
      requires b in HomeSet(j, t0, x) && b !in some && x in toSrc && Replay(j.base, script) == Some(t)
      requires x in j.dst.kids && PartMarked(j, x, some, dst0, src0, dstInOrder, srcInOrder)
      requires Ledger(j, script, done, dstInOrder) && b !in done && dstInOrder <= j.dst.kids.Keys
      requires MovesAll(j, x, before, script, moved) && b !in moved
      modifies this`script, this`t, this`dstInOrder, this`srcInOrder, at.Values
      ensures Rep(at, t) && AlignInv(j, t0, t, x, some + {b}) && Replay(j.base, script) == Some(t)
      ensures PartMarked(j, x, some + {b}, dst0, src0, dstInOrder, srcInOrder)
      ensures Ledger(j, script, done, dstInOrder) && dstInOrder <= j.dst.kids.Keys
      ensures MovesAll(j, x, before, script, moved + {b})
    {
      hide Inv, Sound, OrderInv, AlignInv, PartnerSet, Linked, HomeSet, Visited, Replay, Pairing, Ledger, MovesAll;
      HomePaired(j, t0, toDst, toSrc, done, at.Keys, x, b);
      PartMarkedStep(j, x, some, dst0, src0, dstInOrder, srcInOrder, b);
      AlignOne(b, x, t0, some, before, moved);
      Mark(b);
    }

    /** Brings the remaining children of x into order, from left to right. */
    method AlignRest(x: Node, s2: seq<Node>, kept: set<Node>, ghost t0: Tree, ghost dst0: set<Node>,
                     ghost src0: set<Node>)
      requires Rep(at, t) && Pairing(j, toDst, toSrc, done, at.Keys)
      requires Sound(j) && Visited(j, done) && Inv(j, t0, done) && AlignInv(j, t0, t, x, kept)
      requires x in j.dst.kids && kept <= HomeSet(j, t0, x) && x in toSrc && Replay(j.base, script) == Some(t)
      requires x in j.dst.kids && PartMarked(j, x, kept, dst0, src0, dstInOrder, srcInOrder)
      requires NoDup(s2) && forall c :: c in s2 <==> c in HomeSet(j, t0, x)
      requires Ledger(j, script, done, dstInOrder) && dstInOrder <= j.dst.kids.Keys
      requires forall c :: c in s2 ==> c !in done
      modifies this`script, this`t, this`dstInOrder, this`srcInOrder, at.Values
      ensures Rep(at, t) && AlignInv(j, t0, t, x, HomeSet(j, t0, x)) && Replay(j.base, script) == Some(t)
      ensures PartMarked(j, x, HomeSet(j, t0, x), dst0, src0, dstInOrder, srcInOrder)
      ensures Ledger(j, script, done, dstInOrder) && dstInOrder <= j.dst.kids.Keys
      ensures MovesAll(j, x, old(script), script, HomeSet(j, t0, x) - kept)
    {
      MovesNone(j, x, script);
      hide Inv, Sound, OrderInv, AlignInv, PartnerSet, Linked, Visited, Replay, Pairing, Ledger, Sorted, PartMarked,
        MovesAll, HomeSet, SetOf;
      ghost var some, before := kept, script;
      NoneYet(s2, kept);
      var i := 0;
      while i < |s2|
        invariant 0 <= i <= |s2|
        invariant some == kept + SetOf(s2[..i]) && some <= HomeSet(j, t0, x)
        invariant Rep(at, t) && AlignInv(j, t0, t, x, some) && Replay(j.base, script) == Some(t)
        invariant PartMarked(j, x, some, dst0, src0, dstInOrder, srcInOrder)
        invariant Ledger(j, script, done, dstInOrder) && dstInOrder <= j.dst.kids.Keys
        invariant MovesAll(j, x, before, script, some - kept)
      {
        OneMore(s2, i, kept);
        if s2[i] !in kept {
          AlignNext(s2[i], x, t0, some, dst0, src0, before, some - kept);
          some := some + {s2[i]};
        }
        i := i + 1;
      }
      assert s2[..i] == s2;
      AllHome(s2, kept, HomeSet(j, t0, x));
    }

    /** Forgets the marks of the working children of x's partner and of the children of x. */
    method Unmark(x: Node)
      requires Rep(at, t) && Partner(j, x) in at && x in j.dst.kids
      modifies this`dstInOrder, this`srcInOrder
      ensures dstInOrder == old(dstInOrder) - SetOf(j.dst.kids[x])
      ensures srcInOrder == old(srcInOrder) - SetOf(Kids(t, Partner(j, x)))
    {
      var w := at[Partner(j, x)];
      assert Holds(at, t, Partner(j, x), w);
      var gone := set c | c in w.children :: c.orig;
      assert gone == SetOf(Kids(t, Partner(j, x))) by {
        forall n ensures n in gone <==> n in t.kids[Partner(j, x)] {
          if n in t.kids[Partner(j, x)] {
            var i :| 0 <= i < |w.children| && t.kids[Partner(j, x)][i] == n;
            assert w.children[i] in w.children;
          }
        }
      }
      srcInOrder := srcInOrder - gone;
      dstInOrder := dstInOrder - set c | c in j.dst.kids[x];
    }

    /** Marks the given children of x and their partners as standing in order. */
    method MarkAll(some: set<Node>)
      requires forall c :: c in some ==> c in toSrc && toSrc[c] == Partner(j, c)
      modifies this`dstInOrder, this`srcInOrder
      ensures dstInOrder == old(dstInOrder) + some && srcInOrder == old(srcInOrder) + PartnerSet(j, some)
    {
      srcInOrder := srcInOrder + set c | c in some :: toSrc[c];
      dstInOrder := dstInOrder + some;
    }

    /** What holds while the children of x are being aligned, before any of them is marked. */
    ghost predicate Aligning(x: Node, aligned: set<Node>)
      reads this, at.Values
    {
      && Rep(at, t) && Pairing(j, toDst, toSrc, done, at.Keys)
      && Sound(j) && Visited(j, done) && Inv(j, t, done) && Replay(j.base, script) == Some(t)
      && OrderInv(j, t, aligned, dstInOrder) && PairedMarks(j, toSrc, done, aligned, dstInOrder, srcInOrder)
      && done == aligned + {x} && x !in aligned
      && Ledger(j, script, done, dstInOrder)
      && x in j.dst.kids && forall c :: c in j.dst.kids[x] ==> c !in done
    }

    /** An order-insensitive container: its children at home count as aligned as they stand. */
    method AlignAsIs(x: Node, s2: seq<Node>, ghost aligned: set<Node>)
      requires Aligning(x, aligned) && !Ordered(j, x)
      requires forall c :: c in s2 <==> c in HomeSet(j, t, x)
      requires forall c :: c in j.dst.kids[x] ==> c !in dstInOrder
      modifies this`dstInOrder, this`srcInOrder
      ensures Valid() && Marked(done) && Ledger(j, script, done, dstInOrder)
      ensures FewMoves(j, t, x, script, script)
    {
      hide Inv, Sound, OrderInv, Visited, Replay, Pairing, Ledger, PairedMarks, Linked, PartnerSet, FewMoves;
      NoMoves(j, t, x, script);
      var some := set c | c in s2;
      assert some == HomeSet(j, t, x);
      assert dstInOrder - SetOf(j.dst.kids[x]) == dstInOrder;
      InTarget(j, t, done, x);
      VisitedInTarget(j, done);
      HomeAllPaired(j, t, toDst, toSrc, done, at.Keys, x);
      MarkHome(j, t, toDst, toSrc, done, at.Keys, aligned, x, dstInOrder, srcInOrder, some);
      AlignUnordered(j, t, x, done, aligned, dstInOrder, dstInOrder + some);
      LedgerMarks(j, script, done, dstInOrder, dstInOrder + some);
      MarkAll(some);
    }

    /** An order-sensitive container: the heaviest common subsequence stays, the rest is moved into order. */
    method AlignInOrder(x: Node, s2: seq<Node>, ghost aligned: set<Node>)
      requires Aligning(x, aligned) && Sublist(j.dst.kids[x], s2)
      requires forall c :: c in s2 <==> c in HomeSet(j, t, x)
      requires Ordered(j, x) && forall c :: c in j.dst.kids[x] ==> c !in dstInOrder
      modifies this`script, this`t, this`dstInOrder, this`srcInOrder, at.Values
      ensures Valid() && Marked(done) && Ledger(j, script, done, dstInOrder)
      ensures FewMoves(j, old(t), x, old(script), script)
    {
      hide Inv, Sound, OrderInv, Visited, Replay, Pairing, Ledger, PairedMarks, Linked, PartnerSet, AlignInv,
        PartMarked, Sorted, HomeSet, Sublist, NearMost, MovesAll, FewMoves;
      InTarget(j, t, done, x);
      SublistNoDup(j.dst.kids[x], s2);
      HomeAllPaired(j, t, toDst, toSrc, done, at.Keys, x);
      PairingValues(j, toDst, toSrc, done, at.Keys);
      PairingGives(j, toDst, toSrc, done, at.Keys, x);
      var kept := KeepSome(x, s2);
      ghost var t0, dst0, src0 := t, dstInOrder, srcInOrder;
      AlignStart(j, t, done, x, kept);
      PartMarkedStart(j, x, kept, dst0, src0);
      LedgerMarks(j, script, done, dstInOrder, dstInOrder + kept);
      MarksInTarget(j, toSrc, done, aligned, dstInOrder, srcInOrder);
      MarkAll(kept);
      HomeChildren(j, t, x);
      AlignRest(x, s2, kept, t0, dst0, src0);
      FewMovesBy(j, t0, x, old(script), script, kept);
      AlignedState(j, t0, t, toDst, toSrc, done, at.Keys, aligned, x, dst0, src0, dstInOrder, srcInOrder);
    }

    /** The children of x that keep their place. */
    method KeepSome(x: Node, s2: seq<Node>) returns (kept: set<Node>)
      requires Rep(at, t) && Linked(t) && Partner(j, x) in at && Sound(j) && x in j.dst.kids
      requires NoDup(j.dst.kids[x]) && Sublist(j.dst.kids[x], s2)
      requires forall c :: c in s2 ==> c in j.dst.kids
      requires forall v {:trigger toSrc[v]} :: v in toSrc ==> toSrc[v] == Partner(j, v) && toSrc[v] in at
      requires Inv(j, t, done) && Pairing(j, toDst, toSrc, done, at.Keys)
      requires forall c :: c in s2 <==> c in HomeSet(j, t, x)
      ensures forall c :: c in kept ==> c in s2
      ensures Partner(j, x) in t.kids && Sorted(j, j.dst.kids[x], t.kids[Partner(j, x)], kept)
      ensures NearMost(j, j.dst.kids[x], Kids(t, Partner(j, x)), HomeSet(j, t, x), kept)
    {
      hide Sound, Linked, Sorted, Pairing, Inv, Sublist, HomeSet, NearMost;
      var s1 := SourceSide(x);
      PartnersDiffer(j, s2);
      KidsInTree(x, s1);
      forall c | c in s2 ensures c in toSrc && Partner(j, c) in s1 { HomeFaces(x, c); }
      KidsDiffer(t, Partner(j, x));
      assert SetOf(s2) == HomeSet(j, t, x);
      kept := Keep(x, s1, s2);
    }

    /** A child at home has its partner among the working children that are paired with children of x. */
    lemma HomeFaces(x: Node, c: Node)
      requires Rep(at, t) && Linked(t) && Sound(j) && x in j.dst.kids && c in HomeSet(j, t, x)
      requires Inv(j, t, done) && Pairing(j, toDst, toSrc, done, at.Keys)
      ensures c in toSrc && Partner(j, c) in Kids(t, Partner(j, x)) && PairedBelow(x, Partner(j, c))
    {
      HomePaired(j, t, toDst, toSrc, done, at.Keys, x, c);
      assert toDst[toSrc[c]] == c;
    }

    static lemma KidsDiffer(t: Tree, p: Node)
      requires Linked(t)
      ensures NoDup(Kids(t, p))
    {
    }

    lemma KidsInTree(x: Node, s1: seq<Node>)
      requires Rep(at, t) && Linked(t) && Partner(j, x) in at && Sublist(Kids(t, Partner(j, x)), s1)
      ensures forall n :: n in s1 ==> n in at
    {
      forall n | n in s1 ensures n in at {
        assert n in t.kids[Partner(j, x)];
      }
    }

    /** Aligns the children of x's partner with those of x. */
    method AlignChildren(x: Node, ghost aligned: set<Node>)
      requires Aligning(x, aligned)
      modifies this`script, this`t, this`dstInOrder, this`srcInOrder, at.Values
      ensures Valid() && Marked(done) && Ledger(j, script, done, dstInOrder)
      ensures FewMoves(j, old(t), x, old(script), script)
      ensures exists kept :: AlignMoves(j, x, old(script), script, kept)
    {
      hide Inv, Sound, OrderInv, Visited, Replay, Pairing, Ledger, PairedMarks, Linked, PartnerSet, FewMoves,
        AlignMoves;
      ghost var t0, marks, before := t, dstInOrder, script;
      InTarget(j, t, done, x);
      VisitedInTarget(j, done);
      HomeAllPaired(j, t, toDst, toSrc, done, at.Keys, x);
      PairingValues(j, toDst, toSrc, done, at.Keys);
      NoMarksBelow(j, toSrc, done, aligned, x, dstInOrder, srcInOrder);
      UnmarkKeeps(j, t, toSrc, done, aligned, x, dstInOrder, srcInOrder);
      Unmark(x);
      var s2 := TargetSide(x);
      if Unordered(x) || Unordered(Partner(j, x)) {
        AlignAsIs(x, s2, aligned);
      } else {
        AlignInOrder(x, s2, aligned);
      }
      FewIsStatic(j, t0, done, aligned, marks, x, before, script);
    }

    /** One visit of the breadth-first pass over the target. */
    method Visit(x: Node)
      requires Valid() && Marked(done) && Next(j, done, x) && Ledger(j, script, done, dstInOrder)
      requires forall c :: c in j.dst.kids[x] ==> c !in done && c != x
      modifies this, at.Values
      ensures Valid() && Marked(done) && Ledger(j, script, done, dstInOrder)
      ensures done == old(done) + {x}
      ensures exists kept :: VisitMoves(j, x, old(script), script, kept)
      ensures forall n {:trigger at[n]} :: n in at ==> (n in old(at) && at[n] == old(at)[n]) || fresh(at[n])
    {
      hide Inv, Sound, OrderInv, Visited, Replay, Pairing, Ledger, PairedMarks, Linked, Next, FewMoves, AlignMoves,
        VisitMoves, AddsMoves;
      ghost var aligned := done;
      Arrive(x);
      ghost var arrived := script;
      AlignChildren(x, aligned);
      VisitedMoves(j, x, old(script), arrived, script);
    }

    /** Gives x a partner at the right place, and marks both. */
    method Arrive(x: Node)
      requires Valid() && Marked(done) && Next(j, done, x) && Ledger(j, script, done, dstInOrder)
      requires forall c :: c in j.dst.kids[x] ==> c !in done && c != x
      modifies this, at.Values
      ensures done == old(done) + {x} && Aligning(x, old(done)) && AddsMoves(old(script), script, CrossMove(j, x))
      ensures forall n {:trigger at[n]} :: n in at ==> (n in old(at) && at[n] == old(at)[n]) || fresh(at[n])
    {
      hide Inv, Sound, OrderInv, Visited, Replay, Pairing, Ledger, PairedMarks, Linked, Next, AddsMoves, CrossMove;
      UpLookup(j, toDst, toSrc, done, at.Keys, x);
      NextInTarget(j, done, x);
      ghost var toSrc0 := toSrc;
      var z := FakeRoot;
      if x in j.dst.parent && j.dst.parent[x] in toSrc {
        z := toSrc[j.dst.parent[x]];
      }
      if x !in toSrc {
        InsertPartner(x, z);
      } else {
        VisitPaired(x, z);
      }
      PairingGives(j, toDst, toSrc, done, at.Keys, x);
      MarksSurvive(j, toSrc0, toSrc, old(done), dstInOrder, srcInOrder);
      MarkVisited(j, toSrc, done, old(done), dstInOrder, srcInOrder, x);
      Mark(x);
    }
  }
}
