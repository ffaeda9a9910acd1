/** Which nodes a script moves, in terms of the two files alone, and how many at most. */
module MoveCounts {
  import opened Lists
  import opened Trees
  import opened ScriptSpec
  import opened ScriptSteps
  import opened AlignSteps
  import opened KeptChildren

  /** x is paired with a node whose parent is not the partner of x's parent. */
  ghost predicate Crosses(j: Problem, x: Node) {
    && x in j.match0 && x in j.dst.parent && j.match0[x] in j.base.parent
    && j.base.parent[j.match0[x]] != Up(j, x)
  }

  /** What visiting x itself moves. */
  ghost function CrossMove(j: Problem, x: Node): set<Node> {
    if Crosses(j, x) then {Partner(j, x)} else {}
  }

  /** Before its visit a paired node hangs where the source has it. */
  lemma CrossesNow(j: Problem, t: Tree, done: set<Node>, x: Node)
    requires Sound(j) && Inv(j, t, done) && done <= j.dst.kids.Keys && x in j.match0 && x !in done && x in j.dst.parent
    ensures Partner(j, x) in t.parent && (t.parent[Partner(j, x)] == Up(j, x) <==> !Crosses(j, x))
  {
    if Placed(j, done, Partner(j, x)) {
      var y :| y in done && Partner(j, y) == Partner(j, x);
      PartnerInjective(j, x, y);
    }
    assert j.match0[x] in j.base.parent;
  }

  lemma NoCross(j: Problem, x: Node, script: seq<Action>)
    requires x !in j.match0 || x !in j.dst.parent
    ensures AddsMoves(script, script, CrossMove(j, x))
  {
  }

  lemma InsertAdds(j: Problem, script: seq<Action>, x: Node, z: Node, k: nat)
    requires x !in j.match0
    ensures AddsMoves(script, script + [Insert(x, z, k)], CrossMove(j, x))
  {
    AddsNone(script, Insert(x, z, k));
  }

  lemma MoveAdds(j: Problem, t: Tree, done: set<Node>, marks: set<Node>, script: seq<Action>, x: Node, k: nat, s: bool)
    requires Stage(j, t, done, marks) && Next(j, done, x) && x in j.match0 && x in j.dst.parent
    requires Partner(j, x) in t.parent && t.parent[Partner(j, x)] != Up(j, x)
    ensures AddsMoves(script, script + [Move(Partner(j, x), Up(j, x), k, s)], CrossMove(j, x))
  {
    CrossesNow(j, t, done, x);
    AddsOne(script, Partner(j, x), Up(j, x), k, s);
  }

  lemma StayAdds(j: Problem, t: Tree, done: set<Node>, marks: set<Node>, script: seq<Action>, x: Node)
    requires Stage(j, t, done, marks) && Next(j, done, x) && x in j.match0 && x in j.dst.parent
    requires Partner(j, x) in t.parent && t.parent[Partner(j, x)] == Up(j, x)
    ensures AddsMoves(script, script, CrossMove(j, x))
  {
    CrossesNow(j, t, done, x);
  }

  lemma RelabelAdds(t: Tree, script: seq<Action>, n: Node, v: string)
    ensures AddsMoves(script, RelabelScript(t, script, n, v), {})
  {
    AddsNone(script, Update(n, v));
  }

  lemma AddsAfter(a: seq<Action>, b: seq<Action>, c: seq<Action>, n: set<Node>)
    requires AddsMoves(a, b, {}) && AddsMoves(b, c, n)
    ensures AddsMoves(a, c, n)
  {
  }

  /** The children of x that are paired with children of x's partner. */
  ghost function SourceHome(j: Problem, x: Node): set<Node>
    requires x in j.dst.kids
  {
    set c |
      c in j.dst.kids[x] && c in j.match0 && j.match0[c] in j.base.parent && j.base.parent[j.match0[c]] == Partner(j, x)
  }

  /** The source children of x's partner. */
  ghost function SourceKids(j: Problem, x: Node): seq<Node> {
    if x in j.match0 then Kids(j.base, j.match0[x]) else []
  }

  /** The children of x in kept are among those that have the same parent in both files; where order matters, no such
      children that stand in the same order in both files are many more; where it does not, they are all of them. */
  ghost predicate StaysAt(j: Problem, x: Node, kept: set<Node>)
    requires x in j.dst.kids
  {
    && kept <= SourceHome(j, x)
    && (Ordered(j, x) ==> NearMost(j, j.dst.kids[x], SourceKids(j, x), SourceHome(j, x), kept))
    && (!Ordered(j, x) ==> kept == SourceHome(j, x))
  }

  lemma HomeIsSource(j: Problem, t: Tree, done: set<Node>, x: Node)
    requires Sound(j) && Inv(j, t, done) && done <= j.dst.kids.Keys && x in j.dst.kids
    requires forall c :: c in j.dst.kids[x] ==> c !in done
    ensures HomeSet(j, t, x) == SourceHome(j, x)
  {
    forall c | c in j.dst.kids[x] ensures c in HomeSet(j, t, x) <==> c in SourceHome(j, x) {
      HomeIsSourceAt(j, t, done, x, c);
    }
  }

  lemma HomeIsSourceAt(j: Problem, t: Tree, done: set<Node>, x: Node, c: Node)
    requires Sound(j) && Inv(j, t, done) && done <= j.dst.kids.Keys
    requires x in j.dst.kids && c in j.dst.kids[x] && c !in done
    ensures Home(j, t, x, c) <==> c in SourceHome(j, x)
  {
    assert c in j.dst.parent && j.dst.parent[c] == x;
    if c in j.match0 {
      CrossesNow(j, t, done, c);
    } else if Home(j, t, x, c) {
      HomeMatched(j, t, done, x, c);
    }
  }

  /** Children in order in the source are in order in a list that has lost some others. */
  lemma SortedSource(j: Problem, cs: seq<Node>, base: seq<Node>, s: seq<Node>, some: set<Node>)
    requires NoDup(base) && Sublist(base, s) && Sorted(j, cs, base, some)
    requires forall c :: c in some ==> Partner(j, c) in s
    ensures Sorted(j, cs, s, some)
  {
    forall c, d | c in some && d in some && Before(cs, c, d) ensures Before(s, Partner(j, c), Partner(j, d)) {
      var a :| 0 <= a < |s| && s[a] == Partner(j, c);
      var b :| 0 <= b < |s| && s[b] == Partner(j, d);
      SublistOrder(base, s, a, b);
    }
  }

  lemma NearMostSource(j: Problem, t: Tree, done: set<Node>, x: Node, kept: set<Node>)
    requires Sound(j) && Linked(t) && x in j.dst.kids && HomeSet(j, t, x) == SourceHome(j, x) && Waiting(j, t, x)
    requires NearMost(j, j.dst.kids[x], Kids(t, Partner(j, x)), HomeSet(j, t, x), kept)
    ensures NearMost(j, j.dst.kids[x], SourceKids(j, x), SourceHome(j, x), kept)
  {
    var cs, s, base := j.dst.kids[x], Kids(t, Partner(j, x)), SourceKids(j, x);
    forall some | some <= SourceHome(j, x) && Sorted(j, cs, base, some)
      ensures 10 * |some| <= 13 * |kept| && (|some| <= 4 ==> |some| <= |kept|)
    {
      if x in j.match0 {
        HomeInKids(j, t, x);
        SortedSource(j, cs, base, s, some);
      } else {
        NothingHome(j, x);
        assert some == {};
      }
    }
  }

  /** Nothing is at home below a node that is not paired. */
  lemma NothingHome(j: Problem, x: Node)
    requires Sound(j) && x in j.dst.kids && x !in j.match0
    ensures SourceHome(j, x) == {}
  {
    forall c | c in j.match0 && j.match0[c] in j.base.parent ensures j.base.parent[j.match0[c]] != x {
      assert j.base.parent[j.match0[c]] in j.base.kids;
    }
  }

  /** What one visit moves: x's partner if its parent changes, and the children at home that are not kept. */
  ghost predicate VisitMoves(j: Problem, x: Node, before: seq<Action>, script: seq<Action>, kept: set<Node>)
    requires x in j.dst.kids
  {
    StaysAt(j, x, kept) && AddsMoves(before, script, CrossMove(j, x) + PartnerSet(j, SourceHome(j, x) - kept))
  }

  ghost predicate AlignMoves(j: Problem, x: Node, before: seq<Action>, script: seq<Action>, kept: set<Node>)
    requires x in j.dst.kids
  {
    StaysAt(j, x, kept) && AddsMoves(before, script, PartnerSet(j, SourceHome(j, x) - kept))
  }

  /** The moves of a container, in terms of the two files. */
  lemma FewIsStatic(j: Problem, t: Tree, done: set<Node>, aligned: set<Node>, marks: set<Node>, x: Node,
                    before: seq<Action>, script: seq<Action>)
    requires Sound(j) && Inv(j, t, done) && done <= j.dst.kids.Keys && OrderInv(j, t, aligned, marks)
    requires x in j.dst.kids && x !in aligned && forall c :: c in j.dst.kids[x] ==> c !in done
    requires FewMoves(j, t, x, before, script)
    ensures exists kept :: AlignMoves(j, x, before, script, kept)
  {
    HomeIsSource(j, t, done, x);
    assert Waiting(j, t, x);
    hide Sound, Inv, OrderInv, OrdersAt, SourceHome, HomeSet, NearMost, Waiting, Linked;
    var home := HomeSet(j, t, x);
    var kept :|
      && kept <= home && MovesAll(j, x, before, script, home - kept)
      && (Ordered(j, x) ==> NearMost(j, j.dst.kids[x], Kids(t, Partner(j, x)), home, kept))
      && (!Ordered(j, x) ==> kept == home);
    if Ordered(j, x) {
      InvLinked(j, t, done);
      NearMostSource(j, t, done, x, kept);
    }
    assert AlignMoves(j, x, before, script, kept);
  }

  lemma VisitedMoves(j: Problem, x: Node, before: seq<Action>, mid: seq<Action>, script: seq<Action>)
    requires x in j.dst.kids && AddsMoves(before, mid, CrossMove(j, x))
    requires exists kept :: AlignMoves(j, x, mid, script, kept)
    ensures exists kept :: VisitMoves(j, x, before, script, kept)
  {
    var kept :| AlignMoves(j, x, mid, script, kept);
    AddsTwice(before, mid, script, CrossMove(j, x), PartnerSet(j, SourceHome(j, x) - kept));
    assert VisitMoves(j, x, before, script, kept);
  }
}
