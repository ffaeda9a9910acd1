/** How few nodes a whole script moves: nearly as few as any script that leads to the same target. */
module MoveBounds {
  import opened Lists
  import opened Trees
  import opened ScriptSpec
  import opened AlignSteps
  import opened MoveCounts

  /** The paired nodes below the root of the target. */
  ghost function Inner(j: Problem): set<Node> {
    set c | c in j.match0 && c in j.dst.parent
  }

  /** n is moved or deleted by the script. */
  ghost predicate Touched(script: seq<Action>, n: Node) {
    n in Moved(script) || n in Deleted(script)
  }

  /** The paired nodes that the script leaves where they hang. */
  ghost function Untouched(j: Problem, script: seq<Action>): set<Node> {
    set c | c in Inner(j) && !Touched(script, Partner(j, c))
  }

  ghost function Among(j: Problem, some: set<Node>, x: Node): set<Node>
    requires x in j.dst.kids
  {
    some * SetOf(j.dst.kids[x])
  }

  /** In every container nearly as many children stay as could. */
  ghost predicate KeepsMost(j: Problem, stay: set<Node>) {
    forall x {:trigger j.dst.kids[x]} :: x in j.dst.kids ==> StaysAt(j, x, Among(j, stay, x))
  }

  // ---------------------------------------------------------------- visit by visit

  /** c's partner has been moved: by c's own visit if its parent changes, else by the visit of its parent. */
  ghost predicate IsMoved(j: Problem, done: set<Node>, stay: set<Node>, c: Node) {
    && c in j.match0 && c in j.dst.parent
    && if Crosses(j, c) then c in done else j.dst.parent[c] in done && c !in stay
  }

  ghost predicate MovedPartner(j: Problem, done: set<Node>, stay: set<Node>, n: Node) {
    exists c :: IsMoved(j, done, stay, c) && Partner(j, c) == n
  }

  /** What the visits so far have moved, where stay are the children that their containers have kept. */
  ghost predicate MovesSoFar(j: Problem, done: set<Node>, stay: set<Node>, script: seq<Action>) {
    && (forall c {:trigger c in stay} :: c in stay ==> c in j.dst.parent && j.dst.parent[c] in done)
    && (forall x {:trigger j.dst.kids[x]} :: x in done && x in j.dst.kids ==> StaysAt(j, x, Among(j, stay, x)))
    && (forall n :: n in Moved(script) <==> MovedPartner(j, done, stay, n))
  }

  lemma MovesStart(j: Problem)
    ensures MovesSoFar(j, {}, {}, [])
  {
  }

  /** A paired child of x crosses into x or is at home there. */
  lemma CrossesOrHome(j: Problem, x: Node, c: Node)
    requires Sound(j) && x in j.dst.kids
    ensures c in SourceHome(j, x) <==>
              c in j.match0 && c in j.dst.parent && j.dst.parent[c] == x && !Crosses(j, c)
  {
    assert c in j.match0 ==> j.match0[c] in j.base.parent;
    assert c in j.dst.parent && j.dst.parent[c] == x <==> c in j.dst.kids[x];
  }

  lemma MovedStep(j: Problem, done: set<Node>, stay: set<Node>, x: Node, kept: set<Node>, c: Node)
    requires x in j.dst.kids && x !in done && kept <= SourceHome(j, x)
    requires c in SourceHome(j, x) <==>
               c in j.match0 && c in j.dst.parent && j.dst.parent[c] == x && !Crosses(j, c)
    requires c in stay ==> c in j.dst.parent && j.dst.parent[c] in done
    ensures IsMoved(j, done + {x}, stay + kept, c)
       <==> IsMoved(j, done, stay, c) || (c == x && Crosses(j, x)) || c in SourceHome(j, x) - kept
  {
    hide SourceHome;
  }

  lemma MovedPartnerStep(j: Problem, done: set<Node>, stay: set<Node>, x: Node, kept: set<Node>, n: Node)
    requires Sound(j) && x in j.dst.kids && x !in done && kept <= SourceHome(j, x)
    requires forall c {:trigger c in stay} :: c in stay ==> c in j.dst.parent && j.dst.parent[c] in done
    ensures MovedPartner(j, done + {x}, stay + kept, n)
       <==> MovedPartner(j, done, stay, n) || n in CrossMove(j, x) + PartnerSet(j, SourceHome(j, x) - kept)
  {
    hide Sound, SourceHome, Crosses, IsMoved;
    forall c
      ensures IsMoved(j, done + {x}, stay + kept, c)
         <==> IsMoved(j, done, stay, c) || (c == x && Crosses(j, x)) || c in SourceHome(j, x) - kept
    {
      CrossesOrHome(j, x, c);
      MovedStep(j, done, stay, x, kept, c);
    }
    if MovedPartner(j, done, stay, n) {
      var c :| IsMoved(j, done, stay, c) && Partner(j, c) == n;
      assert IsMoved(j, done + {x}, stay + kept, c);
    }
    if n in CrossMove(j, x) {
      assert IsMoved(j, done + {x}, stay + kept, x);
    }
    if n in PartnerSet(j, SourceHome(j, x) - kept) {
      var c :| c in SourceHome(j, x) - kept && Partner(j, c) == n;
      assert IsMoved(j, done + {x}, stay + kept, c);
    }
  }

  lemma AmongStep(j: Problem, done: set<Node>, stay: set<Node>, x: Node, kept: set<Node>, y: Node)
    requires Sound(j) && x in j.dst.kids && x !in done && kept <= SourceHome(j, x)
    requires forall c {:trigger c in stay} :: c in stay ==> c in j.dst.parent && j.dst.parent[c] in done
    requires y in j.dst.kids && (y in done || y == x)
    ensures Among(j, stay + kept, y) == if y == x then kept else Among(j, stay, y)
  {
  }

  lemma MovesVisit(j: Problem, done: set<Node>, stay: set<Node>, x: Node, before: seq<Action>, script: seq<Action>,
                   kept: set<Node>)
    requires Sound(j) && x in j.dst.kids && x !in done
    requires MovesSoFar(j, done, stay, before) && VisitMoves(j, x, before, script, kept)
    ensures MovesSoFar(j, done + {x}, stay + kept, script)
  {
    var done', stay' := done + {x}, stay + kept;
    forall n ensures n in Moved(script) <==> MovedPartner(j, done', stay', n) {
      MovedPartnerStep(j, done, stay, x, kept, n);
    }
    forall y | y in done' && y in j.dst.kids ensures StaysAt(j, y, Among(j, stay', y)) {
      AmongStep(j, done, stay, x, kept, y);
    }
    forall c | c in stay' ensures c in j.dst.parent && j.dst.parent[c] in done' {
      if c in kept { CrossesOrHome(j, x, c); }
    }
  }

  /** When everything is visited and no paired node is deleted, the kept children are the untouched ones. */
  lemma StayIsUntouched(j: Problem, stay: set<Node>, before: seq<Action>, script: seq<Action>)
    requires Sound(j) && MovesSoFar(j, j.dst.kids.Keys, stay, before) && Moved(script) == Moved(before)
    requires forall n :: n in Deleted(script) ==> Doomed(j, n)
    ensures Untouched(j, script) == stay && KeepsMost(j, Untouched(j, script))
  {
    forall c ensures c in Untouched(j, script) <==> c in stay {
      if c in Inner(j) || c in stay { StayAtEnd(j, stay, before, script, c); }
    }
  }

  lemma StayInner(j: Problem, stay: set<Node>, before: seq<Action>, c: Node)
    requires Sound(j) && MovesSoFar(j, j.dst.kids.Keys, stay, before) && c in stay
    ensures c in Inner(j) && !Crosses(j, c)
  {
    var x := j.dst.parent[c];
    assert x in j.dst.kids && c in Among(j, stay, x);
    assert c in SourceHome(j, x);
    CrossesOrHome(j, x, c);
  }

  lemma MovedUnlessStay(j: Problem, stay: set<Node>, before: seq<Action>, c: Node)
    requires Sound(j) && MovesSoFar(j, j.dst.kids.Keys, stay, before)
    requires c in Inner(j) && (c in stay ==> !Crosses(j, c))
    ensures Partner(j, c) in Moved(before) <==> c !in stay
  {
    var all := j.dst.kids.Keys;
    assert c in all && j.dst.parent[c] in all;
    assert IsMoved(j, all, stay, c) <==> c !in stay;
    if MovedPartner(j, all, stay, Partner(j, c)) {
      var d :| IsMoved(j, all, stay, d) && Partner(j, d) == Partner(j, c);
      PartnerInjective(j, c, d);
    }
  }

  lemma NotDoomed(j: Problem, c: Node)
    requires Sound(j) && c in Inner(j)
    ensures !Doomed(j, Partner(j, c))
  {
    assert Placed(j, j.dst.kids.Keys, Partner(j, c));
  }

  lemma StayAtEnd(j: Problem, stay: set<Node>, before: seq<Action>, script: seq<Action>, c: Node)
    requires Sound(j) && MovesSoFar(j, j.dst.kids.Keys, stay, before) && Moved(script) == Moved(before)
    requires forall n :: n in Deleted(script) ==> Doomed(j, n)
    requires c in Inner(j) || c in stay
    ensures c in Untouched(j, script) <==> c in stay
  {
    if c in stay { StayInner(j, stay, before, c); }
    NotDoomed(j, c);
    MovedUnlessStay(j, stay, before, c);
    hide Sound, MovesSoFar, Inner, Crosses;
  }

  // ---------------------------------------------------------------- what any script leaves alone

  /** Nodes that the script does not touch keep their parent and their order among themselves. */
  ghost predicate Undisturbed(t: Tree, r: Tree, script: seq<Action>) {
    && (forall n {:trigger r.parent[n]} {:trigger n in r.parent} :: n in t.parent && !Touched(script, n) ==>
          n in r.parent && r.parent[n] == t.parent[n])
    && (forall p, a, b {:trigger Before(Kids(r, p), a, b)} :: !Touched(script, a) && !Touched(script, b) ==>
          Before(Kids(t, p), a, b) ==> Before(Kids(r, p), a, b))
  }

  lemma InsertUndisturbs(t: Tree, r: Tree, n: Node, q: Node, k: nat)
    requires Linked(t) && Apply(t, Insert(n, q, k)) == Some(r)
    ensures forall m :: m in t.parent ==> m in r.parent && r.parent[m] == t.parent[m]
    ensures forall p, a, b :: Before(Kids(t, p), a, b) ==> Before(Kids(r, p), a, b)
  {
    InsertAtElements(t.kids[q], k, n);
    assert n !in t.parent;
    hide Before, InsertAt, Linked;
  }

  lemma DeleteUndisturbs(t: Tree, r: Tree, n: Node)
    requires IsTree(t) && Apply(t, Delete(n)) == Some(r)
    ensures forall m :: m in t.parent && m != n ==> m in r.parent && r.parent[m] == t.parent[m]
    ensures forall p, a, b :: a != n && b != n && Before(Kids(t, p), a, b) ==> Before(Kids(r, p), a, b)
  {
    DropLeafIsTree(t, n);
  }

  lemma MoveUndisturbs(t: Tree, r: Tree, n: Node, q: Node, k: nat, s: bool)
    requires Linked(t) && Apply(t, Move(n, q, k, s)) == Some(r)
    ensures forall m :: m in t.parent && m != n ==> m in r.parent && r.parent[m] == t.parent[m]
    ensures forall p, a, b :: a != n && b != n && Before(Kids(t, p), a, b) ==> Before(Kids(r, p), a, b)
  {
    DetachSpares(t, n);
    AttachSpares(Detach(t, n), q, n, k);
    hide Before, Linked, Detach, Attach, Kids;
  }

  lemma DetachSpares(t: Tree, n: Node)
    requires Linked(t) && n in t.parent
    ensures forall m :: m in t.parent && m != n ==> m in Detach(t, n).parent && Detach(t, n).parent[m] == t.parent[m]
    ensures forall p, a, b :: a != n && b != n && Before(Kids(t, p), a, b) ==> Before(Kids(Detach(t, n), p), a, b)
  {
    WithoutElements(t.kids[t.parent[n]], n);
    hide Before, Without;
  }

  lemma AttachSpares(u: Tree, q: Node, n: Node, k: nat)
    requires q in u.kids && k <= |u.kids[q]|
    ensures forall m :: m in u.parent && m != n ==>
              m in Attach(u, q, n, k).parent && Attach(u, q, n, k).parent[m] == u.parent[m]
    ensures forall p, a, b :: Before(Kids(u, p), a, b) ==> Before(Kids(Attach(u, q, n, k), p), a, b)
  {
    InsertAtElements(u.kids[q], k, n);
    hide Before, InsertAt;
  }

  /** Nodes that the action does not move or delete keep their parent and their order. */
  ghost predicate Spares(t: Tree, r: Tree, a: Action) {
    && (forall n {:trigger r.parent[n]} {:trigger n in r.parent} ::
          n in t.parent && !(a.node == n && (a.Move? || a.Delete?)) ==> n in r.parent && r.parent[n] == t.parent[n])
    && (forall p, x, y {:trigger Before(Kids(r, p), x, y)} ::
          !(a.node == x && (a.Move? || a.Delete?)) && !(a.node == y && (a.Move? || a.Delete?)) ==>
          Before(Kids(t, p), x, y) ==> Before(Kids(r, p), x, y))
  }

  lemma ApplySpares(t: Tree, r: Tree, a: Action)
    requires IsTree(t) && Apply(t, a) == Some(r)
    ensures Spares(t, r, a)
  {
    hide Before, Linked;
    match a {
      case Insert(n, q, k) => InsertUndisturbs(t, r, n, q, k);
      case Update(n, v) => assert forall p :: Kids(r, p) == Kids(t, p);
      case Move(n, q, k, s) => MoveUndisturbs(t, r, n, q, k, s);
      case Delete(n) => DeleteUndisturbs(t, r, n);
    }
  }

  lemma StepUndisturbs(t0: Tree, t: Tree, r: Tree, script: seq<Action>, a: Action)
    requires Undisturbed(t0, t, script) && Spares(t, r, a)
    ensures Undisturbed(t0, r, script + [a])
  {
    MentionAppend(script, a);
    assert forall n :: Touched(script + [a], n) <==> Touched(script, n) || ((a.Move? || a.Delete?) && n == a.node);
    hide Touched, Before, Kids;
    forall p, x, y | !Touched(script + [a], x) && !Touched(script + [a], y) && Before(Kids(t0, p), x, y)
      ensures Before(Kids(r, p), x, y)
    {
      assert Before(Kids(t, p), x, y);
    }
  }

  lemma {:induction false} ReplayUndisturbs(t: Tree, script: seq<Action>)
    requires IsTree(t) && Replay(t, script).Some?
    ensures Undisturbed(t, Replay(t, script).value, script) && IsTree(Replay(t, script).value)
    decreases |script|
  {
    hide Touched, Before, Linked, IsTree, Spares, Apply;
    if script != [] {
      var front, a := script[..|script| - 1], script[|script| - 1];
      ReplayUndisturbs(t, front);
      assert script == front + [a];
      hide Undisturbed;
      var u, r := Replay(t, front).value, Replay(t, script).value;
      ApplySpares(u, r, a);
      StepUndisturbs(t, u, r, front, a);
      ApplyGivesTree(u, a);
    }
  }

  lemma ApplyGivesTree(t: Tree, a: Action)
    requires Apply(t, a).Some?
    ensures IsTree(Apply(t, a).value)
  {
  }

  // ---------------------------------------------------------------- compared with any other script

  /** Children that a script to the target leaves alone have the same parent in both files. */
  lemma UntouchedHome(j: Problem, other: seq<Action>, r: Tree, x: Node)
    requires Sound(j) && Undisturbed(j.base, r, other) && Arrives(j, r) && x in j.dst.kids
    ensures Among(j, Untouched(j, other), x) <= SourceHome(j, x)
  {
    forall c | c in Among(j, Untouched(j, other), x) ensures c in SourceHome(j, x) {
      assert c in j.dst.kids[x] && j.dst.parent[c] == x;
      assert r.parent[Partner(j, c)] == Up(j, c);
      assert j.match0[c] in j.base.parent;
    }
  }

  /** Two lists without repetition that do not disagree about b before a agree about a before b. */
  lemma SameWay(base: seq<Node>, list: seq<Node>, a: Node, b: Node)
    requires NoDup(base) && NoDup(list) && a in base && b in base && a != b
    requires Before(list, a, b) && (Before(base, b, a) ==> Before(list, b, a))
    ensures Before(base, a, b)
  {
    BeforeIndex(base, a, b);
    BeforeIndex(base, b, a);
    BeforeIndex(list, a, b);
    BeforeIndex(list, b, a);
  }

  lemma PartnersBefore(j: Problem, cs: seq<Node>, c: Node, d: Node)
    requires NoDup(cs) && Before(cs, c, d)
    ensures c != d && Before(Partners(j, cs), Partner(j, c), Partner(j, d))
  {
    var i, k :| 0 <= i < k < |cs| && cs[i] == c && cs[k] == d;
    assert Partners(j, cs)[i] == Partner(j, c) && Partners(j, cs)[k] == Partner(j, d);
  }

  /** The children of x's partner at the end, where order matters. */
  lemma EndList(j: Problem, r: Tree, x: Node)
    requires Arrives(j, r) && x in j.dst.kids && Ordered(j, x)
    ensures Kids(r, Partner(j, x)) == Partners(j, j.dst.kids[x]) && NoDup(Kids(r, Partner(j, x)))
  {
  }

  /** The partners of children at home are source children of x's partner. */
  lemma HomeListed(j: Problem, x: Node, c: Node)
    requires Sound(j) && x in j.dst.kids && c in SourceHome(j, x)
    ensures SourceKids(j, x) == Kids(j.base, Partner(j, x)) && NoDup(SourceKids(j, x))
    ensures Partner(j, c) in SourceKids(j, x) && NoDup(j.dst.kids[x]) && c in j.dst.kids
  {
    if x !in j.match0 { NothingHome(j, x); }
    assert j.base.parent[j.match0[c]] in j.base.kids;
    assert c in j.dst.kids[x];
  }

  lemma UntouchedPair(j: Problem, other: seq<Action>, r: Tree, x: Node, c: Node, d: Node)
    requires Sound(j) && Undisturbed(j.base, r, other) && Arrives(j, r) && x in j.dst.kids && Ordered(j, x)
    requires c in SourceHome(j, x) && d in SourceHome(j, x)
    requires !Touched(other, Partner(j, c)) && !Touched(other, Partner(j, d))
    requires Before(j.dst.kids[x], c, d)
    ensures Before(SourceKids(j, x), Partner(j, c), Partner(j, d))
  {
    EndList(j, r, x);
    HomeListed(j, x, c);
    HomeListed(j, x, d);
    PartnersBefore(j, j.dst.kids[x], c, d);
    if Partner(j, c) == Partner(j, d) { PartnerInjective(j, c, d); }
    hide Sound, Arrives, SourceHome, SourceKids, Before, NoDup, Partners, Partner, Ordered, Kids, Touched;
    SameWay(SourceKids(j, x), Kids(r, Partner(j, x)), Partner(j, c), Partner(j, d));
  }

  lemma AmongUntouched(j: Problem, other: seq<Action>, x: Node, c: Node)
    requires x in j.dst.kids && c in Among(j, Untouched(j, other), x)
    ensures !Touched(other, Partner(j, c))
  {
  }

  lemma UntouchedSorted(j: Problem, other: seq<Action>, r: Tree, x: Node)
    requires Sound(j) && Undisturbed(j.base, r, other) && Arrives(j, r) && x in j.dst.kids && Ordered(j, x)
    ensures Sorted(j, j.dst.kids[x], SourceKids(j, x), Among(j, Untouched(j, other), x))
  {
    UntouchedHome(j, other, r, x);
    var some := Among(j, Untouched(j, other), x);
    hide Sound, Undisturbed, Arrives, Untouched, Among, SourceHome, Before;
    forall c, d | c in some && d in some && Before(j.dst.kids[x], c, d)
      ensures Before(SourceKids(j, x), Partner(j, c), Partner(j, d))
    {
      AmongUntouched(j, other, x, c);
      AmongUntouched(j, other, x, d);
      UntouchedPair(j, other, r, x, c, d);
    }
  }

  /** Container by container, a script that keeps nearly the most leaves nearly as many alone as any other. */
  lemma FewestAt(j: Problem, stay: set<Node>, other: seq<Action>, r: Tree, x: Node)
    requires Sound(j) && Undisturbed(j.base, r, other) && Arrives(j, r) && x in j.dst.kids
    requires StaysAt(j, x, Among(j, stay, x))
    ensures var some, kept := Among(j, Untouched(j, other), x), Among(j, stay, x);
            10 * |some| <= 13 * |kept| && (|some| <= 4 || !Ordered(j, x) ==> |some| <= |kept|)
  {
    UntouchedHome(j, other, r, x);
    if Ordered(j, x) {
      UntouchedSorted(j, other, r, x);
    } else {
      SetSize(Among(j, Untouched(j, other), x), Among(j, stay, x));
    }
  }

  /** The nodes of some below the containers in xs. */
  ghost function BelowAny(j: Problem, some: set<Node>, xs: set<Node>): set<Node> {
    set c | c in some && c in j.dst.parent && j.dst.parent[c] in xs
  }

  lemma BelowMore(j: Problem, some: set<Node>, xs: set<Node>, x: Node)
    requires Linked(j.dst) && x in xs && xs <= j.dst.kids.Keys
    ensures |BelowAny(j, some, xs)| == |BelowAny(j, some, xs - {x})| + |Among(j, some, x)|
  {
    var rest, here := BelowAny(j, some, xs - {x}), Among(j, some, x);
    assert BelowAny(j, some, xs) == rest + here;
    assert rest !! here;
  }

  /** What holds container by container holds for all of them together. */
  lemma {:induction false} AddUp(j: Problem, some: set<Node>, stay: set<Node>, xs: set<Node>, a: nat, b: nat)
    requires Linked(j.dst) && xs <= j.dst.kids.Keys
    requires forall x {:trigger j.dst.kids[x]} :: x in xs ==> a * |Among(j, some, x)| <= b * |Among(j, stay, x)|
    ensures a * |BelowAny(j, some, xs)| <= b * |BelowAny(j, stay, xs)|
    decreases xs
  {
    hide Linked, Among;
    if xs == {} {
      assert BelowAny(j, some, xs) == {} && BelowAny(j, stay, xs) == {};
    } else {
      var x :| x in xs;
      AddUp(j, some, stay, xs - {x}, a, b);
      BelowMore(j, some, xs, x);
      BelowMore(j, stay, xs, x);
      hide BelowAny;
      assert x in j.dst.kids;
      AddOne(a, b, |BelowAny(j, some, xs - {x})|, |Among(j, some, x)|, |BelowAny(j, stay, xs - {x})|,
             |Among(j, stay, x)|);
    }
  }

  lemma AddOne(a: nat, b: nat, m: nat, m': nat, n: nat, n': nat)
    requires a * m <= b * n && a * m' <= b * n'
    ensures a * (m + m') <= b * (n + n')
  {
  }

  lemma BelowAll(j: Problem, some: set<Node>)
    requires Linked(j.dst) && some <= j.dst.parent.Keys
    ensures BelowAny(j, some, j.dst.kids.Keys) == some
  {
  }

  /** No ordered container has more than four children that the script leaves alone. */
  ghost predicate FewEach(j: Problem, some: set<Node>) {
    forall x {:trigger j.dst.kids[x]} :: x in j.dst.kids && Ordered(j, x) ==> |Among(j, some, x)| <= 4
  }

  /** Whatever other script leads to the target, the nodes it leaves alone are at most thirteen for every ten that
      stay here, and no more than those if they are at most four in each ordered container. */
  lemma NearlyFewest(j: Problem, script: seq<Action>, other: seq<Action>)
    requires Sound(j) && KeepsMost(j, Untouched(j, script))
    requires Replay(j.base, other).Some? && Arrives(j, Replay(j.base, other).value)
    ensures 10 * |Untouched(j, other)| <= 13 * |Untouched(j, script)|
    ensures FewEach(j, Untouched(j, other)) ==> |Untouched(j, other)| <= |Untouched(j, script)|
  {
    var stay, some, all, r := Untouched(j, script), Untouched(j, other), j.dst.kids.Keys, Replay(j.base, other).value;
    ReplayUndisturbs(j.base, other);
    forall x | x in j.dst.kids
      ensures 10 * |Among(j, some, x)| <= 13 * |Among(j, stay, x)|
      ensures FewEach(j, some) ==> 1 * |Among(j, some, x)| <= 1 * |Among(j, stay, x)|
    {
      FewestAt(j, stay, other, r, x);
    }
    BelowAll(j, some);
    BelowAll(j, stay);
    AddUp(j, some, stay, all, 10, 13);
    if FewEach(j, some) { AddUp(j, some, stay, all, 1, 1); }
  }

  // ---------------------------------------------------------------- the number of moves

  lemma PartnerApart(j: Problem, some: set<Node>, c: Node)
    requires Sound(j) && some <= j.dst.kids.Keys && c in j.dst.kids && c !in some
    ensures Partner(j, c) !in PartnerSet(j, some)
  {
    if Partner(j, c) in PartnerSet(j, some) {
      var d :| d in some && Partner(j, d) == Partner(j, c);
      PartnerInjective(j, c, d);
    }
  }

  lemma PartnersMore(j: Problem, some: set<Node>, c: Node)
    requires c in some
    ensures PartnerSet(j, some) == PartnerSet(j, some - {c}) + {Partner(j, c)}
  {
    hide Partner;
  }

  lemma {:induction false} PartnersCount(j: Problem, some: set<Node>)
    requires Sound(j) && some <= j.dst.kids.Keys
    ensures |PartnerSet(j, some)| == |some|
    decreases some
  {
    hide Sound, Partner;
    if some != {} {
      var c :| c in some;
      PartnersCount(j, some - {c});
      PartnerApart(j, some - {c}, c);
      PartnersMore(j, some, c);
      hide PartnerSet;
    } else {
      assert PartnerSet(j, some) == {};
    }
  }

  /** A script that moves only paired nodes, none twice, and deletes none of them moves as many as it does not leave
      alone. */
  lemma MovesCounted(j: Problem, script: seq<Action>)
    requires Sound(j) && NoDup(Moved(script))
    requires forall n :: n in Moved(script) ==> exists c :: c in Inner(j) && Partner(j, c) == n
    requires forall n :: n in Deleted(script) ==> Doomed(j, n)
    ensures |Moved(script)| == |Inner(j) - Untouched(j, script)|
  {
    var some := Inner(j) - Untouched(j, script);
    forall c | c in Inner(j) ensures Partner(j, c) !in Deleted(script) { NotDoomed(j, c); }
    assert SetOf(Moved(script)) == PartnerSet(j, some) by {
      forall n ensures n in SetOf(Moved(script)) <==> n in PartnerSet(j, some) {
        if n in Moved(script) {
          var c :| c in Inner(j) && Partner(j, c) == n;
          assert c in some;
        }
      }
    }
    NoDupLength(Moved(script));
    PartnersCount(j, some);
  }

  lemma {:induction false} ListSize(ns: seq<Node>)
    ensures |SetOf(ns)| <= |ns|
  {
    if ns == [] {
      assert SetOf(ns) == {};
    } else {
      ListSize(ns[1..]);
      assert SetOf(ns) == SetOf(ns[1..]) + {ns[0]};
    }
  }

  /** A script that deletes no paired node moves all those that it does not leave alone. */
  lemma MovesAtLeast(j: Problem, other: seq<Action>)
    requires Sound(j) && forall c :: c in Inner(j) ==> Partner(j, c) !in Deleted(other)
    ensures |Inner(j) - Untouched(j, other)| <= |Moved(other)|
  {
    var some := Inner(j) - Untouched(j, other);
    forall n | n in PartnerSet(j, some) ensures n in SetOf(Moved(other)) {
      var c :| c in some && Partner(j, c) == n;
      assert Touched(other, n);
    }
    PartnersCount(j, some);
    SetSize(PartnerSet(j, some), SetOf(Moved(other)));
    ListSize(Moved(other));
  }
}
