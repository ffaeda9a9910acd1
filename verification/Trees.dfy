/** Ordered labelled trees named by AST nodes, and what an edit script does to one. */
module Trees {
  import opened Lists

  /** Where a node stands in its file (the fields that the child alignment reads). */
  datatype Position = Position(startRow: nat, startCol: nat, endRow: nat, endByte: nat)

  /** The identity of an AST node together with the fields that never change.
      FakeRoot is the synthetic node above both roots; an action's nil parent is FakeRoot too. */
  datatype Node =
    | FakeRoot
    | Ast(id: nat, typ: string, text: string, unordered: bool, pos: Position)

  function Text(n: Node): string {
    if n.Ast? then n.text else ""
  }

  function Unordered(n: Node): bool {
    n.Ast? && n.unordered
  }

  datatype Tree = Tree(root: Node, parent: map<Node, Node>, kids: map<Node, seq<Node>>, labels: map<Node, string>)

  /** Parent and children agree, no list repeats a child, and every node but the root has a parent. */
  ghost predicate Linked(t: Tree) {
    && t.root in t.kids
    && t.labels.Keys == t.kids.Keys
    && t.parent.Keys == t.kids.Keys - {t.root}
    && (forall n {:trigger t.kids[n]} :: n in t.kids ==> NoDup(t.kids[n]))
    && (forall n, c {:trigger c in t.kids[n]} :: n in t.kids && c in t.kids[n] ==> c in t.parent && t.parent[c] == n)
    && (forall c {:trigger t.parent[c]} :: c in t.parent ==> t.parent[c] in t.kids && c in t.kids[t.parent[c]])
  }

  /** A depth that grows along every edge: no node lies below itself. */
  ghost predicate Ranked(t: Tree, depth: map<Node, nat>) {
    && t.kids.Keys <= depth.Keys
    && forall c {:trigger t.parent[c]} :: c in t.parent ==>
          t.parent[c] in depth && c in depth && depth[t.parent[c]] < depth[c]
  }

  ghost predicate IsTree(t: Tree) {
    Linked(t) && exists depth :: Ranked(t, depth)
  }

  /** A parsed file: nodes are AST nodes and carry their own labels. */
  ghost predicate IsAst(t: Tree) {
    && IsTree(t)
    && FakeRoot !in t.kids
    && forall n :: n in t.labels ==> t.labels[n] == Text(n)
  }

  /** The tree with the fake root above it, as the edit script generator works on it. */
  function UnderFakeRoot(t: Option<Tree>): Tree {
    match t
    case None => Tree(FakeRoot, map[], map[FakeRoot := []], map[FakeRoot := ""])
    case Some(t) => Tree(FakeRoot, t.parent[t.root := FakeRoot], t.kids[FakeRoot := [t.root]], t.labels[FakeRoot := ""])
  }

  lemma UnderFakeRootIsTree(t: Option<Tree>)
    requires t.Some? ==> IsAst(t.value)
    ensures IsTree(UnderFakeRoot(t))
  {
    var f := UnderFakeRoot(t);
    match t
    case None =>
      assert Ranked(f, map[FakeRoot := 0]);
    case Some(t) =>
      var depth :| Ranked(t, depth);
      var depth' := (map n | n in depth :: depth[n] + 1)[FakeRoot := 0];
      assert Ranked(f, depth');
  }

  // ---------------------------------------------------------------- editing

  /** The children of n, if n is in the tree. */
  function Kids(t: Tree, n: Node): seq<Node> {
    if n in t.kids then t.kids[n] else []
  }

  /** Takes n out of its parent's list. */
  function Detach(t: Tree, n: Node): Tree {
    if n !in t.parent || t.parent[n] !in t.kids then t
    else t.(parent := t.parent - {n}, kids := t.kids[t.parent[n] := Without(t.kids[t.parent[n]], n)])
  }

  /** Hangs n below p as its k-th child. */
  function Attach(t: Tree, p: Node, n: Node, k: nat): Tree {
    if p !in t.kids || k > |t.kids[p]| then t
    else t.(parent := t.parent[n := p], kids := t.kids[p := InsertAt(t.kids[p], k, n)])
  }

  function Fresh(t: Tree, n: Node, text: string): Tree {
    t.(kids := t.kids[n := []], labels := t.labels[n := text])
  }

  function Drop(t: Tree, n: Node): Tree {
    t.(kids := t.kids - {n}, labels := t.labels - {n})
  }

  datatype Action =
    | Insert(node: Node, parent: Node, position: nat)
    | Update(node: Node, value: string)
    | Move(node: Node, parent: Node, position: nat, subtree: bool)
    | Delete(node: Node)

  /** One action on a tree. It is refused (None) when it names a missing node, inserts a present one,
      points past the end of the child list, deletes a node that still has children,
      or leaves something that is not a tree, as a move below the moved node would. */
  ghost function Apply(t: Tree, a: Action): Option<Tree> {
    match a
    case Insert(n, p, k) =>
      if n in t.kids || p !in t.kids || k > |t.kids[p]| then None
      else Checked(Attach(Fresh(t, n, Text(n)), p, n, k))
    case Update(n, v) =>
      if n !in t.kids then None else Checked(t.(labels := t.labels[n := v]))
    case Move(n, p, k, _) =>
      if n !in t.parent || t.parent[n] !in t.kids || p !in t.kids || k > |Kids(Detach(t, n), p)| then None
      else Checked(Attach(Detach(t, n), p, n, k))
    case Delete(n) =>
      if n !in t.parent || t.parent[n] !in t.kids || n !in t.kids || t.kids[n] != [] then None
      else Checked(Drop(Detach(t, n), n))
  }

  ghost function Checked(t: Tree): Option<Tree> {
    if IsTree(t) then Some(t) else None
  }

  /** All the actions in order. */
  ghost function Replay(t: Tree, script: seq<Action>): Option<Tree> {
    if script == [] then Some(t)
    else
      match Replay(t, script[..|script|-1])
      case None => None
      case Some(u) => Apply(u, script[|script|-1])
  }

  lemma ReplayAppend(t: Tree, script: seq<Action>, a: Action)
    requires Replay(t, script).Some?
    ensures Replay(t, script + [a]) == Apply(Replay(t, script).value, a)
  {
    assert (script + [a])[..|script + [a]| - 1] == script;
  }

  /** A script that replays to a tree replays to a tree after each of its actions. */
  lemma {:induction false} ReplayPrefix(t: Tree, script: seq<Action>, k: nat)
    requires IsTree(t) && Replay(t, script).Some? && k <= |script|
    ensures Replay(t, script[..k]).Some? && IsTree(Replay(t, script[..k]).value)
    decreases |script|
  {
    if k == |script| {
      assert script[..k] == script;
    } else {
      var front := script[..|script|-1];
      ReplayPrefix(t, front, k);
      assert front[..k] == script[..k];
    }
  }

  // ---------------------------------------------------------------- what a script mentions

  function Inserted(script: seq<Action>): seq<Node> {
    if script == [] then []
    else
      var a := script[|script|-1];
      Inserted(script[..|script|-1]) + if a.Insert? then [a.node] else []
  }

  function Updated(script: seq<Action>): seq<Node> {
    if script == [] then []
    else
      var a := script[|script|-1];
      Updated(script[..|script|-1]) + if a.Update? then [a.node] else []
  }

  function Moved(script: seq<Action>): seq<Node> {
    if script == [] then []
    else
      var a := script[|script|-1];
      Moved(script[..|script|-1]) + if a.Move? then [a.node] else []
  }

  function Deleted(script: seq<Action>): seq<Node> {
    if script == [] then []
    else
      var a := script[|script|-1];
      Deleted(script[..|script|-1]) + if a.Delete? then [a.node] else []
  }

  lemma MentionAppend(script: seq<Action>, a: Action)
    ensures Inserted(script + [a]) == Inserted(script) + if a.Insert? then [a.node] else []
    ensures Updated(script + [a]) == Updated(script) + if a.Update? then [a.node] else []
    ensures Moved(script + [a]) == Moved(script) + if a.Move? then [a.node] else []
    ensures Deleted(script + [a]) == Deleted(script) + if a.Delete? then [a.node] else []
  {
    assert (script + [a])[..|script + [a]| - 1] == script;
  }

  // ---------------------------------------------------------------- structure lemmas

  /** Hanging n below p and nowhere else keeps parents and children in agreement. */
  lemma Relinked(t: Tree, r: Tree, n: Node, p: Node)
    requires Linked(t) && r.root == t.root && r.labels.Keys == r.kids.Keys
    requires n != t.root && p in t.kids
    requires r.parent == t.parent[n := p] && r.kids.Keys == t.kids.Keys + {n}
    requires forall m :: m in r.kids ==> NoDup(r.kids[m])
    requires forall m, c :: m in r.kids ==>
               (c in r.kids[m] <==> (c == n && m == p) || (c != n && m in t.kids && c in t.kids[m]))
    ensures Linked(r)
  {
    forall c | c in r.parent ensures r.parent[c] in r.kids && c in r.kids[r.parent[c]] {
      if c != n { assert c in t.kids[t.parent[c]]; }
    }
  }

  lemma DetachKids(t: Tree, n: Node)
    requires Linked(t) && n in t.parent
    ensures Detach(t, n).kids.Keys == t.kids.Keys
    ensures forall m :: m in t.kids ==> NoDup(Detach(t, n).kids[m])
    ensures forall m, c :: m in t.kids ==> (c in Detach(t, n).kids[m] <==> c != n && c in t.kids[m])
  {
    var v := t.parent[n];
    WithoutElements(t.kids[v], n);
    assert forall m :: m in t.kids && m != v ==> n !in t.kids[m];
    hide Before, NoDup, Without;
  }

  lemma AttachKids(u: Tree, n: Node, p: Node, k: nat)
    requires p in u.kids && k <= |u.kids[p]| && n !in u.kids[p]
    requires forall m :: m in u.kids ==> NoDup(u.kids[m])
    ensures var r := Attach(u, p, n, k);
            && r.kids.Keys == u.kids.Keys && (forall m :: m in u.kids ==> NoDup(r.kids[m]))
            && forall m, c :: m in u.kids ==> (c in r.kids[m] <==> (c == n && m == p) || c in u.kids[m])
  {
    InsertAtElements(u.kids[p], k, n);
    hide Before, NoDup, InsertAt;
  }

  lemma DetachAttachKids(t: Tree, n: Node, p: Node, k: nat)
    requires Linked(t) && n in t.parent && p in t.kids && k <= |Kids(Detach(t, n), p)|
    ensures var r := Attach(Detach(t, n), p, n, k);
            && (forall m :: m in r.kids ==> NoDup(r.kids[m]))
            && (forall m, c :: m in r.kids ==>
                 (c in r.kids[m] <==> (c == n && m == p) || (c != n && m in t.kids && c in t.kids[m])))
  {
    DetachKids(t, n);
    AttachKids(Detach(t, n), n, p, k);
    hide Linked, Attach, Detach, NoDup;
  }

  lemma DetachAttachShape(t: Tree, n: Node, p: Node, k: nat)
    requires n in t.parent && t.parent[n] in t.kids && p in t.kids && k <= |Kids(Detach(t, n), p)|
    ensures Attach(Detach(t, n), p, n, k).parent == t.parent[n := p]
    ensures Attach(Detach(t, n), p, n, k).kids.Keys == t.kids.Keys
  {
    var u := Detach(t, n);
    assert u.kids.Keys == t.kids.Keys;
    assert Attach(u, p, n, k).kids.Keys == t.kids.Keys;
    assert (t.parent - {n})[n := p] == t.parent[n := p];
  }

  lemma DetachAttachLinked(t: Tree, n: Node, p: Node, k: nat)
    requires Linked(t) && n in t.parent && p in t.kids && k <= |Kids(Detach(t, n), p)|
    ensures Linked(Attach(Detach(t, n), p, n, k))
    ensures Attach(Detach(t, n), p, n, k).parent == t.parent[n := p]
    ensures Attach(Detach(t, n), p, n, k).kids.Keys == t.kids.Keys
  {
    var r := Attach(Detach(t, n), p, n, k);
    DetachAttachShape(t, n, p, k);
    DetachAttachKids(t, n, p, k);
    assert n in t.kids && n != t.root;
    Relinked(t, r, n, p);
  }

  lemma FreshAttachLinked(t: Tree, n: Node, p: Node, k: nat, text: string)
    requires Linked(t) && n !in t.kids && p in t.kids && k <= |t.kids[p]|
    ensures Linked(Attach(Fresh(t, n, text), p, n, k))
    ensures Attach(Fresh(t, n, text), p, n, k).parent == t.parent[n := p]
    ensures Attach(Fresh(t, n, text), p, n, k).kids.Keys == t.kids.Keys + {n}
  {
    var r := Attach(Fresh(t, n, text), p, n, k);
    assert forall m :: m in t.kids && n in t.kids[m] ==> n in t.parent;
    InsertAtElements(t.kids[p], k, n);
    forall m | m in r.kids
      ensures NoDup(r.kids[m])
      ensures forall c :: c in r.kids[m] <==> (c == n && m == p) || (c != n && m in t.kids && c in t.kids[m])
    {
      if m == n { assert r.kids[m] == []; }
      else if m != p { assert r.kids[m] == t.kids[m]; }
    }
    Relinked(t, r, n, p);
  }

  lemma DropLeafIsTree(t: Tree, n: Node)
    requires IsTree(t) && n in t.parent && t.kids[n] == []
    ensures IsTree(Drop(Detach(t, n), n))
    ensures Drop(Detach(t, n), n).parent == t.parent - {n}
    ensures Drop(Detach(t, n), n).kids.Keys == t.kids.Keys - {n}
    ensures forall m, c :: m in t.kids && m != n ==>
              (c in Drop(Detach(t, n), n).kids[m] <==> c != n && c in t.kids[m])
    ensures forall m, a, b :: m in t.kids && m != n && a != n && b != n && Before(t.kids[m], a, b) ==>
              Before(Drop(Detach(t, n), n).kids[m], a, b)
  {
    var v := t.parent[n];
    var r := Drop(Detach(t, n), n);
    assert n in t.kids[v];
    WithoutElements(t.kids[v], n);
    hide Before, NoDup, Without;
    forall m | m in r.kids
      ensures NoDup(r.kids[m])
      ensures forall c :: c in r.kids[m] <==> c != n && c in t.kids[m]
      ensures forall a, b :: a != n && b != n && Before(t.kids[m], a, b) ==> Before(r.kids[m], a, b)
    {
      if m != v { assert n !in t.kids[m]; assert r.kids[m] == t.kids[m]; }
    }
    DroppedIsTree(t, r, n);
  }

  lemma DroppedIsTree(t: Tree, r: Tree, n: Node)
    requires IsTree(t) && n in t.parent && t.kids[n] == []
    requires r.root == t.root && r.labels.Keys == r.kids.Keys
    requires r.parent == t.parent - {n} && r.kids.Keys == t.kids.Keys - {n}
    requires forall m :: m in r.kids ==> NoDup(r.kids[m])
    requires forall m, c :: m in r.kids ==> (c in r.kids[m] <==> c != n && c in t.kids[m])
    ensures IsTree(r)
  {
    forall c | c in r.parent ensures r.parent[c] in r.kids && c in r.kids[r.parent[c]] {
      assert c in t.kids[t.parent[c]];
    }
    var depth :| Ranked(t, depth);
    assert Ranked(r, depth);
  }

  // ---------------------------------------------------------------- subtrees

  /** n is a or lies below a. */
  ghost predicate Under(t: Tree, depth: map<Node, nat>, a: Node, n: Node)
    requires Ranked(t, depth) && n in depth
    decreases depth[n]
  {
    n == a || (n in t.parent && Under(t, depth, a, t.parent[n]))
  }

  lemma {:induction false} UnderDepth(t: Tree, depth: map<Node, nat>, a: Node, n: Node)
    requires Ranked(t, depth) && n in depth && Under(t, depth, a, n)
    ensures a in depth && depth[a] <= depth[n] && (a != n ==> depth[a] < depth[n])
    decreases depth[n]
  {
    if n != a { UnderDepth(t, depth, a, t.parent[n]); }
  }

  /** The subtrees of two different children of one node share nothing. */
  lemma {:induction false} SiblingsApart(t: Tree, depth: map<Node, nat>, a: Node, b: Node, n: Node)
    requires Ranked(t, depth) && n in depth && a in t.parent && b in t.parent
    requires t.parent[a] == t.parent[b]
    requires Under(t, depth, a, n) && Under(t, depth, b, n)
    ensures a == b
    decreases depth[n]
  {
    if a != b {
      if n == a {
        UnderDepth(t, depth, b, t.parent[a]);
        assert false;
      } else if n == b {
        UnderDepth(t, depth, a, t.parent[b]);
        assert false;
      } else {
        SiblingsApart(t, depth, a, b, t.parent[n]);
      }
    }
  }

  /** A node below a is a itself or lies below a child of a. */
  lemma {:induction false} UnderChild(t: Tree, depth: map<Node, nat>, a: Node, n: Node) returns (c: Node)
    requires Linked(t) && Ranked(t, depth) && n in t.kids && Under(t, depth, a, n) && n != a
    ensures a in t.kids && c in t.kids[a] && c in t.parent && Under(t, depth, c, n)
    decreases depth[n]
  {
    var p := t.parent[n];
    if p == a {
      c := n;
    } else {
      c := UnderChild(t, depth, a, p);
    }
  }

  lemma {:induction false} UnderStep(t: Tree, depth: map<Node, nat>, a: Node, c: Node, n: Node)
    requires Linked(t) && Ranked(t, depth) && n in depth
    requires a in t.kids && c in t.kids[a] && Under(t, depth, c, n)
    ensures Under(t, depth, a, n)
    decreases depth[n]
  {
    if n == c {
      assert Under(t, depth, a, t.parent[c]);
    } else {
      UnderStep(t, depth, a, c, t.parent[n]);
    }
  }

  lemma {:induction false} AllUnderRoot(t: Tree, depth: map<Node, nat>, n: Node)
    requires Linked(t) && Ranked(t, depth) && n in t.kids
    ensures Under(t, depth, t.root, n)
    decreases depth[n]
  {
    if n != t.root { AllUnderRoot(t, depth, t.parent[n]); }
  }
}
