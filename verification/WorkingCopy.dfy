/** The mutable copy of the source tree, and that it always represents an ordered tree value. */
module WorkingCopy {
  import opened Lists
  import opened Trees

  class CNode {
    const orig: Node
    var text: string
    var parent: CNode?
    var children: seq<CNode>

    constructor (orig: Node, text: string, parent: CNode?)
      ensures this.orig == orig && this.text == text && this.parent == parent && children == []
    {
      this.orig, this.text, this.parent, this.children := orig, text, parent, [];
    }

    /** The position among the parent's children, or -1 without a parent. */
    method ChildIndex() returns (i: int)
      ensures i == if parent == null then -1 else Index(parent.children, this)
    {
      if parent == null { return -1; }
      return Index(parent.children, this);
    }
  }

  type Nodes = map<Node, CNode>

  /** Every node is filed under its own name. */
  ghost predicate Filed(at: Nodes) {
    forall n {:trigger at[n]} :: n in at ==> at[n].orig == n
  }

  /** c holds what t says about n. */
  ghost predicate Holds(at: Nodes, t: Tree, n: Node, c: CNode)
    reads c
  {
    Agrees(at, t, n, c.text, c.children, c.parent)
  }

  /** What t says about n, field by field. */
  ghost predicate Agrees(at: Nodes, t: Tree, n: Node, text: string, children: seq<CNode>, parent: CNode?) {
    && n in t.kids && n in t.labels && text == t.labels[n]
    && Same(at, children, t.kids[n])
    && (if n in t.parent then t.parent[n] in at && parent == at[t.parent[n]] else parent == null)
  }

  /** The list of nodes is the list of their names. */
  ghost predicate Same(at: Nodes, cs: seq<CNode>, ns: seq<Node>) {
    |cs| == |ns| && forall i :: 0 <= i < |ns| ==> ns[i] in at && cs[i] == at[ns[i]]
  }

  /** The nodes on the heap represent the tree t. */
  ghost predicate Rep(at: Nodes, t: Tree)
    reads at.Values
  {
    && at.Keys == t.kids.Keys && Filed(at)
    && forall n {:trigger Holds(at, t, n, at[n])} :: n in at ==> Holds(at, t, n, at[n])
  }

  lemma SameIndex(at: Nodes, cs: seq<CNode>, ns: seq<Node>, n: Node)
    requires Filed(at) && Same(at, cs, ns) && n in at
    ensures at[n] in cs <==> n in ns
    ensures Index(cs, at[n]) == Index(ns, n)
  {
    forall i | 0 <= i < |ns| ensures cs[i] == at[n] <==> ns[i] == n {
      assert cs[i].orig == ns[i];
    }
    var a, b := Index(cs, at[n]), Index(ns, n);
    if n in ns { assert cs[b] == at[n]; }
  }

  lemma SameWithout(at: Nodes, cs: seq<CNode>, ns: seq<Node>, n: Node)
    requires Filed(at) && Same(at, cs, ns) && n in at
    ensures Same(at, Without(cs, at[n]), Without(ns, n))
  {
    SameIndex(at, cs, ns, n);
    var a, b := Without(cs, at[n]), Without(ns, n);
    assert |a| == |b|;
    forall i | 0 <= i < |b| ensures b[i] in at && a[i] == at[b[i]] {
      WithoutAt(ns, n, i);
      WithoutAt(cs, at[n], i);
      hide Without, Index;
    }
  }

  lemma SameInsert(at: Nodes, cs: seq<CNode>, ns: seq<Node>, n: Node, k: nat)
    requires Same(at, cs, ns) && n in at && k <= |ns|
    ensures Same(at, InsertAt(cs, k, at[n]), InsertAt(ns, k, n))
  {
  }

  lemma SameGrows(at: Nodes, at': Nodes, cs: seq<CNode>, ns: seq<Node>)
    requires Same(at, cs, ns)
    requires forall n {:trigger n in at'} {:trigger at'[n]} :: n in at ==> n in at' && at'[n] == at[n]
    ensures Same(at', cs, ns)
  {
  }

  /** Detaches child from parent's list and clears its parent pointer, if it is in the list. */
  method DeleteChild(parent: CNode, child: CNode)
    requires parent != child
    modifies parent, child
    ensures child !in old(parent.children) ==> unchanged(parent) && unchanged(child)
    ensures child in old(parent.children) ==>
              && parent.children == Without(old(parent.children), child)
              && parent.text == old(parent.text) && parent.parent == old(parent.parent)
              && child.parent == null && child.children == old(child.children) && child.text == old(child.text)
  {
    var idx := Index(parent.children, child);
    if idx != -1 {
      parent.children := RemoveAt(parent.children, idx);
      child.parent := null;
    }
  }

  /** Puts child at index k of parent's children, detaching it from where it was first. */
  method InsertChild(parent: CNode, child: CNode, k: int)
    requires child.parent != child && parent != child
    modifies parent, child, child.parent
    ensures child.parent == parent && child.text == old(child.text) && child.children == old(child.children)
    ensures parent.text == old(parent.text) && parent.parent == old(parent.parent)
    ensures var home :=
              if old(child.parent) == parent then Without(old(parent.children), child) else old(parent.children);
            parent.children == InsertAt(home, Clamp(k, |home|), child)
    ensures var from := old(child.parent);
            from != null && from != parent ==>
              && from.children == Without(old(from.children), child)
              && from.text == old(from.text) && from.parent == old(from.parent)
  {
    if child.parent != null {
      DeleteChild(child.parent, child);
    }
    child.parent := parent;
    parent.children := InsertAt(parent.children, Clamp(k, |parent.children|), child);
  }

  function Clamp(k: int, n: nat): (r: nat)
    ensures r <= n && (0 <= k <= n ==> r == k)
  {
    if k < 0 then 0 else if k > n then n else k
  }

  /** A new childless node joins the represented tree unattached. */
  lemma RepFresh(at: Nodes, t: Tree, c: CNode)
    requires Rep(at, t) && Linked(t) && c.orig !in at && c.children == [] && c.parent == null
    ensures Rep(at[c.orig := c], Fresh(t, c.orig, c.text))
  {
    var n, at', r := c.orig, at[c.orig := c], Fresh(t, c.orig, c.text);
    forall m | m in at' ensures Holds(at', r, m, at'[m]) {
      if m != n {
        assert Holds(at, t, m, at[m]);
        SameGrows(at, at', at[m].children, t.kids[m]);
      }
    }
  }

  /** insertChild on a detached node. */
  method Hang(parent: CNode, child: CNode, k: nat, ghost at: Nodes, ghost t: Tree)
    requires Rep(at, t) && parent.orig in at && at[parent.orig] == parent && child.orig in at && at[child.orig] == child
    requires parent != child && child.parent == null && k <= |Kids(t, parent.orig)|
    modifies at.Values
    ensures Rep(at, Attach(t, parent.orig, child.orig, k))
  {
    assert Holds(at, t, parent.orig, parent);
    assert Holds(at, t, child.orig, child);
    InsertChild(parent, child, k);
    ghost var p, r := parent.orig, Attach(t, parent.orig, child.orig, k);
    assert r.kids.Keys == t.kids.Keys;
    forall m | m in at ensures Holds(at, r, m, at[m]) {
      assert old(Holds(at, t, m, at[m]));
      if m == p { SameInsert(at, old(at[m].children), t.kids[m], child.orig, k); }
    }
  }

  /** A new node, inserted below parent. */
  method HangNew(orig: Node, parent: CNode, k: nat, ghost at: Nodes, ghost t: Tree) returns (w: CNode)
    requires Rep(at, t) && Linked(t) && parent.orig in at && at[parent.orig] == parent && orig !in at
    requires k <= |Kids(t, parent.orig)|
    modifies at.Values
    ensures fresh(w) && w.orig == orig
    ensures Rep(at[orig := w], Attach(Fresh(t, orig, Text(orig)), parent.orig, orig, k))
  {
    w := new CNode(orig, Text(orig), null);
    RepFresh(at, t, w);
    Hang(parent, w, k, at[orig := w], Fresh(t, orig, Text(orig)));
  }

  /** A node that has a parent is listed there, on the heap as in the tree. */
  lemma ListedThere(child: CNode, at: Nodes, t: Tree)
    requires Rep(at, t) && Linked(t) && child.orig in at && at[child.orig] == child && child.orig in t.parent
    ensures var p := t.parent[child.orig];
            p in at && at[p].orig == p && child.parent == at[p] && child in at[p].children
  {
    var p := t.parent[child.orig];
    assert Holds(at, t, child.orig, child) && Holds(at, t, p, at[p]);
    SameIndex(at, at[p].children, t.kids[p], child.orig);
  }

  /** insertChild on a node that hangs somewhere else, node by node. */
  method Reinsert(parent: CNode, child: CNode, k: nat, from: CNode, ghost at: Nodes)
    requires Filed(at) && parent.orig in at && at[parent.orig] == parent && child.orig in at && at[child.orig] == child
    requires from.orig in at && at[from.orig] == from && child.parent == from
    requires from != parent && from != child && parent != child && k <= |parent.children|
    modifies at.Values
    ensures forall m :: m in at ==>
              && at[m].text == old(at[m].text)
              && at[m].parent == (if m == child.orig then parent else old(at[m].parent))
              && at[m].children == if m == parent.orig then InsertAt(old(at[m].children), k, child)
                                   else if m == from.orig then Without(old(at[m].children), child)
                                   else old(at[m].children)
  {
    hide InsertAt, Without;
    InsertChild(parent, child, k);
  }

  /** insertChild on a node that hangs somewhere else. */
  method Rehang(parent: CNode, child: CNode, k: nat, ghost at: Nodes, ghost t: Tree)
    requires Rep(at, t) && Linked(t) && parent.orig in at && at[parent.orig] == parent && child.orig in at
    requires at[child.orig] == child
    requires parent != child && child.orig in t.parent && t.parent[child.orig] != parent.orig
    requires t.parent[child.orig] != child.orig
    requires k <= |Kids(t, parent.orig)|
    modifies at.Values
    ensures Rep(at, Attach(Detach(t, child.orig), parent.orig, child.orig, k))
  {
    ghost var n, p := child.orig, parent.orig;
    ListedThere(child, at, t);
    assert k <= |parent.children| by { assert Holds(at, t, p, parent); }
    ghost var r := Attach(Detach(t, n), p, n, k);
    RehungKeys(t, n, p, k);
    hide Attach, Detach, InsertAt, Without, Agrees, Linked;
    Reinsert(parent, child, k, child.parent, at);
    forall m | m in at ensures Holds(at, r, m, at[m]) {
      assert old(Holds(at, t, m, at[m]));
      RehungAgrees(at, t, n, p, k, m, old(at[m].text), old(at[m].children), old(at[m].parent));
    }
  }

  lemma RehungKeys(t: Tree, n: Node, p: Node, k: nat)
    requires Linked(t) && n in t.parent && p in t.kids && t.parent[n] != p && t.parent[n] != n && n != p
    requires k <= |t.kids[p]|
    ensures Attach(Detach(t, n), p, n, k).kids.Keys == t.kids.Keys
  {
    RehungShape(t, n, p, k);
  }

  /** The fields of one node after the move. */
  lemma RehungAgrees(at: Nodes, t: Tree, n: Node, p: Node, k: nat, m: Node, text: string, cs: seq<CNode>, up: CNode?)
    requires Filed(at) && n in at && p in at && Agrees(at, t, m, text, cs, up)
    requires Linked(t) && n in t.parent && p in t.kids && t.parent[n] != p && t.parent[n] != n && n != p
    requires k <= |t.kids[p]|
    ensures (m == p ==> k <= |cs|)
    ensures Agrees(at, Attach(Detach(t, n), p, n, k), m, text,
                   if m == p then InsertAt(cs, k, at[n]) else if m == t.parent[n] then Without(cs, at[n]) else cs,
                   if m == n then at[p] else up)
  {
    RehungShape(t, n, p, k);
    hide Attach, Detach, InsertAt, Without, Linked;
    if m == p {
      SameInsert(at, cs, t.kids[m], n, k);
    } else if m == t.parent[n] {
      SameWithout(at, cs, t.kids[m], n);
    }
  }

  /** A node moved to another parent: what changes in the tree. */
  lemma RehungShape(t: Tree, n: Node, p: Node, k: nat)
    requires Linked(t) && n in t.parent && p in t.kids && t.parent[n] != p && t.parent[n] != n && n != p
    requires k <= |t.kids[p]|
    ensures var r := Attach(Detach(t, n), p, n, k);
            && r.parent == t.parent[n := p] && r.labels == t.labels && r.kids.Keys == t.kids.Keys
            && forall m {:trigger r.kids[m]} :: m in t.kids ==>
                 r.kids[m] == if m == p then InsertAt(t.kids[m], k, n)
                              else if m == t.parent[n] then Without(t.kids[m], n) else t.kids[m]
  {
    DetachAttachShape(t, n, p, k);
  }

  /** deleteChild on a node and its parent, node by node. */
  method Unlist(from: CNode, child: CNode, ghost at: Nodes)
    requires Filed(at) && child.orig in at && at[child.orig] == child && from.orig in at && at[from.orig] == from
    requires from != child && child in from.children
    modifies at.Values
    ensures forall m :: m in at ==>
              && at[m].text == old(at[m].text)
              && at[m].parent == (if m == child.orig then null else old(at[m].parent))
              && at[m].children == if m == from.orig then Without(old(at[m].children), child)
                                   else old(at[m].children)
  {
    hide Without;
    DeleteChild(from, child);
  }

  /** The fields of one node after the removal. */
  lemma UnhungAgrees(at: Nodes, t: Tree, n: Node, m: Node, text: string, cs: seq<CNode>, up: CNode?)
    requires Filed(at) && n in at && Agrees(at, t, m, text, cs, up) && n in t.parent && t.parent[n] in t.kids
    ensures Agrees(at, Detach(t, n), m, text, if m == t.parent[n] then Without(cs, at[n]) else cs,
                   if m == n then null else up)
  {
    SameWithout(at, cs, t.kids[m], n);
    hide Without, Same;
  }

  /** deleteChild on a node and its parent. */
  method Unhang(child: CNode, ghost at: Nodes, ghost t: Tree)
    requires Rep(at, t) && Linked(t) && child.orig in at && at[child.orig] == child
    requires child.orig in t.parent && t.parent[child.orig] != child.orig
    modifies at.Values
    ensures Rep(at, Detach(t, child.orig)) && child.parent == null
  {
    ghost var n := child.orig;
    ListedThere(child, at, t);
    assert Detach(t, n).kids.Keys == t.kids.Keys;
    hide Detach, Without, Agrees, Linked;
    Unlist(child.parent, child, at);
    forall m | m in at ensures Holds(at, Detach(t, n), m, at[m]) {
      assert old(Holds(at, t, m, at[m]));
      UnhungAgrees(at, t, n, m, old(at[m].text), old(at[m].children), old(at[m].parent));
    }
  }

  /** Gives a node a new label. */
  method Relabel(c: CNode, v: string, ghost at: Nodes, ghost t: Tree)
    requires Rep(at, t) && c.orig in at && at[c.orig] == c
    modifies c
    ensures Rep(at, t.(labels := t.labels[c.orig := v])) && c.parent == old(c.parent)
  {
    assert Holds(at, t, c.orig, c);
    c.text := v;
    forall m | m in at ensures Holds(at, t.(labels := t.labels[c.orig := v]), m, at[m]) {
      assert old(Holds(at, t, m, at[m]));
    }
  }
}
