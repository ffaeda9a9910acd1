/** The working copy starts as an exact copy of the source tree under the fake root. */
module DeepCopies {
  import opened Trees
  import opened WorkingCopy

  /** m was copied with its label and its children. */
  ghost predicate Copied(at: Nodes, s: Tree, m: Node, c: CNode)
    reads c
  {
    m in s.kids && m in s.labels && c.orig == m && c.text == s.labels[m] && Same(at, c.children, s.kids[m])
  }

  /** The first k children's subtrees. */
  ghost predicate Within(s: Tree, depth: map<Node, nat>, n: Node, k: nat, m: Node)
    requires Ranked(s, depth) && n in s.kids && k <= |s.kids[n]| && m in depth
  {
    exists i :: 0 <= i < k && Under(s, depth, s.kids[n][i], m)
  }

  lemma WithinAll(s: Tree, depth: map<Node, nat>, n: Node, m: Node)
    requires Linked(s) && Ranked(s, depth) && n in s.kids && m in s.kids
    ensures Under(s, depth, n, m) <==> m == n || Within(s, depth, n, |s.kids[n]|, m)
  {
    if Under(s, depth, n, m) && m != n {
      var c := UnderChild(s, depth, n, m);
      var i :| 0 <= i < |s.kids[n]| && s.kids[n][i] == c;
    }
    if Within(s, depth, n, |s.kids[n]|, m) {
      var i :| 0 <= i < |s.kids[n]| && Under(s, depth, s.kids[n][i], m);
      assert s.kids[n][i] in s.kids[n];
      UnderStep(s, depth, n, s.kids[n][i], m);
    }
  }

  /** m's copy has the copy of m's parent as its parent. */
  ghost predicate Parented(at: Nodes, s: Tree, m: Node, c: CNode)
    reads c
  {
    m in s.parent && s.parent[m] in at && c.parent == at[s.parent[m]]
  }

  ghost predicate Extends(at0: Nodes, at: Nodes) {
    forall m {:trigger at0[m]} {:trigger at[m]} :: m in at0 ==> m in at && at[m] == at0[m]
  }

  /** The copies made since at0, except top's own: labels, children and parents are right. */
  ghost predicate Faithful(at0: Nodes, at: Nodes, s: Tree, top: Node)
    reads at.Values
  {
    forall m {:trigger at[m]} :: m in at && m !in at0 && m != top ==>
      Copied(at, s, m, at[m]) && Parented(at, s, m, at[m])
  }

  lemma CopiedGrows(at: Nodes, at': Nodes, s: Tree, m: Node, c: CNode)
    requires Extends(at, at') && Copied(at, s, m, c)
    ensures Copied(at', s, m, c)
  {
  }

  lemma FaithfulGrows(at0: Nodes, at: Nodes, at': Nodes, s: Tree, top: Node, ch: Node)
    requires Faithful(at0, at, s, top) && Faithful(at, at', s, ch) && Extends(at0, at) && Extends(at, at')
    requires ch in at' && ch !in at && Copied(at', s, ch, at'[ch]) && Parented(at', s, ch, at'[ch])
    ensures Faithful(at0, at', s, top)
  {
    forall m | m in at' && m !in at0 && m != top ensures Copied(at', s, m, at'[m]) && Parented(at', s, m, at'[m]) {
      if m in at {
        assert at'[m] == at[m];
        CopiedGrows(at, at', s, m, at[m]);
      }
    }
  }

  /** The children of n from the i-th on have not been copied yet. */
  lemma ChildApart(s: Tree, depth: map<Node, nat>, n: Node, i: nat, m: Node)
    requires Linked(s) && Ranked(s, depth) && n in s.kids && i < |s.kids[n]| && m in s.kids
    requires Under(s, depth, s.kids[n][i], m)
    ensures m != n && !Within(s, depth, n, i, m) && Under(s, depth, n, m)
  {
    assert s.kids[n][i] in s.kids[n];
    UnderStep(s, depth, n, s.kids[n][i], m);
    UnderDepth(s, depth, s.kids[n][i], m);
    if Within(s, depth, n, i, m) {
      var k :| 0 <= k < i && Under(s, depth, s.kids[n][k], m);
      assert s.kids[n][k] in s.kids[n];
      SiblingsApart(s, depth, s.kids[n][k], s.kids[n][i], m);
    }
  }

  /** Copies the subtree of n; at finds the copy of every node copied so far. */
  method DeepCopy(s: Tree, n: Node, parent: CNode?, at0: Nodes, ghost depth: map<Node, nat>, ghost bound: nat)
    returns (cn: CNode, at: Nodes)
    requires Linked(s) && Ranked(s, depth) && n in s.kids && forall m :: m in depth ==> depth[m] < bound
    requires forall m :: m in s.kids && Under(s, depth, n, m) ==> m !in at0
    ensures n in at && at[n] == cn && cn.parent == parent && Copied(at, s, n, cn)
    ensures Extends(at0, at) && Faithful(at0, at, s, n)
    ensures forall m :: m in at <==> m in at0 || (m in s.kids && Under(s, depth, n, m))
    ensures forall m {:trigger at[m]} :: m in at && m !in at0 ==> fresh(at[m])
    decreases bound - depth[n]
  {
    cn := new CNode(n, s.labels[n], parent);
    at := at0[n := cn];
    var i := 0;
    while i < |s.kids[n]|
      invariant 0 <= i <= |s.kids[n]|
      invariant n in at && at[n] == cn && fresh(cn) && cn.parent == parent && cn.text == s.labels[n]
      invariant Same(at, cn.children, s.kids[n][..i])
      invariant Extends(at0, at) && Faithful(at0, at, s, n)
      invariant forall m :: m in at <==> m in at0 || m == n || (m in s.kids && Within(s, depth, n, i, m))
      invariant forall m {:trigger at[m]} :: m in at && m !in at0 ==> fresh(at[m])
    {
      at := CopyChild(s, n, i, cn, at0, at, depth, bound);
      i := i + 1;
    }
    assert s.kids[n][..i] == s.kids[n];
    forall m | m in s.kids ensures Under(s, depth, n, m) <==> m == n || Within(s, depth, n, |s.kids[n]|, m) {
      WithinAll(s, depth, n, m);
    }
  }

  /** Copies the i-th child of n and appends it to n's copy. */
  method CopyChild(s: Tree, n: Node, i: nat, cn: CNode, ghost at0: Nodes, at: Nodes, ghost depth: map<Node, nat>,
                   ghost bound: nat)
    returns (at': Nodes)
    requires Linked(s) && Ranked(s, depth) && n in s.kids && i < |s.kids[n]|
    requires forall m :: m in depth ==> depth[m] < bound
    requires forall m :: m in s.kids && Under(s, depth, n, m) ==> m !in at0
    requires n in at && at[n] == cn && cn.orig == n && Same(at, cn.children, s.kids[n][..i])
    requires Extends(at0, at) && Faithful(at0, at, s, n)
    requires forall m :: m in at <==> m in at0 || m == n || (m in s.kids && Within(s, depth, n, i, m))
    modifies cn
    ensures cn.text == old(cn.text) && cn.parent == old(cn.parent) && Same(at', cn.children, s.kids[n][..i+1])
    ensures n in at' && at'[n] == cn && Extends(at0, at') && Extends(at, at') && Faithful(at0, at', s, n)
    ensures forall m :: m in at' <==> m in at0 || m == n || (m in s.kids && Within(s, depth, n, i + 1, m))
    ensures forall m {:trigger at'[m]} :: m in at' && m !in at ==> fresh(at'[m])
    decreases bound - depth[n], 0
  {
    hide Same, Within, Extends, Under, Linked, Ranked;
    ghost var k := s.kids[n][i];
    ChildBelow(s, depth, n, i);
    ExtendsIn(at0, at, n);
    forall m | m in s.kids && Under(s, depth, k, m) ensures m !in at { ChildApart(s, depth, n, i, m); }
    var ch;
    ch, at' := DeepCopy(s, s.kids[n][i], cn, at, depth, bound);
    ExtendsIn(at, at', n);
    ExtendsTwice(at0, at, at');
    FaithfulGrows(at0, at, at', s, n, k);
    SameGrows(at, at', cn.children, s.kids[n][..i]);
    cn.children := cn.children + [ch];
    WithinNext(s, depth, n, i);
    assert s.kids[n][..i+1] == s.kids[n][..i] + [k];
    SamePush(at', cn.children[..|cn.children| - 1], s.kids[n][..i], k);
  }

  lemma ChildBelow(s: Tree, depth: map<Node, nat>, n: Node, i: nat)
    requires Linked(s) && Ranked(s, depth) && n in s.kids && i < |s.kids[n]|
    ensures var k := s.kids[n][i];
            && k in s.kids && k in s.parent && s.parent[k] == n && k in depth && n in depth && depth[n] < depth[k]
            && s.kids.Keys <= depth.Keys && Under(s, depth, k, k)
  {
    assert s.kids[n][i] in s.kids[n];
  }

  lemma ExtendsIn(at: Nodes, at': Nodes, n: Node)
    requires Extends(at, at')
    ensures n in at ==> n in at' && at'[n] == at[n]
  {
  }

  lemma ExtendsTwice(at0: Nodes, at: Nodes, at': Nodes)
    requires Extends(at0, at) && Extends(at, at')
    ensures Extends(at0, at')
  {
  }

  lemma SamePush(at: Nodes, cs: seq<CNode>, ns: seq<Node>, n: Node)
    requires Same(at, cs, ns) && n in at
    ensures Same(at, cs + [at[n]], ns + [n])
  {
  }

  lemma WithinNext(s: Tree, depth: map<Node, nat>, n: Node, i: nat)
    requires Ranked(s, depth) && n in s.kids && i < |s.kids[n]|
    ensures forall m :: m in s.kids ==>
              (Within(s, depth, n, i + 1, m) <==> Within(s, depth, n, i, m) || Under(s, depth, s.kids[n][i], m))
  {
    forall m | m in s.kids
      ensures Within(s, depth, n, i + 1, m) <==> Within(s, depth, n, i, m) || Under(s, depth, s.kids[n][i], m)
    {
      if Within(s, depth, n, i, m) {
        var k :| 0 <= k < i && Under(s, depth, s.kids[n][k], m);
      }
    }
  }
}
