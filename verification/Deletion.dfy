/** The last phase: everything without a partner is deleted, children first. */
module Deletion {
  import opened Lists
  import opened Trees
  import opened ScriptSpec
  import opened WorkingCopy
  import opened Traversal
  import opened Ledgers

  /** The nodes below the root that are not paired. */
  ghost function Unpaired(t: Tree, toDst: map<Node, Node>): set<Node> {
    set n | n in t.kids && n != t.root && n !in toDst
  }

  /** Nothing paired lies below an unpaired node. */
  ghost predicate UnpairedClosed(t: Tree, toDst: map<Node, Node>) {
    forall n, d {:trigger d in t.kids[n]} :: n in t.kids && n != t.root && n !in toDst && d in t.kids[n] ==> d !in toDst
  }

  lemma AllUnderOnly(t: Tree, depth: map<Node, nat>, c: Node, n: Node)
    requires Linked(t) && Ranked(t, depth) && t.kids[t.root] == [c] && n in t.kids && n != t.root
    ensures Under(t, depth, c, n)
  {
    AllUnderRoot(t, depth, n);
    var d := UnderChild(t, depth, t.root, n);
  }

  /** What the deletes of the first k nodes of the post-order did. */
  ghost predicate Deleting(base: Tree, t: Tree, toDst: map<Node, Node>, before: seq<Action>, script: seq<Action>,
                           out: seq<Node>, k: nat)
    requires k <= |out|
  {
    && Replay(base, script).Some?
    && DelInv(t, Replay(base, script).value, Unpaired(t, toDst) * SetOf(out[..k]))
    && Inserted(script) == Inserted(before) && Updated(script) == Updated(before) && Moved(script) == Moved(before)
    && NoDup(Deleted(script)) && SetOf(Deleted(script)) == Unpaired(t, toDst) * SetOf(out[..k])
  }

  lemma DeletingStart(base: Tree, t: Tree, toDst: map<Node, Node>, before: seq<Action>, out: seq<Node>)
    requires IsTree(t) && Replay(base, before) == Some(t) && Deleted(before) == []
    ensures Deleting(base, t, toDst, before, before, out, 0)
  {
    DelStart(t);
    assert Unpaired(t, toDst) * SetOf(out[..0]) == {};
    assert SetOf(Deleted(before)) == {};
  }

  lemma DeletingSkip(base: Tree, t: Tree, toDst: map<Node, Node>, before: seq<Action>, script: seq<Action>,
                     out: seq<Node>, k: nat)
    requires k < |out| && Deleting(base, t, toDst, before, script, out, k) && out[k] in toDst
    ensures Deleting(base, t, toDst, before, script, out, k + 1)
  {
    assert out[..k+1] == out[..k] + [out[k]];
    assert Unpaired(t, toDst) * SetOf(out[..k+1]) == Unpaired(t, toDst) * SetOf(out[..k]);
  }

  lemma DeletingStep(base: Tree, t: Tree, toDst: map<Node, Node>, before: seq<Action>, script: seq<Action>,
                     out: seq<Node>, k: nat)
    requires IsTree(t) && UnpairedClosed(t, toDst)
    requires k < |out| && Deleting(base, t, toDst, before, script, out, k) && out[k] !in toDst
    requires NoDup(out) && KidsBefore(t, out) && out[k] in t.parent
    ensures Deleting(base, t, toDst, before, script + [Delete(out[k])], out, k + 1)
  {
    var gone := Unpaired(t, toDst) * SetOf(out[..k]);
    NextGone(t, toDst, out, k);
    DelStep(t, Replay(base, script).value, gone, out[k]);
    ReplayAppend(base, script, Delete(out[k]));
    DeleteListed(script, out[k]);
  }

  lemma NextGone(t: Tree, toDst: map<Node, Node>, out: seq<Node>, k: nat)
    requires Linked(t) && UnpairedClosed(t, toDst) && k < |out| && out[k] !in toDst
    requires NoDup(out) && KidsBefore(t, out) && out[k] in t.parent
    ensures Unpaired(t, toDst) * SetOf(out[..k+1]) == Unpaired(t, toDst) * SetOf(out[..k]) + {out[k]}
    ensures out[k] !in Unpaired(t, toDst) * SetOf(out[..k])
    ensures forall c :: c in t.kids[out[k]] ==> c in Unpaired(t, toDst) * SetOf(out[..k])
  {
    assert out[..k+1] == out[..k] + [out[k]];
    assert out[k] !in out[..k];
    forall c | c in t.kids[out[k]] ensures c in Unpaired(t, toDst) * SetOf(out[..k]) {
      assert c in out[..k] && t.parent[c] == out[k];
    }
  }

  lemma DeleteListed(script: seq<Action>, n: Node)
    requires NoDup(Deleted(script)) && n !in SetOf(Deleted(script))
    ensures NoDup(Deleted(script + [Delete(n)])) && SetOf(Deleted(script + [Delete(n)])) == SetOf(Deleted(script)) + {n}
    ensures Inserted(script + [Delete(n)]) == Inserted(script) && Updated(script + [Delete(n)]) == Updated(script)
    ensures Moved(script + [Delete(n)]) == Moved(script)
  {
    MentionAppend(script, Delete(n));
    NoDupAppend(Deleted(script), n);
  }

  lemma DeletingEnd(base: Tree, t: Tree, toDst: map<Node, Node>, before: seq<Action>, script: seq<Action>,
                    out: seq<Node>)
    requires Deleting(base, t, toDst, before, script, out, |out|)
    requires forall n :: n in t.kids && n != t.root ==> n in out
    ensures NoDup(Deleted(script)) && SetOf(Deleted(script)) == Unpaired(t, toDst)
    ensures Replay(base, script).Some? && DelInv(t, Replay(base, script).value, Unpaired(t, toDst))
    ensures Inserted(script) == Inserted(before) && Updated(script) == Updated(before) && Moved(script) == Moved(before)
  {
    assert out[..|out|] == out;
    assert Unpaired(t, toDst) * SetOf(out) == Unpaired(t, toDst);
  }

  /** Deletes the unpaired nodes of the working copy in post-order: each one once, after its children. */
  method DeleteUnpaired(c: CNode, toDst: map<Node, Node>, before: seq<Action>, ghost base: Tree, ghost at: Nodes,
                        ghost t: Tree)
    returns (script: seq<Action>)
    requires Rep(at, t) && IsTree(t) && c.orig in at && at[c.orig] == c && t.kids[t.root] == [c.orig]
    requires UnpairedClosed(t, toDst) && Replay(base, before) == Some(t) && Deleted(before) == []
    ensures Replay(base, script).Some? && DelInv(t, Replay(base, script).value, Unpaired(t, toDst))
    ensures NoDup(Deleted(script)) && SetOf(Deleted(script)) == Unpaired(t, toDst)
    ensures Inserted(script) == Inserted(before) && Updated(script) == Updated(before) && Moved(script) == Moved(before)
  {
    hide IsTree, Replay, DelInv, Unpaired, UnpairedClosed, KidsBefore, NoDup, Inserted, Updated, Moved, Deleted;
    ghost var depth := SomeDepth(t);
    ghost var bound := DepthBound(depth);
    var nodes := PostOrder(c, at, t, depth, bound);
    OrderFacts(t, depth, c.orig, Names(nodes));
    script := DeleteEach(nodes, toDst, before, base, t, Names(nodes));
    DeletingEnd(base, t, toDst, before, script, Names(nodes));
  }

  /** The deletes for a post-order. */
  method DeleteEach(nodes: seq<CNode>, toDst: map<Node, Node>, before: seq<Action>, ghost base: Tree, ghost t: Tree,
                    ghost out: seq<Node>)
    returns (script: seq<Action>)
    requires IsTree(t) && UnpairedClosed(t, toDst) && Replay(base, before) == Some(t) && Deleted(before) == []
    requires out == Names(nodes) && NoDup(out) && KidsBefore(t, out)
    requires forall k :: 0 <= k < |out| ==> out[k] in t.parent
    ensures Deleting(base, t, toDst, before, script, out, |out|)
  {
    hide IsTree, Replay, UnpairedClosed, Deleting, KidsBefore, NoDup, Deleted;
    script := before;
    DeletingStart(base, t, toDst, before, out);
    for i := 0 to |nodes|
      invariant Deleting(base, t, toDst, before, script, out, i)
    {
      var w := nodes[i];
      if w.orig !in toDst {
        DeletingStep(base, t, toDst, before, script, out, i);
        script := script + [Delete(w.orig)];
      } else {
        DeletingSkip(base, t, toDst, before, script, out, i);
      }
    }
  }

  lemma SomeDepth(t: Tree) returns (depth: map<Node, nat>)
    requires IsTree(t)
    ensures Ranked(t, depth) && Linked(t)
  {
    depth :| Ranked(t, depth);
  }

  /** The post-order below the root's only child covers every node but the root. */
  lemma OrderFacts(t: Tree, depth: map<Node, nat>, c: Node, out: seq<Node>)
    requires Linked(t) && Ranked(t, depth) && t.kids[t.root] == [c] && ChildrenFirst(t, depth, c, out)
    ensures NoDup(out) && KidsBefore(t, out)
    ensures forall n :: n in t.kids && n != t.root ==> n in out
    ensures forall k :: 0 <= k < |out| ==> out[k] in t.parent
  {
    forall n | n in t.kids && n != t.root ensures n in out { AllUnderOnly(t, depth, c, n); }
    forall k | 0 <= k < |out| ensures out[k] in t.parent {
      assert out[k] in out;
      assert c in t.kids[t.root];
      if out[k] == t.root { UnderDepth(t, depth, c, t.root); }
    }
  }
}
