/** The two traversals the generator relies on: level order of the target, post-order of the working copy. */
module Traversal {
  import opened Lists
  import opened Trees
  import opened WorkingCopy

  /** A node's parent and its left siblings come before it. */
  ghost predicate Preceded(t: Tree, q: seq<Node>, k: nat)
    requires k < |q|
  {
    && q[k] in t.parent && t.parent[q[k]] in t.kids && t.parent[q[k]] in q[..k]
    && forall c :: Before(t.kids[t.parent[q[k]]], c, q[k]) ==> c in q[..k]
  }

  /** Of two nodes, the one that comes first has its parent first, or they have the same. */
  ghost predicate InTurn(t: Tree, q: seq<Node>, k: nat, l: nat)
    requires k < |q| && l < |q|
  {
    q[k] in t.parent && q[l] in t.parent ==>
      t.parent[q[k]] == t.parent[q[l]] || Before(q, t.parent[q[k]], t.parent[q[l]])
  }

  /** Each node once, the root first, level by level; in a level as the parents stand in theirs, and left siblings
      first. */
  ghost predicate LevelWise(t: Tree, out: seq<Node>) {
    && NoDup(out) && SetOf(out) == t.kids.Keys
    && |out| > 0 && out[0] == t.root
    && (forall k :: 0 < k < |out| ==> Preceded(t, out, k))
    && (forall k, l :: 0 < k < l < |out| ==> InTurn(t, out, k, l))
    && exists level :: Levels(t, level) && Rises(level, out)
  }

  /** How far each node is from the root. */
  ghost predicate Levels(t: Tree, level: map<Node, nat>) {
    && t.kids.Keys <= level.Keys && t.root in level && level[t.root] == 0
    && forall c {:trigger t.parent[c]} :: c in t.parent ==>
         c in level && t.parent[c] in level && level[c] == level[t.parent[c]] + 1
  }

  /** No node stands before one that is nearer to the root. */
  ghost predicate Rises(level: map<Node, nat>, out: seq<Node>) {
    && (forall k :: 0 <= k < |out| ==> out[k] in level)
    && forall k, l :: 0 <= k <= l < |out| ==> level[out[k]] <= level[out[l]]
  }

  ghost function Level(t: Tree, depth: map<Node, nat>, n: Node): nat
    requires Linked(t) && Ranked(t, depth) && n in t.kids
    decreases depth[n]
  {
    if n == t.root then 0 else 1 + Level(t, depth, t.parent[n])
  }

  lemma LevelsExist(t: Tree)
    requires IsTree(t)
    ensures exists level :: Levels(t, level)
  {
    var depth :| Ranked(t, depth);
    assert Levels(t, map n | n in t.kids :: Level(t, depth, n));
  }

  /** The queue rises, and by at most one level from the node whose turn it is. */
  ghost predicate Layered(level: map<Node, nat>, queue: seq<Node>, h: nat) {
    Rises(level, queue) && forall k :: 0 <= k < |queue| && h < |queue| ==> level[queue[k]] <= level[queue[h]] + 1
  }

  lemma ExpandLayered(t: Tree, level: map<Node, nat>, queue: seq<Node>, h: nat)
    requires Linked(t) && Levels(t, level) && Layered(level, queue, h) && h < |queue| && queue[h] in t.kids
    ensures Layered(level, queue + t.kids[queue[h]], h + 1)
  {
    var x := queue[h];
    var r := queue + t.kids[x];
    forall k | |queue| <= k < |r| ensures r[k] in level && level[r[k]] == level[x] + 1 {
      assert r[k] in t.kids[x];
      assert t.parent[r[k]] == x;
    }
  }

  /** The queue after the first h nodes were expanded: the root and their children. */
  ghost predicate Queued(t: Tree, queue: seq<Node>, h: nat) {
    && h <= |queue| && |queue| > 0 && queue[0] == t.root && NoDup(queue)
    && (forall k :: 0 < k < |queue| ==> Preceded(t, queue, k))
    && (forall k, l :: 0 < k < l < |queue| ==> InTurn(t, queue, k, l))
    && (forall n :: n in queue <==> n == t.root || (n in t.parent && t.parent[n] in queue[..h]))
  }

  lemma PrecededStays(t: Tree, q: seq<Node>, r: seq<Node>, k: nat)
    requires k < |q| && q <= r && Preceded(t, q, k)
    ensures Preceded(t, r, k)
  {
    assert r[..k] == q[..k] && r[k] == q[k];
  }

  lemma NewPreceded(t: Tree, q: seq<Node>, h: nat, i: nat)
    requires Linked(t) && h < |q| && q[h] in t.kids && i < |t.kids[q[h]]|
    ensures Preceded(t, q + t.kids[q[h]], |q| + i)
  {
    var x := q[h];
    var s := t.kids[x];
    var r := q + s;
    assert r[|q| + i] == s[i] && s[i] in s;
    assert r[..|q| + i] == q + s[..i];
    forall c | Before(s, c, s[i]) ensures c in s[..i] {
      var a, b :| 0 <= a < b < |s| && s[a] == c && s[b] == s[i];
      assert b == i;
      assert s[..i][a] == c;
    }
  }

  lemma NextInTurn(t: Tree, queue: seq<Node>, h: nat, k: nat, l: nat)
    requires Linked(t) && Queued(t, queue, h) && h < |queue| && queue[h] in t.kids
    requires 0 < k < l < |queue| + |t.kids[queue[h]]|
    ensures InTurn(t, queue + t.kids[queue[h]], k, l)
  {
    var x := queue[h];
    var r := queue + t.kids[x];
    if l < |queue| {
      assert InTurn(t, queue, k, l);
      BeforeLonger(queue, t.kids[x]);
    } else if k < |queue| {
      assert Preceded(t, queue, k);
      assert queue[k] in queue;
      var i :| 0 <= i < h && queue[i] == t.parent[queue[k]];
      assert r[l] in t.kids[x] && r[i] == t.parent[queue[k]] && r[h] == x;
    } else {
      assert r[k] in t.kids[x] && r[l] in t.kids[x];
    }
  }

  lemma BeforeLonger(q: seq<Node>, s: seq<Node>)
    ensures forall a, b :: Before(q, a, b) ==> Before(q + s, a, b)
  {
    forall a, b | Before(q, a, b) ensures Before(q + s, a, b) {
      var i, k :| 0 <= i < k < |q| && q[i] == a && q[k] == b;
      assert (q + s)[i] == a && (q + s)[k] == b;
    }
  }

  lemma ExpandNext(t: Tree, queue: seq<Node>, h: nat)
    requires Linked(t) && Queued(t, queue, h) && h < |queue|
    ensures queue[h] in t.kids && Queued(t, queue + t.kids[queue[h]], h + 1)
  {
    var x := queue[h];
    assert x in queue;
    var s := t.kids[x];
    var r := queue + s;
    assert r[..h+1] == queue[..h] + [x];
    forall c | c in s ensures c !in queue {
      assert t.parent[c] == x;
      assert x !in queue[..h];
    }
    NoDupConcat(queue, s);
    forall k | 0 < k < |r| ensures Preceded(t, r, k) {
      if k < |queue| { PrecededStays(t, queue, r, k); }
      else { NewPreceded(t, queue, h, k - |queue|); }
    }
    forall k, l | 0 < k < l < |r| ensures InTurn(t, r, k, l) { NextInTurn(t, queue, h, k, l); }
    forall n ensures n in r <==> n == t.root || (n in t.parent && t.parent[n] in r[..h+1]) {
      if n in s { assert t.parent[n] == x; }
      if n in t.parent && t.parent[n] == x { assert n in s; }
    }
  }

  lemma {:induction false} QueueReaches(t: Tree, depth: map<Node, nat>, queue: seq<Node>, n: Node)
    requires Linked(t) && Ranked(t, depth) && Queued(t, queue, |queue|) && n in t.kids
    ensures n in queue
    decreases depth[n]
  {
    if n != t.root {
      QueueReaches(t, depth, queue, t.parent[n]);
      assert queue[..|queue|] == queue;
    }
  }

  lemma QueueInTree(t: Tree, queue: seq<Node>, h: nat)
    requires Linked(t) && Queued(t, queue, h)
    ensures SetOf(queue) <= t.kids.Keys && |queue| <= |t.kids.Keys|
  {
    SubsetLength(queue, t.kids.Keys);
  }

  method LevelOrder(t: Tree) returns (out: seq<Node>)
    requires IsTree(t)
    ensures LevelWise(t, out)
  {
    LevelsExist(t);
    ghost var level :| Levels(t, level);
    hide Levels, Layered;
    out := [];
    var queue := [t.root];
    var head := 0;
    assert Layered(level, queue, 0) by { LayeredStart(t, level); }
    while head < |queue|
      invariant 0 <= head <= |queue|
      invariant Queued(t, queue, head) && Layered(level, queue, head)
      invariant out == queue[..head]
      decreases |t.kids.Keys| - head
    {
      QueueInTree(t, queue, head);
      ExpandNext(t, queue, head);
      ExpandLayered(t, level, queue, head);
      var curr := queue[head];
      out := out + [curr];
      queue := queue + t.kids[curr];
      head := head + 1;
      QueueInTree(t, queue, head);
    }
    QueueInTree(t, queue, head);
    ghost var depth :| Ranked(t, depth);
    forall n | n in t.kids ensures n in queue { QueueReaches(t, depth, queue, n); }
    assert out == queue;
    LayeredRises(level, queue, head);
  }

  lemma LayeredStart(t: Tree, level: map<Node, nat>)
    requires Levels(t, level)
    ensures Layered(level, [t.root], 0)
  {
  }

  lemma LayeredRises(level: map<Node, nat>, queue: seq<Node>, h: nat)
    requires Layered(level, queue, h)
    ensures Rises(level, queue)
  {
  }

  ghost predicate KidsBefore(t: Tree, out: seq<Node>) {
    forall k, d :: 0 <= k < |out| && out[k] in t.kids && d in t.kids[out[k]] ==> d in out[..k]
  }

  lemma KidsBeforeConcat(t: Tree, a: seq<Node>, b: seq<Node>)
    requires KidsBefore(t, a)
    requires forall k, d :: 0 <= k < |b| && b[k] in t.kids && d in t.kids[b[k]] ==> d in b[..k] || d in a
    ensures KidsBefore(t, a + b)
  {
    var r := a + b;
    forall k, d | 0 <= k < |r| && r[k] in t.kids && d in t.kids[r[k]] ensures d in r[..k] {
      if k < |a| {
        assert r[..k] == a[..k];
      } else {
        assert b[k - |a|] == r[k];
        assert r[..k] == a + b[..k - |a|];
      }
    }
  }

  /** The nodes below c: each once, each after all of its children. */
  ghost predicate ChildrenFirst(t: Tree, depth: map<Node, nat>, c: Node, out: seq<Node>)
    requires Ranked(t, depth)
  {
    && NoDup(out)
    && (forall n :: n in out <==> n in t.kids && Under(t, depth, c, n))
    && KidsBefore(t, out)
  }

  /** The first i children's subtrees. */
  ghost predicate PartDone(t: Tree, depth: map<Node, nat>, c: Node, i: nat, out: seq<Node>)
    requires Ranked(t, depth) && c in t.kids && i <= |t.kids[c]|
  {
    && NoDup(out)
    && (forall n :: n in out <==> n in t.kids && exists k :: 0 <= k < i && Under(t, depth, t.kids[c][k], n))
    && KidsBefore(t, out)
  }

  lemma PartNext(t: Tree, depth: map<Node, nat>, c: Node, i: nat, out: seq<Node>, more: seq<Node>)
    requires Linked(t) && Ranked(t, depth) && c in t.kids && i < |t.kids[c]|
    requires PartDone(t, depth, c, i, out) && ChildrenFirst(t, depth, t.kids[c][i], more)
    ensures PartDone(t, depth, c, i + 1, out + more)
  {
    var r := out + more;
    forall n | n in out ensures n !in more {
      var k :| 0 <= k < i && Under(t, depth, t.kids[c][k], n);
      PartApart(t, depth, c, k, i, n);
    }
    NoDupConcat(out, more);
    KidsBeforeConcat(t, out, more);
    forall n ensures n in r <==> n in t.kids && exists k :: 0 <= k < i + 1 && Under(t, depth, t.kids[c][k], n) {
      if n in t.kids && exists k :: 0 <= k < i + 1 && Under(t, depth, t.kids[c][k], n) {
        var k :| 0 <= k < i + 1 && Under(t, depth, t.kids[c][k], n);
        if k < i { assert n in out; }
      }
    }
  }

  lemma PartApart(t: Tree, depth: map<Node, nat>, c: Node, k: nat, i: nat, n: Node)
    requires Linked(t) && Ranked(t, depth) && c in t.kids && k < i < |t.kids[c]| && n in t.kids
    ensures !(Under(t, depth, t.kids[c][k], n) && Under(t, depth, t.kids[c][i], n))
  {
    var a, b := t.kids[c][k], t.kids[c][i];
    assert a in t.kids[c] && b in t.kids[c];
    assert NoDup(t.kids[c]);
    if Under(t, depth, a, n) && Under(t, depth, b, n) { SiblingsApart(t, depth, a, b, n); }
  }

  lemma PartLast(t: Tree, depth: map<Node, nat>, c: Node, out: seq<Node>)
    requires Linked(t) && Ranked(t, depth) && c in t.kids && PartDone(t, depth, c, |t.kids[c]|, out)
    ensures ChildrenFirst(t, depth, c, out + [c])
  {
    var r := out + [c];
    PartAvoids(t, depth, c, out);
    NoDupConcat(out, [c]);
    forall n ensures n in r <==> n in t.kids && Under(t, depth, c, n) {
      if n in out {
        var k :| 0 <= k < |t.kids[c]| && Under(t, depth, t.kids[c][k], n);
        assert t.kids[c][k] in t.kids[c];
        UnderStep(t, depth, c, t.kids[c][k], n);
      }
      if n in t.kids && Under(t, depth, c, n) && n != c {
        var d := UnderChild(t, depth, c, n);
        var k :| 0 <= k < |t.kids[c]| && t.kids[c][k] == d;
        assert n in out;
      }
    }
    forall d | d in t.kids[c] ensures d in out {
      assert t.parent[d] == c;
      var l :| 0 <= l < |t.kids[c]| && t.kids[c][l] == d;
      assert Under(t, depth, t.kids[c][l], d);
    }
    KidsBeforeConcat(t, out, [c]);
  }

  lemma PartAvoids(t: Tree, depth: map<Node, nat>, c: Node, out: seq<Node>)
    requires Linked(t) && Ranked(t, depth) && c in t.kids && PartDone(t, depth, c, |t.kids[c]|, out)
    ensures c !in out
  {
    if c in out {
      var k :| 0 <= k < |t.kids[c]| && Under(t, depth, t.kids[c][k], c);
      assert t.kids[c][k] in t.kids[c];
      UnderDepth(t, depth, t.kids[c][k], c);
    }
  }

  /** c is a node of the working copy that represents t, and the depths of t are below bound. */
  ghost predicate Walkable(at: Nodes, t: Tree, depth: map<Node, nat>, bound: nat, c: CNode)
    reads at.Values
  {
    && Rep(at, t) && Linked(t) && Ranked(t, depth) && c.orig in at && at[c.orig] == c
    && forall n :: n in depth ==> depth[n] < bound
  }

  ghost predicate AllFiled(at: Nodes, out: seq<CNode>) {
    forall c :: c in out ==> c.orig in at && at[c.orig] == c
  }

  lemma ChildWalkable(at: Nodes, t: Tree, depth: map<Node, nat>, bound: nat, c: CNode, i: nat)
    requires Walkable(at, t, depth, bound, c) && i < |c.children|
    ensures |c.children| == |t.kids[c.orig]| && c.children[i].orig == t.kids[c.orig][i]
    ensures Walkable(at, t, depth, bound, c.children[i])
    ensures depth[c.orig] < depth[c.children[i].orig] < bound
  {
    assert Holds(at, t, c.orig, at[c.orig]);
    assert t.kids[c.orig][i] in t.kids[c.orig];
    assert t.parent[t.kids[c.orig][i]] == c.orig;
  }

  lemma PartStart(at: Nodes, t: Tree, depth: map<Node, nat>, bound: nat, c: CNode)
    requires Walkable(at, t, depth, bound, c)
    ensures |c.children| == |t.kids[c.orig]| && depth[c.orig] < bound
    ensures PartDone(t, depth, c.orig, 0, [])
  {
    assert Holds(at, t, c.orig, at[c.orig]);
  }

  /** The post-order walk of the working copy below c. */
  method PostOrder(c: CNode, ghost at: Nodes, ghost t: Tree, ghost depth: map<Node, nat>,
                   ghost bound: nat) returns (out: seq<CNode>)
    requires Walkable(at, t, depth, bound, c)
    ensures ChildrenFirst(t, depth, c.orig, Names(out)) && AllFiled(at, out)
    decreases bound - depth[c.orig]
  {
    out := [];
    var i := 0;
    PartStart(at, t, depth, bound, c);
    while i < |c.children|
      invariant 0 <= i <= |c.children| == |t.kids[c.orig]|
      invariant PartDone(t, depth, c.orig, i, Names(out)) && AllFiled(at, out)
    {
      ChildWalkable(at, t, depth, bound, c, i);
      var more := PostOrder(c.children[i], at, t, depth, bound);
      PartNext(t, depth, c.orig, i, Names(out), Names(more));
      NamesConcat(out, more);
      out := out + more;
      i := i + 1;
    }
    PartLast(t, depth, c.orig, Names(out));
    NamesConcat(out, [c]);
    assert Names([c]) == [c.orig];
    out := out + [c];
  }

  function Names(s: seq<CNode>): (r: seq<Node>)
    ensures |r| == |s|
  {
    seq(|s|, i requires 0 <= i < |s| => s[i].orig)
  }

  lemma NamesConcat(a: seq<CNode>, b: seq<CNode>)
    ensures Names(a + b) == Names(a) + Names(b)
  {
  }
}
