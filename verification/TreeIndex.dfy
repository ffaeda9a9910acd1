/** The index of a tree: subtrees as stretches of its preorder and its postorder, and leaf labels by position. */
module TreeIndex {
  import opened ZsTrees

  /** The nodes of a subtree, parents first. */
  function PreOrder(t: Node): (r: seq<Node>)
    ensures r != [] && r[0] == t
    decreases t, 1
  {
    [t] + PreForest(t.kids)
  }

  function PreForest(ks: seq<Node>): seq<Node>
    decreases ks, 0
  {
    if ks == [] then [] else PreOrder(ks[0]) + PreForest(ks[1..])
  }

  /** The subtree of the node at i is the stretch of the list that starts at i. */
  ghost predicate PreBlock(s: seq<Node>, i: nat)
    requires i < |s|
  {
    i + |PreOrder(s[i])| <= |s| && s[i..i + |PreOrder(s[i])|] == PreOrder(s[i])
  }

  ghost predicate PreBlocked(s: seq<Node>) {
    forall i: nat :: i < |s| ==> PreBlock(s, i)
  }

  lemma PreConcat(a: seq<Node>, b: seq<Node>)
    requires PreBlocked(a) && PreBlocked(b)
    ensures PreBlocked(a + b)
  {
    hide PreOrder;
    forall i: nat | i < |a + b| ensures PreBlock(a + b, i) {
      if i < |a| {
        assert PreBlock(a, i);
        var size := |PreOrder(a[i])|;
        assert (a + b)[i..i + size] == a[i..i + size];
      } else {
        assert PreBlock(b, i - |a|);
        var size := |PreOrder(b[i - |a|])|;
        assert (a + b)[i..i + size] == b[i - |a|..i - |a| + size];
      }
    }
  }

  lemma {:induction false} TreePreBlocked(t: Node)
    ensures PreBlocked(PreOrder(t))
    decreases t, 1
  {
    ForestPreBlocked(t.kids);
    var s, rest := PreOrder(t), PreForest(t.kids);
    forall i: nat | i < |s| ensures PreBlock(s, i) {
      if i > 0 {
        assert PreBlock(rest, i - 1);
        var size := |PreOrder(rest[i - 1])|;
        assert s[i..i + size] == rest[i - 1..i - 1 + size];
      } else {
        assert s[0..|s|] == s;
      }
    }
  }

  lemma {:induction false} ForestPreBlocked(ks: seq<Node>)
    ensures PreBlocked(PreForest(ks))
    decreases ks, 0
  {
    if ks != [] {
      TreePreBlocked(ks[0]);
      ForestPreBlocked(ks[1..]);
      PreConcat(PreOrder(ks[0]), PreForest(ks[1..]));
    }
  }

  /** Climbing from c by parents meets n: c is a child of n, or lies below one. */
  ghost predicate Below(c: Node, n: Node)
    decreases n
  {
    exists k :: 0 <= k < |n.kids| && (n.kids[k] == c || Below(c, n.kids[k]))
  }

  lemma {:induction false} BelowInOrder(c: Node, n: Node)
    ensures Below(c, n) <==> c in PreForest(n.kids)
    decreases n, 1
  {
    forall k | 0 <= k < |n.kids| ensures c in PreOrder(n.kids[k]) <==> c == n.kids[k] || Below(c, n.kids[k]) {
      BelowInOrder(c, n.kids[k]);
      assert PreOrder(n.kids[k]) == [n.kids[k]] + PreForest(n.kids[k].kids);
    }
    InSomeTree(c, n.kids);
  }

  lemma {:induction false} InSomeTree(c: Node, ks: seq<Node>)
    ensures c in PreForest(ks) <==> exists k :: 0 <= k < |ks| && c in PreOrder(ks[k])
  {
    if ks != [] {
      InSomeTree(c, ks[1..]);
      if c in PreForest(ks[1..]) {
        var k :| 0 <= k < |ks[1..]| && c in PreOrder(ks[1..][k]);
        assert ks[1..][k] == ks[k + 1];
      }
      if k :| 0 <= k < |ks| && c in PreOrder(ks[k]) {
        assert k > 0 ==> ks[k] == ks[1..][k - 1];
      }
    }
  }

  lemma {:induction false} PreForestPush(ks: seq<Node>, k: Node)
    ensures PreForest(ks + [k]) == PreForest(ks) + PreOrder(k)
  {
    if ks == [] {
      assert [k][1..] == [] && [] + [k] == [k];
      assert PreOrder(k) + [] == PreOrder(k) && [] + PreOrder(k) == PreOrder(k);
    } else {
      assert (ks + [k])[1..] == ks[1..] + [k];
      PreForestPush(ks[1..], k);
      var x, y, z := PreOrder(ks[0]), PreForest(ks[1..]), PreOrder(k);
      assert x + (y + z) == (x + y) + z;
    }
  }

  lemma {:induction false} PostForestPush(ks: seq<Node>, k: Node)
    ensures PostForest(ks + [k]) == PostForest(ks) + PostOrder(k)
  {
    if ks == [] {
      assert [k][1..] == [] && [] + [k] == [k];
      assert PostOrder(k) + [] == PostOrder(k) && [] + PostOrder(k) == PostOrder(k);
    } else {
      assert (ks + [k])[1..] == ks[1..] + [k];
      PostForestPush(ks[1..], k);
      var x, y, z := PostOrder(ks[0]), PostForest(ks[1..]), PostOrder(k);
      assert x + (y + z) == (x + y) + z;
    }
  }

  /** Both orders list the same nodes, and as many. */
  lemma {:induction false} SameNodes(t: Node)
    ensures |PreOrder(t)| == |PostOrder(t)| && forall x :: x in PreOrder(t) <==> x in PostOrder(t)
    decreases t, 1
  {
    SameForest(t.kids);
  }

  lemma {:induction false} SameForest(ks: seq<Node>)
    ensures |PreForest(ks)| == |PostForest(ks)| && forall x :: x in PreForest(ks) <==> x in PostForest(ks)
    decreases ks, 0
  {
    if ks != [] {
      SameNodes(ks[0]);
      SameForest(ks[1..]);
    }
  }

  // ---------------------------------------------------------------- what the walks assign

  type Entries = seq<(nat, nat)>

  /** The fields after assigning the entries one by one. */
  function Assigned(m: map<nat, nat>, es: Entries): map<nat, nat>
    decreases |es|
  {
    if es == [] then m else Assigned(m[es[0].0 := es[0].1], es[1..])
  }

  lemma {:induction false} AssignedConcat(m: map<nat, nat>, a: Entries, b: Entries)
    ensures Assigned(m, a + b) == Assigned(Assigned(m, a), b)
    decreases |a|
  {
    if a == [] {
      assert a + b == b;
    } else {
      assert (a + b)[1..] == a[1..] + b;
      AssignedConcat(m[a[0].0 := a[0].1], a[1..], b);
    }
  }

  lemma {:induction false} AssignedKeeps(m: map<nat, nat>, es: Entries, x: nat)
    requires x in m && forall k :: 0 <= k < |es| ==> es[k].0 != x
    ensures x in Assigned(m, es) && Assigned(m, es)[x] == m[x]
    decreases |es|
  {
    if es != [] { AssignedKeeps(m[es[0].0 := es[0].1], es[1..], x); }
  }

  /** Entries that never give one node two values all hold at the end. */
  lemma {:induction false} AssignedAt(m: map<nat, nat>, es: Entries, k: nat)
    requires k < |es| && forall i, j :: 0 <= i < j < |es| && es[i].0 == es[j].0 ==> es[i].1 == es[j].1
    ensures es[k].0 in Assigned(m, es) && Assigned(m, es)[es[k].0] == es[k].1
    decreases |es|
  {
    var rest := es[1..];
    if k > 0 {
      AssignedAt(m[es[0].0 := es[0].1], rest, k - 1);
    } else if j :| 0 <= j < |rest| && rest[j].0 == es[0].0 {
      AssignedAt(m[es[0].0 := es[0].1], rest, j);
      assert rest[j] == es[j + 1];
    } else {
      AssignedKeeps(m[es[0].0 := es[0].1], rest, es[0].0);
    }
  }

  /** Preorder positions from base on. */
  function Numbers(s: seq<Node>, base: nat): Entries {
    seq(|s|, k requires 0 <= k < |s| => (s[k].id, base + k))
  }

  function Sizes(s: seq<Node>): Entries {
    seq(|s|, k requires 0 <= k < |s| => (s[k].id, |PreOrder(s[k])|))
  }

  /** Where the postorder of each subtree starts, parents first, when the whole one starts at base. */
  function Starts(t: Node, base: nat): Entries
    decreases t, 1
  {
    [(t.id, base)] + StartsAll(t.kids, base)
  }

  function StartsAll(ks: seq<Node>, base: nat): Entries
    decreases ks, 0
  {
    if ks == [] then [] else Starts(ks[0], base) + StartsAll(ks[1..], base + |PostOrder(ks[0])|)
  }

  lemma {:induction false} StartsPush(ks: seq<Node>, k: Node, base: nat)
    ensures StartsAll(ks + [k], base) == StartsAll(ks, base) + Starts(k, base + |PostForest(ks)|)
  {
    if ks == [] {
      assert [k][1..] == [] && [] + [k] == [k];
      assert Starts(k, base) + [] == Starts(k, base) && [] + Starts(k, base) == Starts(k, base);
    } else {
      assert (ks + [k])[1..] == ks[1..] + [k];
      StartsPush(ks[1..], k, base + |PostOrder(ks[0])|);
      var x, y := Starts(ks[0], base), StartsAll(ks[1..], base + |PostOrder(ks[0])|);
      var z := Starts(k, base + |PostForest(ks)|);
      assert x + (y + z) == (x + y) + z;
    }
  }

  /** The stretch of s from b on, as long as the subtree of x, is its postorder. */
  ghost predicate PostStretch(s: seq<Node>, x: Node, b: int) {
    0 <= b && b + |PostOrder(x)| <= |s| && s[b..b + |PostOrder(x)|] == PostOrder(x)
  }

  lemma StretchWithin(a: seq<Node>, s: seq<Node>, c: seq<Node>, x: Node, b: int)
    requires PostStretch(s, x, b)
    ensures PostStretch(a + s + c, x, |a| + b)
  {
    hide PostOrder;
    var size := |PostOrder(x)|;
    assert (a + s + c)[|a| + b..|a| + b + size] == s[b..b + size];
  }

  ghost predicate StartRight(pre: seq<Node>, post: seq<Node>, es: Entries, base: nat, k: nat) {
    k < |pre| && k < |es| && es[k].0 == pre[k].id && PostStretch(post, pre[k], es[k].1 - base)
  }

  /** Every entry is the start of the postorder of its node. */
  ghost predicate AllStart(pre: seq<Node>, post: seq<Node>, es: Entries, base: nat) {
    |es| == |pre| && forall k: nat :: k < |pre| ==> StartRight(pre, post, es, base, k)
  }

  /** More nodes before and after, and a lower base, move the entries along. */
  lemma StartsAlong(p1: seq<Node>, o1: seq<Node>, e1: Entries, pre: seq<Node>, post: seq<Node>, es: Entries,
                    p3: seq<Node>, o3: seq<Node>, e3: Entries, base: nat, k: nat)
    requires |e1| == |p1| && StartRight(pre, post, es, base + |o1|, k)
    ensures StartRight(p1 + pre + p3, o1 + post + o3, e1 + es + e3, base, |p1| + k)
  {
    StretchWithin(o1, post, o3, pre[k], es[k].1 - (base + |o1|));
    hide PostStretch;
  }

  lemma JoinStarts(pre1: seq<Node>, post1: seq<Node>, es1: Entries, pre2: seq<Node>, post2: seq<Node>, es2: Entries,
                   base: nat)
    requires AllStart(pre1, post1, es1, base) && AllStart(pre2, post2, es2, base + |post1|)
    ensures AllStart(pre1 + pre2, post1 + post2, es1 + es2, base)
  {
    hide PostStretch;
    forall k: nat | k < |pre1 + pre2| ensures StartRight(pre1 + pre2, post1 + post2, es1 + es2, base, k) {
      if k < |pre1| {
        assert StartRight(pre1, post1, es1, base, k);
        StartsAlong([], [], [], pre1, post1, es1, pre2, post2, es2, base, k);
        assert [] + pre1 + pre2 == pre1 + pre2 && [] + post1 + post2 == post1 + post2 && [] + es1 + es2 == es1 + es2;
      } else {
        assert StartRight(pre2, post2, es2, base + |post1|, k - |pre1|);
        StartsAlong(pre1, post1, es1, pre2, post2, es2, [], [], [], base, k - |pre1|);
        assert pre1 + pre2 + [] == pre1 + pre2 && post1 + post2 + [] == post1 + post2 && es1 + es2 + [] == es1 + es2;
      }
    }
  }

  lemma WholeStretch(t: Node)
    ensures PostStretch(PostOrder(t), t, 0)
  {
    assert PostOrder(t)[0..|PostOrder(t)|] == PostOrder(t);
  }

  lemma RootStarts(t: Node, pre: seq<Node>, post: seq<Node>, es: Entries, base: nat)
    requires AllStart(pre, post, es, base) && post + [t] == PostOrder(t)
    ensures AllStart([t] + pre, post + [t], [(t.id, base)] + es, base)
  {
    hide PostOrder, PostStretch;
    WholeStretch(t);
    var es2: Entries := [(t.id, base)] + es;
    forall k: nat | k < |[t] + pre| ensures StartRight([t] + pre, post + [t], es2, base, k) {
      if k > 0 {
        assert StartRight(pre, post, es, base, k - 1);
        StartsAlong([t], [], [(t.id, base)], pre, post, es, [], [t], [], base, k - 1);
        assert [t] + pre + [] == [t] + pre && [] + post + [t] == post + [t] && [(t.id, base)] + es + [] == es2;
      }
    }
  }

  /** The starts are those of the subtrees, in preorder. */
  lemma {:induction false} StartsRight(t: Node, base: nat)
    ensures AllStart(PreOrder(t), PostOrder(t), Starts(t, base), base)
    decreases t, 1
  {
    StartsAllRight(t.kids, base);
    RootStarts(t, PreForest(t.kids), PostForest(t.kids), StartsAll(t.kids, base), base);
  }

  lemma {:induction false} StartsAllRight(ks: seq<Node>, base: nat)
    ensures AllStart(PreForest(ks), PostForest(ks), StartsAll(ks, base), base)
    decreases ks, 0
  {
    if ks != [] {
      var base2 := base + |PostOrder(ks[0])|;
      StartsRight(ks[0], base);
      StartsAllRight(ks[1..], base2);
      JoinStarts(PreOrder(ks[0]), PostOrder(ks[0]), Starts(ks[0], base),
                 PreForest(ks[1..]), PostForest(ks[1..]), StartsAll(ks[1..], base2), base);
    }
  }
}
