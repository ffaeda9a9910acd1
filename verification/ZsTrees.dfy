/** Postorders of ordered trees, and the leftmost leaves and key roots that are computed from them. */
module ZsTrees {
  import opened ForestDistance

  /** A node with its subtree; ids tell nodes apart. */
  datatype Node = Node(id: nat, kids: seq<Node>)

  function PostOrder(t: Node): (r: seq<Node>)
    ensures r != [] && r[|r| - 1] == t
    decreases t, 1
  {
    PostForest(t.kids) + [t]
  }

  function PostForest(ks: seq<Node>): seq<Node>
    decreases ks, 0
  {
    if ks == [] then [] else PostOrder(ks[0]) + PostForest(ks[1..])
  }

  /** The subtree of node i is the stretch of the list that ends at i. */
  ghost predicate Block(s: seq<Node>, i: nat)
    requires i < |s|
  {
    |PostOrder(s[i])| <= i + 1 && s[i + 1 - |PostOrder(s[i])|..i + 1] == PostOrder(s[i])
  }

  ghost predicate Blocked(s: seq<Node>) {
    forall i: nat :: i < |s| ==> Block(s, i)
  }

  lemma BlockedConcat(a: seq<Node>, b: seq<Node>)
    requires Blocked(a) && Blocked(b)
    ensures Blocked(a + b)
  {
    hide Block;
    forall i: nat | i < |a + b| ensures Block(a + b, i) {
      if i < |a| { BlockBefore(a, b, i); } else { BlockAfter(a, b, i - |a|); }
    }
  }

  lemma BlockBefore(a: seq<Node>, b: seq<Node>, i: nat)
    requires i < |a| && Block(a, i)
    ensures Block(a + b, i)
  {
    hide PostOrder;
    var size := |PostOrder(a[i])|;
    assert (a + b)[i + 1 - size..i + 1] == a[i + 1 - size..i + 1];
  }

  lemma BlockAfter(a: seq<Node>, b: seq<Node>, i: nat)
    requires i < |b| && Block(b, i)
    ensures Block(a + b, |a| + i)
  {
    hide PostOrder;
    var size := |PostOrder(b[i])|;
    assert (a + b)[|a| + i + 1 - size..|a| + i + 1] == b[i + 1 - size..i + 1];
  }

  lemma {:induction false} TreeBlocked(t: Node)
    ensures Blocked(PostOrder(t))
    decreases t, 1
  {
    ForestBlocked(t.kids);
    var s, front := PostOrder(t), PostForest(t.kids);
    forall i: nat | i < |s| ensures Block(s, i) {
      if i < |front| {
        assert Block(front, i);
        var size := |PostOrder(front[i])|;
        assert s[i + 1 - size..i + 1] == front[i + 1 - size..i + 1];
      } else {
        assert s[i + 1 - |s|..i + 1] == s;
      }
    }
  }

  lemma {:induction false} ForestBlocked(ks: seq<Node>)
    ensures Blocked(PostForest(ks))
    decreases ks, 0
  {
    if ks != [] {
      TreeBlocked(ks[0]);
      ForestBlocked(ks[1..]);
      BlockedConcat(PostOrder(ks[0]), PostForest(ks[1..]));
    }
  }

  function LeftLeaf(t: Node): Node {
    if t.kids == [] then t else LeftLeaf(t.kids[0])
  }

  /** A postorder starts with the leftmost leaf. */
  lemma {:induction false} StartsLeft(t: Node)
    ensures PostOrder(t)[0] == LeftLeaf(t)
  {
    if t.kids != [] { StartsLeft(t.kids[0]); }
  }

  ghost predicate DistinctIds(s: seq<Node>) {
    forall i, k :: 0 <= i < k < |s| ==> s[i].id != s[k].id
  }

  /** Where the subtree of node i starts. */
  function StartOf(s: seq<Node>, i: nat): int
    requires i < |s|
  {
    i + 1 - |PostOrder(s[i])|
  }

  /** The leftmost leaf below each node is where its subtree starts. */
  method ComputeLLD(nodes: seq<Node>) returns (lld: seq<nat>)
    requires Blocked(nodes) && DistinctIds(nodes)
    ensures |lld| == |nodes| && forall i: nat :: i < |nodes| ==> lld[i] == StartOf(nodes, i)
  {
    hide PostOrder, LeftLeaf;
    var idxMap: map<nat, nat> := map[];
    for i := 0 to |nodes|
      invariant forall k :: 0 <= k < i ==> nodes[k].id in idxMap && idxMap[nodes[k].id] == k
    {
      idxMap := idxMap[nodes[i].id := i];
    }
    lld := [];
    for i := 0 to |nodes|
      invariant |lld| == i && forall k: nat :: k < i ==> lld[k] == StartOf(nodes, k)
    {
      var curr := Leftmost(nodes[i]);
      StartsLeft(nodes[i]);
      assert Block(nodes, i);
      assert nodes[StartOf(nodes, i)] == nodes[StartOf(nodes, i)..i + 1][0];
      assert curr == nodes[StartOf(nodes, i)];
      lld := lld + [idxMap[curr.id]];
    }
  }

  method Leftmost(n: Node) returns (curr: Node)
    ensures curr == LeftLeaf(n)
  {
    curr := n;
    while |curr.kids| > 0
      invariant LeftLeaf(curr) == LeftLeaf(n)
      decreases curr
    {
      curr := curr.kids[0];
    }
  }

  /** The starts of the subtrees of a tree nest, and the whole tree starts at zero. */
  lemma StartsNest(t: Node, lld: seq<nat>)
    requires |lld| == |PostOrder(t)| && forall i: nat :: i < |lld| ==> lld[i] == StartOf(PostOrder(t), i)
    ensures Nested(lld) && (forall k :: 0 <= k < |lld| ==> lld[k] <= k) && lld[|lld| - 1] == 0
  {
    var s := PostOrder(t);
    TreeBlocked(t);
    hide PostOrder;
    forall i: nat, k: nat | i < |lld| && lld[i] <= k <= i ensures lld[i] <= lld[k] <= k {
      assert Block(s, i);
      var sub := PostOrder(s[i]);
      TreeBlocked(s[i]);
      assert Block(sub, k - lld[i]);
      assert sub[k - lld[i]] == s[lld[i]..i + 1][k - lld[i]] == s[k];
    }
  }

  /** No node after node i, counted from 1, has the same leftmost leaf. */
  ghost predicate Topmost(lld: seq<nat>, i: nat)
    requires 0 < i <= |lld|
  {
    forall k :: i <= k < |lld| ==> lld[k] != lld[i - 1]
  }

  /** The numbers from 1 on of the highest node above each leftmost leaf, from the root down. */
  ghost predicate KeyRoots(lld: seq<nat>, kr: seq<nat>) {
    && (forall k :: 0 <= k < |kr| ==> 0 < kr[k] <= |lld|)
    && (forall k, l :: 0 <= k < l < |kr| ==> kr[k] > kr[l])
    && forall i: nat :: 0 < i <= |lld| ==> (i in kr <==> Topmost(lld, i))
  }

  method ComputeKeyRoots(lld: seq<nat>) returns (kr: seq<nat>)
    requires forall k :: 0 <= k < |lld| ==> lld[k] <= k
    ensures KeyRoots(lld, kr)
  {
    var visited := new bool[|lld|](_ => false);
    kr := [];
    var i := |lld|;
    while i > 0
      invariant 0 <= i <= |lld|
      invariant forall l: nat :: l < |lld| ==> (visited[l] <==> exists k :: i <= k < |lld| && lld[k] == l)
      invariant forall k :: 0 <= k < |kr| ==> i < kr[k] <= |lld|
      invariant forall k, l :: 0 <= k < l < |kr| ==> kr[k] > kr[l]
      invariant forall x: nat :: i < x <= |lld| ==> (x in kr <==> Topmost(lld, x))
    {
      var l := lld[i - 1];
      assert Topmost(lld, i) <==> !visited[l];
      if !visited[l] {
        visited[l] := true;
        kr := kr + [i];
      }
      i := i - 1;
    }
  }
}
