/** Building the index of a tree, and the queries that it answers without walking the tree. */
module TreeQueries {
  import opened ZsTrees
  import opened TreeIndex

  /** The labels of nodes, by id. */
  type Labels = nat -> string

  // ---------------------------------------------------------------- counting leaves

  /** Leaves with this label, counted by walking the tree. */
  function Frequency(labelOf: Labels, n: Node, text: string): nat
    decreases n, 1
  {
    if n.kids == [] then (if labelOf(n.id) == text then 1 else 0) else FrequencyAll(labelOf, n.kids, text)
  }

  function FrequencyAll(labelOf: Labels, ks: seq<Node>, text: string): nat
    decreases ks, 0
  {
    if ks == [] then 0 else Frequency(labelOf, ks[0], text) + FrequencyAll(labelOf, ks[1..], text)
  }

  predicate IsLeaf(labelOf: Labels, n: Node, text: string) {
    n.kids == [] && labelOf(n.id) == text
  }

  /** Leaves with this label in a list of nodes. */
  function Count(labelOf: Labels, s: seq<Node>, text: string): nat {
    if s == [] then 0 else (if IsLeaf(labelOf, s[0], text) then 1 else 0) + Count(labelOf, s[1..], text)
  }

  lemma {:induction false} CountConcat(labelOf: Labels, a: seq<Node>, b: seq<Node>, text: string)
    ensures Count(labelOf, a + b, text) == Count(labelOf, a, text) + Count(labelOf, b, text)
  {
    if a == [] {
      assert a + b == b;
    } else {
      assert (a + b)[1..] == a[1..] + b;
      CountConcat(labelOf, a[1..], b, text);
    }
  }

  lemma CountOne(labelOf: Labels, n: Node, text: string)
    ensures Count(labelOf, [n], text) == if IsLeaf(labelOf, n, text) then 1 else 0
  {
    assert [n][1..] == [];
  }

  /** Counting in either order of the subtree is counting by walking it. */
  lemma {:induction false} CountIsFrequency(labelOf: Labels, n: Node, text: string)
    ensures Count(labelOf, PostOrder(n), text) == Frequency(labelOf, n, text) == Count(labelOf, PreOrder(n), text)
    decreases n, 1
  {
    CountIsFrequencyAll(labelOf, n.kids, text);
    CountConcat(labelOf, PostForest(n.kids), [n], text);
    CountConcat(labelOf, [n], PreForest(n.kids), text);
    CountOne(labelOf, n, text);
  }

  lemma {:induction false} CountIsFrequencyAll(labelOf: Labels, ks: seq<Node>, text: string)
    ensures Count(labelOf, PostForest(ks), text) == FrequencyAll(labelOf, ks, text)
      == Count(labelOf, PreForest(ks), text)
    decreases ks, 0
  {
    if ks != [] {
      CountIsFrequency(labelOf, ks[0], text);
      CountIsFrequencyAll(labelOf, ks[1..], text);
      CountConcat(labelOf, PostOrder(ks[0]), PostForest(ks[1..]), text);
      CountConcat(labelOf, PreOrder(ks[0]), PreForest(ks[1..]), text);
    }
  }

  /** The positions before n of the leaves with this label. */
  function Positions(labelOf: Labels, s: seq<Node>, text: string, n: nat): seq<nat>
    requires n <= |s|
  {
    if n == 0 then []
    else Positions(labelOf, s, text, n - 1) + if IsLeaf(labelOf, s[n - 1], text) then [n - 1] else []
  }

  /** The first positions, and only they, come before x. */
  ghost predicate Splits(positions: seq<nat>, x: nat, split: nat) {
    && split <= |positions| && (forall k :: 0 <= k < split ==> positions[k] < x)
    && forall k :: split <= k < |positions| ==> positions[k] >= x
  }

  /** The positions before x are the first of all the positions. */
  lemma {:induction false} PositionsSplit(labelOf: Labels, s: seq<Node>, text: string, x: nat, n: nat)
    requires x <= n <= |s|
    ensures Splits(Positions(labelOf, s, text, n), x, |Positions(labelOf, s, text, x)|)
    decreases n
  {
    if x < n {
      PositionsSplit(labelOf, s, text, x, n - 1);
    } else {
      PositionsBefore(labelOf, s, text, x);
    }
  }

  lemma {:induction false} PositionsBefore(labelOf: Labels, s: seq<Node>, text: string, n: nat)
    requires n <= |s|
    ensures forall k :: 0 <= k < |Positions(labelOf, s, text, n)| ==> Positions(labelOf, s, text, n)[k] < n
  {
    if n > 0 { PositionsBefore(labelOf, s, text, n - 1); }
  }

  /** As many positions from a up to b as leaves in that stretch. */
  lemma {:induction false} PositionsCount(labelOf: Labels, s: seq<Node>, text: string, a: nat, b: nat)
    requires a <= b <= |s|
    ensures |Positions(labelOf, s, text, b)| == |Positions(labelOf, s, text, a)| + Count(labelOf, s[a..b], text)
    decreases b
  {
    if a < b {
      PositionsCount(labelOf, s, text, a, b - 1);
      assert s[a..b] == s[a..b - 1] + [s[b - 1]];
      CountConcat(labelOf, s[a..b - 1], [s[b - 1]], text);
      CountOne(labelOf, s[b - 1], text);
    }
  }

  /** The leaves of a subtree with a label are the ones between the positions where its stretch starts and ends. */
  lemma LeafStretch(labelOf: Labels, post: seq<Node>, n: Node, text: string, start: nat, end: nat)
    requires PostStretch(post, n, start) && end == start + |PostOrder(n)|
    ensures end <= |post|
    ensures Splits(Positions(labelOf, post, text, |post|), start, |Positions(labelOf, post, text, start)|)
    ensures Splits(Positions(labelOf, post, text, |post|), end, |Positions(labelOf, post, text, end)|)
    ensures |Positions(labelOf, post, text, end)|
      == |Positions(labelOf, post, text, start)| + Frequency(labelOf, n, text)
  {
    CountIsFrequency(labelOf, n, text);
    PositionsCount(labelOf, post, text, start, end);
    PositionsSplit(labelOf, post, text, start, |post|);
    PositionsSplit(labelOf, post, text, end, |post|);
  }

  // ---------------------------------------------------------------- the index

  /** What an index of root holds. */
  ghost predicate Indexed(root: Node, nodes: seq<Node>, post: seq<Node>, ids: map<nat, nat>, sizes: map<nat, nat>,
                          starts: map<nat, nat>) {
    && nodes == PreOrder(root) && post == PostOrder(root)
    && (forall k :: 0 <= k < |nodes| ==> nodes[k].id in ids && ids[nodes[k].id] == k)
    && (forall n :: n in nodes ==> n.id in sizes && sizes[n.id] == |PreOrder(n)|)
    && forall n :: n in nodes ==> n.id in starts && PostStretch(post, n, starts[n.id])
  }

  ghost predicate LabelsIndexed(labelOf: Labels, post: seq<Node>, labels: map<string, seq<nat>>, n: nat)
    requires n <= |post|
  {
    forall text :: text != "" ==>
      (if text in labels then labels[text] else []) == Positions(labelOf, post, text, n)
  }

  class Index {
    const labelOf: Labels
    var nodes: seq<Node>
    var postOrder: seq<Node>
    var ids: map<nat, nat>
    var preSizes: map<nat, nat>
    var postStarts: map<nat, nat>
    var labels: map<string, seq<nat>>

    ghost predicate Valid(root: Node)
      reads this
    {
      && DistinctIds(PreOrder(root)) && Indexed(root, nodes, postOrder, ids, preSizes, postStarts)
      && LabelsIndexed(labelOf, postOrder, labels, |postOrder|)
    }

    predicate Empty()
      reads this
    {
      nodes == [] && postOrder == [] && ids == map[] && preSizes == map[] && postStarts == map[] && labels == map[]
    }

    constructor (labelOf: Labels)
      ensures this.labelOf == labelOf && Empty()
    {
      this.labelOf := labelOf;
      nodes, postOrder, ids, preSizes, postStarts, labels := [], [], map[], map[], map[], map[];
    }

    /** Numbers a subtree, parents first, and sizes it on the way back. */
    method WalkPre(n: Node) returns (size: nat)
      modifies this`nodes, this`ids, this`preSizes
      ensures nodes == old(nodes) + PreOrder(n) && size == |PreOrder(n)|
      ensures ids == Assigned(old(ids), Numbers(PreOrder(n), |old(nodes)|))
      ensures preSizes == Assigned(old(preSizes), Sizes(PostOrder(n)))
      decreases n
    {
      ghost var nodes0, ids0, sizes0 := nodes, ids, preSizes;
      hide Assigned, Numbers, Sizes, PostOrder, PreForest, PostForest;
      ids := ids[n.id := |nodes|];
      nodes := nodes + [n];
      size := 1;
      WalkPreStart(nodes0, ids0, sizes0, n);
      for i := 0 to |n.kids|
        invariant WalkingPre(nodes0, ids0, sizes0, n, i, nodes, ids, preSizes, size)
      {
        var more := WalkPre(n.kids[i]);
        WalkPreNext(nodes0, ids0, sizes0, n, i, size);
        size := size + more;
      }
      assert n.kids[..|n.kids|] == n.kids;
      WalkPreEnd(nodes0, ids0, sizes0, n, size);
      preSizes := preSizes[n.id := size];
    }

    /** Lists a subtree, children first, and notes where each of its subtrees starts. */
    method WalkPost(n: Node)
      modifies this`postOrder, this`postStarts
      ensures postOrder == old(postOrder) + PostOrder(n)
      ensures postStarts == Assigned(old(postStarts), Starts(n, |old(postOrder)|))
      decreases n
    {
      ghost var post0, starts0 := postOrder, postStarts;
      hide Assigned, Starts, StartsAll, PostForest;
      postStarts := postStarts[n.id := |postOrder|];
      WalkPostStart(post0, starts0, n);
      for i := 0 to |n.kids|
        invariant WalkingPost(post0, starts0, n, i, postOrder, postStarts)
      {
        WalkPost(n.kids[i]);
        WalkPostNext(post0, starts0, n, i);
      }
      assert n.kids[..|n.kids|] == n.kids;
      WalkPostEnd(post0, n);
      postOrder := postOrder + [n];
    }

    /** Files every labelled leaf under its label, in postorder. */
    method IndexLabels()
      requires labels == map[]
      modifies this`labels
      ensures LabelsIndexed(labelOf, postOrder, labels, |postOrder|)
    {
      LabelsStart(labelOf, postOrder);
      hide LabelsIndexed, Positions;
      for pos := 0 to |postOrder|
        invariant LabelsIndexed(labelOf, postOrder, labels, pos)
      {
        LabelsNext(labelOf, postOrder, labels, pos);
        var node := postOrder[pos];
        var text := labelOf(node.id);
        if |node.kids| == 0 && text != "" {
          labels := labels[text := (if text in labels then labels[text] else []) + [pos]];
        }
      }
    }

    /** The three passes over the tree, unless it has been indexed; then any of its nodes finds the index as it is. */
    method EnsureIndex(n: Node, ghost root: Node)
      requires DistinctIds(PreOrder(root)) && if Empty() then n == root else Valid(root) && n in nodes
      modifies this
      ensures Valid(root) && (old(!Empty()) ==> unchanged(this))
    {
      hide Assigned, PreOrder, PostOrder, LabelsIndexed;
      if !Empty() { IndexedNode(n, root); }
      if n.id in preSizes && preSizes[n.id] > 0 { return; }
      var size := WalkPre(n);
      WalkPost(n);
      IndexLabels();
      assert [] + PreOrder(n) == PreOrder(n) && [] + PostOrder(n) == PostOrder(n);
      WalksIndex(n);
    }

    lemma IndexedNode(n: Node, root: Node)
      requires Valid(root) && n in nodes
      ensures n.id in preSizes && preSizes[n.id] > 0
    {
    }

    // -------------------------------------------------------------- the queries

    /** The interval test answers whether climbing from candidate by parents meets n. */
    method Contains(n: Node, candidate: Node, ghost root: Node) returns (r: bool)
      requires Valid(root) && n in nodes && candidate in nodes
      ensures r <==> Below(candidate, n)
    {
      hide PreOrder, LabelsIndexed;
      InPreBlock(root, n, candidate, nodes, ids, preSizes);
      if n.id == candidate.id { return false; }
      r := ids[candidate.id] > ids[n.id] && ids[candidate.id] < ids[n.id] + preSizes[n.id];
    }

    method PreOrderOf(n: Node, ghost root: Node) returns (out: seq<Node>)
      requires Valid(root) && n in nodes
      ensures out == PreOrder(n)
    {
      hide LabelsIndexed;
      NodeBlock(root, n, nodes, ids, preSizes);
      out := nodes[ids[n.id]..ids[n.id] + preSizes[n.id]];
    }

    method DescendantsOf(n: Node, ghost root: Node) returns (out: seq<Node>)
      requires Valid(root) && n in nodes
      ensures out == PreForest(n.kids)
    {
      hide LabelsIndexed;
      hide PostOrder;
      NodeBlock(root, n, nodes, ids, preSizes);
      var size := preSizes[n.id];
      TailStretch(nodes, n, ids[n.id], size);
      if size <= 1 { return []; }
      out := nodes[ids[n.id] + 1..ids[n.id] + size];
    }

    method PostOrderOf(n: Node, ghost root: Node) returns (out: seq<Node>)
      requires Valid(root) && n in nodes
      ensures out == PostOrder(n)
    {
      hide LabelsIndexed;
      SameNodes(n);
      out := postOrder[postStarts[n.id]..postStarts[n.id] + preSizes[n.id]];
    }

    /** Two binary searches count the leaves with a label as a walk of the subtree does. */
    method FrequencyInSubtree(n: Node, text: string, ghost root: Node) returns (count: nat)
      requires Valid(root) && n in nodes
      ensures count == if text == "" then 0 else Frequency(labelOf, n, text)
    {
      if text == "" { return 0; }
      var positions := if text in labels then labels[text] else [];
      var start := postStarts[n.id];
      var end := start + preSizes[n.id];
      SameNodes(n);
      LeafStretch(labelOf, postOrder, n, text, start, end);
      hide PreOrder, PostOrder, Frequency, Positions, Indexed, PostStretch;
      if |positions| == 0 { return 0; }
      var left := Search(positions, start, |Positions(labelOf, postOrder, text, start)|);
      var right := Search(positions, end, |Positions(labelOf, postOrder, text, end)|);
      count := right - left;
    }

    /** The counts of all labels in the subtree, from its stretch of the preorder. */
    method LeafLabels(n: Node, ghost root: Node) returns (counts: map<string, nat>)
      requires Valid(root) && n in nodes
      ensures forall text :: text in counts <==> text != "" && Frequency(labelOf, n, text) > 0
      ensures forall text :: text in counts ==> counts[text] == Frequency(labelOf, n, text)
    {
      var sub := PreOrderOf(n, root);
      counts := map[];
      hide CountsRight;
      NoCounts(labelOf);
      assert sub[..0] == [];
      for i := 0 to |sub|
        invariant CountsRight(labelOf, sub[..i], counts)
      {
        var d := sub[i];
        var own := labelOf(d.id);
        assert sub[..i + 1] == sub[..i] + [d];
        CountsNext(labelOf, sub[..i], counts, d);
        if |d.kids| == 0 && own != "" { counts := counts[own := (if own in counts then counts[own] else 0) + 1]; }
      }
      assert sub[..|sub|] == sub;
      forall text
        ensures text in counts <==> text != "" && Frequency(labelOf, n, text) > 0
        ensures text in counts ==> counts[text] == Frequency(labelOf, n, text)
      {
        CountsAt(labelOf, sub, counts, text);
        CountIsFrequency(labelOf, n, text);
      }
    }
  }

  lemma NoCounts(labelOf: Labels)
    ensures CountsRight(labelOf, [], map[])
  {
  }

  lemma CountsAt(labelOf: Labels, s: seq<Node>, counts: map<string, nat>, text: string)
    requires CountsRight(labelOf, s, counts)
    ensures CountRight(labelOf, s, counts, text)
  {
  }

  /** Filing one more leaf keeps all labels right. */
  lemma LabelsStart(labelOf: Labels, post: seq<Node>)
    ensures LabelsIndexed(labelOf, post, map[], 0)
  {
  }

  lemma LabelsNext(labelOf: Labels, post: seq<Node>, labels: map<string, seq<nat>>, pos: nat)
    requires pos < |post| && LabelsIndexed(labelOf, post, labels, pos)
    ensures var text := labelOf(post[pos].id);
            LabelsIndexed(labelOf, post,
              if post[pos].kids == [] && text != "" then
                labels[text := (if text in labels then labels[text] else []) + [pos]]
              else labels, pos + 1)
  {
    forall text | text != "" && !IsLeaf(labelOf, post[pos], text)
      ensures Positions(labelOf, post, text, pos + 1) == Positions(labelOf, post, text, pos)
    {
      assert Positions(labelOf, post, text, pos) + [] == Positions(labelOf, post, text, pos);
    }
  }

  /** The counts of the labels in a list of nodes, the empty label left out. */
  ghost predicate CountsRight(labelOf: Labels, s: seq<Node>, counts: map<string, nat>) {
    forall text :: CountRight(labelOf, s, counts, text)
  }

  ghost predicate CountRight(labelOf: Labels, s: seq<Node>, counts: map<string, nat>, text: string) {
    && (text in counts <==> text != "" && Count(labelOf, s, text) > 0)
    && (text in counts ==> counts[text] == Count(labelOf, s, text))
  }

  lemma CountsNext(labelOf: Labels, s: seq<Node>, counts: map<string, nat>, d: Node)
    requires CountsRight(labelOf, s, counts)
    ensures var own := labelOf(d.id);
            CountsRight(labelOf, s + [d], if d.kids == [] && own != "" then
              counts[own := (if own in counts then counts[own] else 0) + 1] else counts)
  {
    var own := labelOf(d.id);
    var more :=
      if d.kids == [] && own != "" then counts[own := (if own in counts then counts[own] else 0) + 1] else counts;
    forall text ensures CountRight(labelOf, s + [d], more, text) {
      assert CountRight(labelOf, s, counts, text);
      CountConcat(labelOf, s, [d], text);
      CountOne(labelOf, d, text);
    }
  }

  /** The first of the ascending positions that is not below x. */
  method Search(positions: seq<nat>, x: nat, ghost split: nat) returns (low: nat)
    requires Splits(positions, x, split)
    ensures low == split
  {
    var high := |positions|;
    low := 0;
    while low < high
      invariant low <= split <= high <= |positions|
    {
      var mid := (low + high) / 2;
      if positions[mid] < x { low := mid + 1; } else { high := mid; }
    }
  }

  lemma TailStretch(nodes: seq<Node>, n: Node, p: nat, size: nat)
    requires p + size <= |nodes| && nodes[p..p + size] == PreOrder(n)
    ensures size > 0 && nodes[p + 1..p + size] == PreForest(n.kids)
  {
    assert nodes[p..p + size][1..] == nodes[p + 1..p + size];
    assert PreOrder(n)[1..] == PreForest(n.kids);
  }

  lemma NodeBlock(root: Node, n: Node, nodes: seq<Node>, ids: map<nat, nat>, sizes: map<nat, nat>)
    requires nodes == PreOrder(root) && n in nodes
    requires forall k :: 0 <= k < |nodes| ==> nodes[k].id in ids && ids[nodes[k].id] == k
    requires n.id in sizes && sizes[n.id] == |PreOrder(n)|
    ensures ids[n.id] + sizes[n.id] <= |nodes| && nodes[ids[n.id]..ids[n.id] + sizes[n.id]] == PreOrder(n)
  {
    TreePreBlocked(root);
    var k :| 0 <= k < |nodes| && nodes[k] == n;
    assert PreBlock(nodes, k);
  }

  lemma InPreBlock(root: Node, n: Node, c: Node, nodes: seq<Node>, ids: map<nat, nat>, sizes: map<nat, nat>)
    requires nodes == PreOrder(root) && n in nodes && c in nodes
    requires forall k :: 0 <= k < |nodes| ==> nodes[k].id in ids && ids[nodes[k].id] == k
    requires n.id in sizes && sizes[n.id] == |PreOrder(n)|
    ensures Below(c, n) <==> ids[n.id] < ids[c.id] < ids[n.id] + sizes[n.id]
    ensures n.id == c.id <==> ids[n.id] == ids[c.id]
  {
    NodeBlock(root, n, nodes, ids, sizes);
    BelowInOrder(c, n);
    var i :| 0 <= i < |nodes| && nodes[i] == c;
    assert ids[c.id] == i && PreOrder(n) == [n] + PreForest(n.kids);
    forall k | 0 <= k < |nodes| && nodes[k] == c ensures k == i { assert ids[nodes[k].id] == k; }
    InStretch(nodes, n, PreForest(n.kids), c, ids[n.id], i);
  }

  /** A node is in the stretch after n exactly when its position is. */
  lemma InStretch(nodes: seq<Node>, n: Node, rest: seq<Node>, c: Node, p: nat, i: nat)
    requires p + 1 + |rest| <= |nodes| && nodes[p..p + 1 + |rest|] == [n] + rest
    requires i < |nodes| && nodes[i] == c && forall k :: 0 <= k < |nodes| && nodes[k] == c ==> k == i
    ensures c in rest <==> p < i < p + 1 + |rest|
  {
    if c in rest {
      var k :| 0 <= k < |rest| && rest[k] == c;
      assert ([n] + rest)[k + 1] == nodes[p + k + 1];
    }
    if p < i < p + 1 + |rest| {
      assert ([n] + rest)[i - p] == nodes[i];
      assert rest[i - p - 1] == c;
    }
  }

  lemma SameId(pre: seq<Node>, a: Node, b: Node)
    requires DistinctIds(pre) && a in pre && b in pre && a.id == b.id
    ensures a == b
  {
    var i :| 0 <= i < |pre| && pre[i] == a;
    var j :| 0 <= j < |pre| && pre[j] == b;
  }

  lemma NumbersRight(pre: seq<Node>)
    requires DistinctIds(pre)
    ensures var ids := Assigned(map[], Numbers(pre, 0));
            forall k :: 0 <= k < |pre| ==> pre[k].id in ids && ids[pre[k].id] == k
  {
    forall k | 0 <= k < |pre|
      ensures pre[k].id in Assigned(map[], Numbers(pre, 0)) && Assigned(map[], Numbers(pre, 0))[pre[k].id] == k
    {
      AssignedAt(map[], Numbers(pre, 0), k);
    }
  }

  lemma SizesRight(pre: seq<Node>, post: seq<Node>)
    requires DistinctIds(pre) && forall x :: x in pre <==> x in post
    ensures var sizes := Assigned(map[], Sizes(post));
            forall n :: n in pre ==> n.id in sizes && sizes[n.id] == |PreOrder(n)|
  {
    hide PreOrder;
    forall i, j | 0 <= i < j < |post| && post[i].id == post[j].id ensures post[i] == post[j] {
      assert post[i] in post && post[j] in post;
      SameId(pre, post[i], post[j]);
    }
    forall n | n in pre
      ensures n.id in Assigned(map[], Sizes(post)) && Assigned(map[], Sizes(post))[n.id] == |PreOrder(n)|
    {
      var k :| 0 <= k < |post| && post[k] == n;
      AssignedAt(map[], Sizes(post), k);
    }
  }

  lemma StartsAssigned(pre: seq<Node>, post: seq<Node>, es: Entries)
    requires DistinctIds(pre) && AllStart(pre, post, es, 0)
    ensures var starts := Assigned(map[], es);
            forall n :: n in pre ==> n.id in starts && PostStretch(post, n, starts[n.id])
  {
    hide PostStretch;
    forall k: nat | k < |pre| ensures es[k].0 == pre[k].id && PostStretch(post, pre[k], es[k].1) {
      assert StartRight(pre, post, es, 0, k);
    }
    forall n | n in pre ensures n.id in Assigned(map[], es) && PostStretch(post, n, Assigned(map[], es)[n.id]) {
      var k: nat :| k < |pre| && pre[k] == n;
      AssignedAt(map[], es, k);
    }
  }

  /** What the two walks assigned is right for every node. */
  lemma WalksIndex(root: Node)
    requires DistinctIds(PreOrder(root))
    ensures Indexed(root, PreOrder(root), PostOrder(root), Assigned(map[], Numbers(PreOrder(root), 0)),
                    Assigned(map[], Sizes(PostOrder(root))), Assigned(map[], Starts(root, 0)))
  {
    hide PreOrder, PostOrder, Starts, Assigned, AllStart, PostStretch;
    NumbersRight(PreOrder(root));
    SameNodes(root);
    SizesRight(PreOrder(root), PostOrder(root));
    StartsRight(root, 0);
    StartsAssigned(PreOrder(root), PostOrder(root), Starts(root, 0));
  }

  ghost predicate WalkingPost(post0: seq<Node>, starts0: map<nat, nat>, n: Node, i: nat, post: seq<Node>,
                              starts: map<nat, nat>) {
    && i <= |n.kids| && post == post0 + PostForest(n.kids[..i])
    && starts == Assigned(starts0, [(n.id, |post0|)] + StartsAll(n.kids[..i], |post0|))
  }

  lemma WalkPostStart(post0: seq<Node>, starts0: map<nat, nat>, n: Node)
    ensures WalkingPost(post0, starts0, n, 0, post0, starts0[n.id := |post0|])
  {
    assert n.kids[..0] == [];
    var es: Entries := [(n.id, |post0|)];
    assert es + [] == es && es[1..] == [];
    assert post0 + [] == post0;
  }

  lemma WalkPostNext(post0: seq<Node>, starts0: map<nat, nat>, n: Node, i: nat)
    requires i < |n.kids|
    ensures var done, es := post0 + PostForest(n.kids[..i]), [(n.id, |post0|)] + StartsAll(n.kids[..i], |post0|);
            WalkingPost(post0, starts0, n, i + 1, done + PostOrder(n.kids[i]),
                        Assigned(Assigned(starts0, es), Starts(n.kids[i], |done|)))
  {
    var k := n.kids[i];
    var done, es := post0 + PostForest(n.kids[..i]), [(n.id, |post0|)] + StartsAll(n.kids[..i], |post0|);
    assert n.kids[..i + 1] == n.kids[..i] + [k];
    PostForestPush(n.kids[..i], k);
    StartsPush(n.kids[..i], k, |post0|);
    AssignedConcat(starts0, es, Starts(k, |done|));
    hide PostForest, Assigned, PostOrder, Starts, StartsAll;
    assert post0 + (PostForest(n.kids[..i]) + PostOrder(k)) == done + PostOrder(k);
    assert [(n.id, |post0|)] + (StartsAll(n.kids[..i], |post0|) + Starts(k, |done|)) == es + Starts(k, |done|);
  }

  lemma WalkPostEnd(post0: seq<Node>, n: Node)
    ensures post0 + PostForest(n.kids) + [n] == post0 + PostOrder(n)
    ensures Starts(n, |post0|) == [(n.id, |post0|)] + StartsAll(n.kids, |post0|)
  {
    assert post0 + PostForest(n.kids) + [n] == post0 + (PostForest(n.kids) + [n]);
  }

  /** The walk has done the first i children of n. */
  ghost predicate WalkingPre(nodes0: seq<Node>, ids0: map<nat, nat>, sizes0: map<nat, nat>, n: Node, i: nat,
                             nodes: seq<Node>, ids: map<nat, nat>, sizes: map<nat, nat>, size: nat) {
    && i <= |n.kids| && nodes == nodes0 + ([n] + PreForest(n.kids[..i])) && size == 1 + |PreForest(n.kids[..i])|
    && ids == Assigned(ids0, Numbers([n] + PreForest(n.kids[..i]), |nodes0|))
    && sizes == Assigned(sizes0, Sizes(PostForest(n.kids[..i])))
  }

  lemma WalkPreStart(nodes0: seq<Node>, ids0: map<nat, nat>, sizes0: map<nat, nat>, n: Node)
    ensures WalkingPre(nodes0, ids0, sizes0, n, 0, nodes0 + [n], ids0[n.id := |nodes0|], sizes0, 1)
  {
    assert n.kids[..0] == [] && [n] + [] == [n];
    var es := Numbers([n], |nodes0|);
    assert es == [(n.id, |nodes0|)] && es[1..] == [];
    assert Sizes([]) == [];
  }

  lemma NumbersConcat(a: seq<Node>, b: seq<Node>, base: nat)
    ensures Numbers(a + b, base) == Numbers(a, base) + Numbers(b, base + |a|)
  {
  }

  lemma SizesConcat(a: seq<Node>, b: seq<Node>)
    ensures Sizes(a + b) == Sizes(a) + Sizes(b)
  {
  }

  lemma WalkPreNext(nodes0: seq<Node>, ids0: map<nat, nat>, sizes0: map<nat, nat>, n: Node, i: nat, size: nat)
    requires i < |n.kids| && size == 1 + |PreForest(n.kids[..i])|
    ensures var done, k := [n] + PreForest(n.kids[..i]), n.kids[i];
            WalkingPre(nodes0, ids0, sizes0, n, i + 1, nodes0 + done + PreOrder(k),
                       Assigned(Assigned(ids0, Numbers(done, |nodes0|)), Numbers(PreOrder(k), |nodes0 + done|)),
                       Assigned(Assigned(sizes0, Sizes(PostForest(n.kids[..i]))), Sizes(PostOrder(k))),
                       size + |PreOrder(k)|)
  {
    var done, k := [n] + PreForest(n.kids[..i]), n.kids[i];
    assert n.kids[..i + 1] == n.kids[..i] + [k];
    PreForestPush(n.kids[..i], k);
    PostForestPush(n.kids[..i], k);
    hide PreForest, PostForest, Assigned, PreOrder, PostOrder;
    NumbersConcat(done, PreOrder(k), |nodes0|);
    AssignedConcat(ids0, Numbers(done, |nodes0|), Numbers(PreOrder(k), |nodes0 + done|));
    SizesConcat(PostForest(n.kids[..i]), PostOrder(k));
    AssignedConcat(sizes0, Sizes(PostForest(n.kids[..i])), Sizes(PostOrder(k)));
    hide Numbers, Sizes;
    assert [n] + (PreForest(n.kids[..i]) + PreOrder(k)) == done + PreOrder(k);
    assert nodes0 + (done + PreOrder(k)) == nodes0 + done + PreOrder(k);
  }

  lemma WalkPreEnd(nodes0: seq<Node>, ids0: map<nat, nat>, sizes0: map<nat, nat>, n: Node, size: nat)
    requires size == 1 + |PreForest(n.kids)|
    ensures n.kids[..|n.kids|] == n.kids && PreOrder(n) == [n] + PreForest(n.kids)
    ensures Assigned(sizes0, Sizes(PostForest(n.kids)))[n.id := size] == Assigned(sizes0, Sizes(PostOrder(n)))
  {
    SizesConcat(PostForest(n.kids), [n]);
    var last := Sizes([n]);
    assert last == [(n.id, size)] && last[1..] == [];
    AssignedConcat(sizes0, Sizes(PostForest(n.kids)), last);
  }
}
