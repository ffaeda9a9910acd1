/** The whole generator: copy the source, visit the target breadth-first, delete what is left over. */
module Generator {
  import opened Lists
  import opened Trees
  import opened ScriptSpec
  import opened ScriptSteps
  import opened Ledgers
  import opened WorkingCopy
  import opened Traversal
  import opened Deletion
  import opened DeepCopies
  import opened EditScripts
  import opened Mappings
  import opened MoveCounts
  import opened MoveBounds

  // ---------------------------------------------------------------- the problem a call poses

  /** The pairs whose source node is in the source tree, read from target to source. */
  function Matched(dstMap: map<Node, Node>, names: set<Node>): map<Node, Node> {
    map y | y in dstMap && dstMap[y] in names :: dstMap[y]
  }

  function SourceNodes(src: Option<Tree>): set<Node> {
    if src.Some? then src.value.kids.Keys else {}
  }

  function Posed(src: Option<Tree>, dst: Tree, dstMap: map<Node, Node>): Problem {
    Problem(UnderFakeRoot(src), dst, Matched(dstMap, SourceNodes(src)))
  }

  /** Two parsed files without common nodes, pairs between them only, and the two roots paired. */
  ghost predicate Comparable(src: Option<Tree>, dst: Tree, srcMap: map<Node, Node>) {
    && (src.Some? ==> IsAst(src.value)) && IsAst(dst)
    && SourceNodes(src) !! dst.kids.Keys
    && (forall a {:trigger srcMap[a]} :: a in srcMap && a in SourceNodes(src) ==> srcMap[a] in dst.kids)
    && (src.Some? ==> src.value.root in srcMap && srcMap[src.value.root] == dst.root)
  }

  lemma PosedBase(src: Option<Tree>)
    requires src.Some? ==> IsAst(src.value)
    ensures var b := UnderFakeRoot(src);
            && IsTree(b) && b.root == FakeRoot && b.parent.Keys == SourceNodes(src)
            && b.kids.Keys == SourceNodes(src) + {FakeRoot}
            && (forall n {:trigger b.labels[n]} :: n in b.parent ==> b.labels[n] == Text(n))
            && b.kids[FakeRoot] == if src.Some? then [src.value.root] else []
  {
    UnderFakeRootIsTree(src);
  }

  lemma PosedSound(src: Option<Tree>, dst: Tree, srcMap: map<Node, Node>, dstMap: map<Node, Node>)
    requires Comparable(src, dst, srcMap) && Inverse(srcMap, dstMap)
    ensures Sound(Posed(src, dst, dstMap))
  {
    PosedBase(src);
    var j := Posed(src, dst, dstMap);
    forall x | x in j.match0 ensures x in j.dst.kids && j.match0[x] in j.base.parent {
      assert srcMap[dstMap[x]] == x;
    }
    if src.Some? {
      assert dstMap[srcMap[src.value.root]] == src.value.root;
    }
  }

  // ---------------------------------------------------------------- starting the state

  /** Copies the source under the fake root. */
  method CopySource(src: Option<Tree>) returns (at: Nodes)
    requires src.Some? ==> IsAst(src.value)
    ensures Rep(at, UnderFakeRoot(src))
    ensures forall n {:trigger at[n]} :: n in at ==> fresh(at[n])
  {
    var fake := new CNode(FakeRoot, "", null);
    at := map[];
    match src {
      case None =>
        at := map[FakeRoot := fake];
        assert Holds(at, UnderFakeRoot(src), FakeRoot, at[FakeRoot]);
      case Some(s) =>
        ghost var depth := SomeDepth(s);
        ghost var bound := DepthBound(depth);
        var top;
        top, at := DeepCopy(s, s.root, fake, map[], depth, bound);
        forall m | m in s.kids ensures m in at { AllUnderRoot(s, depth, m); }
        fake.children := [top];
        CopyHolds(at, s, fake);
        at := at[FakeRoot := fake];
    }
  }

  lemma CopyHolds(at: Nodes, s: Tree, fake: CNode)
    requires IsAst(s) && at.Keys == s.kids.Keys && s.root in at
    requires fake.orig == FakeRoot && fake.text == "" && fake.parent == null && fake.children == [at[s.root]]
    requires at[s.root].parent == fake && Copied(at, s, s.root, at[s.root]) && Faithful(map[], at, s, s.root)
    ensures Rep(at[FakeRoot := fake], UnderFakeRoot(Some(s)))
  {
    var at', b := at[FakeRoot := fake], UnderFakeRoot(Some(s));
    assert Extends(at, at');
    forall m | m in at' ensures Holds(at', b, m, at'[m]) && at'[m].orig == m {
      if m != FakeRoot {
        assert at'[m] == at[m];
        assert Copied(at, s, m, at[m]);
        CopiedGrows(at, at', s, m, at[m]);
        if m != s.root { assert Parented(at, s, m, at[m]); }
      }
    }
  }

  /** The pairs seen so far whose source was copied, in both directions. */
  ghost function Forward<N>(srcMap: map<N, N>, seen: set<N>, names: set<N>): map<N, N> {
    map a | a in srcMap && a in seen && a in names :: srcMap[a]
  }

  ghost function Backward<N>(dstMap: map<N, N>, seen: set<N>, names: set<N>): map<N, N> {
    map b | b in dstMap && dstMap[b] in seen && dstMap[b] in names :: dstMap[b]
  }

  lemma PairSeen<N(!new)>(srcMap: map<N, N>, dstMap: map<N, N>, seen: set<N>, names: set<N>, a: N, b: N)
    requires Inverse(srcMap, dstMap) && a in srcMap && srcMap[a] == b
    ensures Forward(srcMap, seen + {a}, names)
      == if a in names then Forward(srcMap, seen, names)[a := b] else Forward(srcMap, seen, names)
    ensures Backward(dstMap, seen + {a}, names)
      == if a in names then Backward(dstMap, seen, names)[b := a] else Backward(dstMap, seen, names)
  {
  }

  lemma AllSeen(pairs: seq<Pair<Node>>, srcMap: map<Node, Node>, dstMap: map<Node, Node>, seen: set<Node>,
                names: set<Node>)
    requires Inverse(srcMap, dstMap) && Catalogues(pairs, srcMap)
    requires forall k :: 0 <= k < |pairs| ==> pairs[k].src in seen
    ensures Forward(srcMap, seen, names) == Forward(srcMap, names, names)
    ensures Backward(dstMap, seen, names) == Matched(dstMap, names)
  {
    forall a | a in srcMap ensures a in seen {
      assert Pair(a, srcMap[a]) in pairs;
    }
    forall b | b in dstMap ensures dstMap[b] in seen {
      assert dstMap[b] in srcMap;
    }
  }

  /** The pairing maps, restricted to the copied nodes. */
  method StartPairing(pairs: seq<Pair<Node>>, names: set<Node>, ghost srcMap: map<Node, Node>,
                      ghost dstMap: map<Node, Node>)
    returns (toDst: map<Node, Node>, toSrc: map<Node, Node>)
    requires Inverse(srcMap, dstMap) && Catalogues(pairs, srcMap)
    ensures toSrc == Matched(dstMap, names) && toDst == Forward(srcMap, names, names)
  {
    hide Inverse;
    toDst, toSrc := map[], map[];
    ghost var seen: set<Node> := {};
    var i := 0;
    while i < |pairs|
      invariant 0 <= i <= |pairs|
      invariant forall k :: 0 <= k < i ==> pairs[k].src in seen
      invariant toDst == Forward(srcMap, seen, names) && toSrc == Backward(dstMap, seen, names)
    {
      var p := pairs[i];
      assert p in pairs;
      PairSeen(srcMap, dstMap, seen, names, p.src, p.dst);
      if p.src in names {
        toDst := toDst[p.src := p.dst];
        toSrc := toSrc[p.dst := p.src];
      }
      seen := seen + {p.src};
      i := i + 1;
    }
    AllSeen(pairs, srcMap, dstMap, seen, names);
  }

  lemma RestrictedInverse<N(!new)>(srcMap: map<N, N>, dstMap: map<N, N>, names: set<N>)
    requires Inverse(srcMap, dstMap)
    ensures Inverse(Forward(srcMap, names, names), Backward(dstMap, names, names))
  {
  }

  lemma PairingFrom(j: Problem, toDst: map<Node, Node>, toSrc: map<Node, Node>)
    requires Inverse(toDst, toSrc) && toSrc == j.match0 && FakeRoot !in toDst && FakeRoot !in toSrc
    requires FakeRoot in j.base.kids
    requires forall x {:trigger toSrc[x]} :: x in toSrc ==> toSrc[x] in j.base.kids
    ensures Pairing(j, toDst[FakeRoot := FakeRoot], toSrc[FakeRoot := FakeRoot], {}, j.base.kids.Keys)
  {
    var d, s := toDst[FakeRoot := FakeRoot], toSrc[FakeRoot := FakeRoot];
    assert Partner(j, FakeRoot) == FakeRoot;
    forall x | x in s ensures s[x] == Partner(j, x) && s[x] in j.base.kids && s[x] in d && d[s[x]] == x {
      if x != FakeRoot { assert s[x] == toSrc[x]; }
    }
    forall c | c in d ensures d[c] in s && s[d[c]] == c {
      if c != FakeRoot { assert d[c] == toDst[c]; }
    }
  }

  /** The starting maps pair the copied nodes with their partners. */
  lemma PairingStart(src: Option<Tree>, dst: Tree, srcMap: map<Node, Node>, dstMap: map<Node, Node>)
    requires Comparable(src, dst, srcMap) && Inverse(srcMap, dstMap)
    ensures var j := Posed(src, dst, dstMap);
            var names := SourceNodes(src);
            Pairing(j, Forward(srcMap, names, names)[FakeRoot := FakeRoot],
                    Matched(dstMap, names)[FakeRoot := FakeRoot], {}, j.base.kids.Keys)
  {
    hide IsAst, IsTree;
    PosedBase(src);
    PosedSound(src, dst, srcMap, dstMap);
    var j, names := Posed(src, dst, dstMap), SourceNodes(src);
    var toDst, toSrc := Forward(srcMap, names, names), Matched(dstMap, names);
    RestrictedInverse(srcMap, dstMap, names);
    assert toSrc == Backward(dstMap, names, names);
    NoFake(src, dst, srcMap);
    MatchedNotFake(j);
    PairingFrom(j, toDst, toSrc);
  }

  lemma NoFake(src: Option<Tree>, dst: Tree, srcMap: map<Node, Node>)
    requires Comparable(src, dst, srcMap)
    ensures FakeRoot !in SourceNodes(src)
  {
  }

  lemma MatchedNotFake(j: Problem)
    requires Sound(j)
    ensures FakeRoot !in j.match0 && FakeRoot in j.base.kids
    ensures forall x {:trigger j.match0[x]} :: x in j.match0 ==> j.match0[x] in j.base.kids
  {
  }

  // ---------------------------------------------------------------- the breadth-first pass

  /** The next node of a level order meets everything a visit needs. */
  lemma LevelNext(j: Problem, order: seq<Node>, i: nat)
    requires Sound(j) && LevelWise(j.dst, order) && i < |order|
    ensures Next(j, SetOf(order[..i]), order[i])
    ensures forall c :: c in j.dst.kids[order[i]] ==> c !in SetOf(order[..i]) && c != order[i]
  {
    var x := order[i];
    assert x in SetOf(order);
    assert x !in order[..i];
    if i > 0 { assert Preceded(j.dst, order, i); }
    forall c | c in j.dst.kids[x] ensures c !in order[..i] && c != x {
      assert j.dst.parent[c] == x;
      NotOwnParent(j.dst, c);
      LaterChild(j.dst, order, i, c);
    }
  }

  lemma LaterChild(t: Tree, order: seq<Node>, i: nat, c: Node)
    requires IsTree(t) && LevelWise(t, order) && i < |order| && c in t.parent && t.parent[c] == order[i]
    ensures c !in order[..i]
  {
    forall k | 0 <= k < |order| && order[k] == c ensures i < k {
      assert Preceded(t, order, k);
      var h :| 0 <= h < k && order[h] == t.parent[c];
    }
  }

  lemma SeenNext(order: seq<Node>, i: nat)
    requires i < |order|
    ensures SetOf(order[..i+1]) == SetOf(order[..i]) + {order[i]}
  {
    assert order[..i+1] == order[..i] + [order[i]];
  }

  /** Visits every target node, level by level. */
  method VisitAll(s: ChawatheState) returns (ghost stay: set<Node>)
    requires s.Valid() && s.Marked(s.done) && Ledger(s.j, s.script, s.done, s.dstInOrder) && s.done == {}
    requires s.script == []
    requires IsTree(s.j.dst)
    modifies s, s.at.Values
    ensures s.Valid() && s.Marked(s.done) && Ledger(s.j, s.script, s.done, s.dstInOrder)
    ensures s.done == s.j.dst.kids.Keys && MovesSoFar(s.j, s.done, stay, s.script)
  {
    hide MovesSoFar, Inv, Sound, OrderInv, Visited, Replay, Pairing, Ledger, PairedMarks, Linked, Next, LevelWise;
    var order := LevelOrder(s.j.dst);
    stay := {};
    MovesStart(s.j);
    var i := 0;
    while i < |order|
      invariant 0 <= i <= |order|
      invariant MovesSoFar(s.j, s.done, stay, s.script)
      invariant s.Valid() && s.Marked(s.done) && Ledger(s.j, s.script, s.done, s.dstInOrder)
      invariant s.done == SetOf(order[..i])
      invariant forall n {:trigger s.at[n]} :: n in s.at ==>
                  (n in old(s.at) && s.at[n] == old(s.at)[n]) || fresh(s.at[n])
    {
      stay := VisitNext(s, order, i, stay);
      i := i + 1;
    }
    assert order[..i] == order;
    LevelAll(s.j.dst, order);
  }

  lemma LevelAll(t: Tree, order: seq<Node>)
    requires LevelWise(t, order)
    ensures SetOf(order) == t.kids.Keys
  {
  }

  method VisitNext(s: ChawatheState, order: seq<Node>, i: nat, ghost stay: set<Node>) returns (ghost stay': set<Node>)
    requires s.Valid() && s.Marked(s.done) && Ledger(s.j, s.script, s.done, s.dstInOrder)
    requires LevelWise(s.j.dst, order) && i < |order| && s.done == SetOf(order[..i])
    requires MovesSoFar(s.j, s.done, stay, s.script)
    modifies s, s.at.Values
    ensures s.Valid() && s.Marked(s.done) && Ledger(s.j, s.script, s.done, s.dstInOrder)
    ensures s.done == SetOf(order[..i+1]) && MovesSoFar(s.j, s.done, stay', s.script)
    ensures forall n {:trigger s.at[n]} :: n in s.at ==> (n in old(s.at) && s.at[n] == old(s.at)[n]) || fresh(s.at[n])
  {
    hide Inv, Sound, OrderInv, Visited, Replay, Pairing, Ledger, PairedMarks, Linked, Next, LevelWise;
    LevelNext(s.j, order, i);
    SeenNext(order, i);
    ghost var x, done, before := order[i], s.done, s.script;
    s.Visit(order[i]);
    ghost var kept :| VisitMoves(s.j, x, before, s.script, kept);
    MovesVisit(s.j, done, stay, x, before, s.script, kept);
    stay' := stay + kept;
  }

  // ---------------------------------------------------------------- the whole script

  /** What the script does and mentions: it turns the source into the target; each unmatched target node is
      inserted once, each unmatched source node deleted once, each matched node with a new label renamed once
      (but for the root), no node is moved twice, and in every container nearly as many children as possible are
      left where they hang. */
  ghost predicate Transforms(j: Problem, script: seq<Action>) {
    && Replay(j.base, script).Some? && Arrives(j, Replay(j.base, script).value)
    && NoDup(Inserted(script)) && (forall n :: n in Inserted(script) <==> n in j.dst.kids && n !in j.match0)
    && NoDup(Deleted(script)) && (forall n :: n in Deleted(script) <==> Doomed(j, n))
    && NoDup(Updated(script)) && (forall n :: n in Updated(script) <==> RenamedPartner(j, j.dst.kids.Keys, n))
    && NoDup(Moved(script)) && (forall n :: n in Moved(script) ==> MarkedPartner(j, j.dst.kids.Keys, n))
    && KeepsMost(j, Untouched(j, script))
  }

  /** Any other script that leads to the target and deletes no paired node moves nearly as many: the nodes that it
      leaves alone are at most thirteen for every ten that stay here. It moves no fewer at all if it leaves at most
      four children alone in each ordered container. */
  lemma FewestMoves(j: Problem, script: seq<Action>, other: seq<Action>)
    requires Sound(j) && Transforms(j, script)
    requires Replay(j.base, other).Some? && Arrives(j, Replay(j.base, other).value)
    requires forall c :: c in Inner(j) ==> Partner(j, c) !in Deleted(other)
    ensures |Moved(script)| == |Inner(j)| - |Untouched(j, script)|
    ensures 10 * (|Inner(j)| - |Moved(other)|) <= 13 * (|Inner(j)| - |Moved(script)|)
    ensures FewEach(j, Untouched(j, other)) ==> |Moved(script)| <= |Moved(other)|
  {
    NearlyFewest(j, script, other);
    MovesAtLeast(j, other);
    forall n | n in Moved(script) ensures exists c :: c in Inner(j) && Partner(j, c) == n {
      assert MarkedPartner(j, j.dst.kids.Keys, n);
      var c :| c in j.match0 && c in j.dst.parent && Partner(j, c) == n;
      assert c in Inner(j);
    }
    MovesCounted(j, script);
    LeftOver(j, script);
    LeftOver(j, other);
  }

  lemma LeftOver(j: Problem, script: seq<Action>)
    ensures |Inner(j) - Untouched(j, script)| == |Inner(j)| - |Untouched(j, script)|
  {
    assert Untouched(j, script) <= Inner(j);
  }

  /** The unpaired nodes of the final working tree are the unmatched source nodes. */
  lemma UnpairedDoomed(j: Problem, t: Tree, toDst: map<Node, Node>, toSrc: map<Node, Node>, names: set<Node>)
    requires Sound(j) && Inv(j, t, j.dst.kids.Keys) && Pairing(j, toDst, toSrc, j.dst.kids.Keys, names)
    requires names == t.kids.Keys
    ensures forall n :: n in Unpaired(t, toDst) <==> Doomed(j, n)
  {
    forall n ensures n in Unpaired(t, toDst) <==> Doomed(j, n) {
      UnpairedIs(j, t, toDst, toSrc, names, n);
    }
  }

  lemma UnpairedIs(j: Problem, t: Tree, toDst: map<Node, Node>, toSrc: map<Node, Node>, names: set<Node>, n: Node)
    requires Sound(j) && Inv(j, t, j.dst.kids.Keys) && Pairing(j, toDst, toSrc, j.dst.kids.Keys, names)
    ensures n in Unpaired(t, toDst) <==> Doomed(j, n)
  {
    hide Inv, Pairing, Placed, Linked, Sound;
    BelowRoot(j, t, j.dst.kids.Keys, n);
    if n in j.base.parent {
      PairedAtEnd(j, toDst, toSrc, names, n);
    } else if n in t.parent {
      assert Placed(j, j.dst.kids.Keys, n) by {
        if !Placed(j, j.dst.kids.Keys, n) { NotPlacedIsSource(j, t, j.dst.kids.Keys, n); }
      }
      PlacedPaired(j, toDst, toSrc, names, n);
    }
  }

  lemma PlacedPaired(j: Problem, toDst: map<Node, Node>, toSrc: map<Node, Node>, names: set<Node>, n: Node)
    requires Pairing(j, toDst, toSrc, j.dst.kids.Keys, names) && Placed(j, j.dst.kids.Keys, n)
    ensures n in toDst
  {
    var x :| x in j.dst.kids.Keys && Partner(j, x) == n;
    assert toSrc[x] == n;
  }

  lemma DoomedClosed(j: Problem, t: Tree, toDst: map<Node, Node>)
    requires Sound(j) && Inv(j, t, j.dst.kids.Keys)
    requires forall n :: n in Unpaired(t, toDst) <==> Doomed(j, n)
    ensures UnpairedClosed(t, toDst)
  {
    forall n, d | n in t.kids && n != t.root && n !in toDst && d in t.kids[n] ensures d !in toDst {
      assert n in Unpaired(t, toDst);
      DoomedBelow(j, t, n, d);
      assert d in Unpaired(t, toDst);
    }
  }

  lemma LedgerAtEnd(j: Problem, before: seq<Action>, script: seq<Action>, marks: set<Node>, stay: set<Node>, r: Tree)
    requires Sound(j) && MovesSoFar(j, j.dst.kids.Keys, stay, before)
    requires Ledger(j, before, j.dst.kids.Keys, marks) && marks <= j.dst.kids.Keys
    requires Inserted(script) == Inserted(before) && Updated(script) == Updated(before)
    requires Moved(script) == Moved(before)
    requires NoDup(Deleted(script)) && forall n :: n in SetOf(Deleted(script)) <==> Doomed(j, n)
    requires Replay(j.base, script) == Some(r) && Arrives(j, r)
    ensures Transforms(j, script)
  {
    hide Sound, MovesSoFar, KeepsMost, Untouched, Doomed, MarkedPartner;
    LedgerMarks(j, before, j.dst.kids.Keys, marks, j.dst.kids.Keys);
    forall n ensures n in Deleted(script) <==> Doomed(j, n) {
      assert n in Deleted(script) <==> n in SetOf(Deleted(script));
    }
    StayIsUntouched(j, stay, before, script);
  }

  /** Deletes what is left over and closes the script. */
  method Finish(s: ChawatheState, top: Option<Node>, ghost stay: set<Node>) returns (script: seq<Action>)
    requires s.Valid() && s.Marked(s.done) && Ledger(s.j, s.script, s.done, s.dstInOrder) && s.done == s.j.dst.kids.Keys
    requires MovesSoFar(s.j, s.done, stay, s.script)
    requires s.j.base.kids[FakeRoot] == if top.Some? then [top.value] else []
    ensures Transforms(s.j, script)
  {
    hide Inv, Sound, OrderInv, Visited, Pairing, Ledger, PairedMarks, Linked, Transforms, DelInv, Arrives, Doomed,
      MovesSoFar;
    UnpairedDoomed(s.j, s.t, s.toDst, s.toSrc, s.at.Keys);
    MarksInTarget(s.j, s.toSrc, s.done, s.done, s.dstInOrder, s.srcInOrder);
    InvIsTree(s.j, s.t, s.done);
    ghost var r := s.t;
    NoDeletesYet(s.j, s.script, s.done, s.dstInOrder);
    if top.Some? {
      DoomedClosed(s.j, s.t, s.toDst);
      RootAtEnd(s.j, s.t, top.value);
      TopHeld(s, top.value);
      script := DeleteUnpaired(s.at[top.value], s.toDst, s.script, s.j.base, s.at, s.t);
      r := Replay(s.j.base, script).value;
    } else {
      script := s.script;
      NothingDoomed(s.j);
      DelStart(s.t);
      assert Unpaired(s.t, s.toDst) == {};
    }
    Arrival(s.j, s.t, r, Unpaired(s.t, s.toDst), s.dstInOrder);
    LedgerAtEnd(s.j, s.script, script, s.dstInOrder, stay, r);
  }

  lemma NoDeletesYet(j: Problem, script: seq<Action>, done: set<Node>, marks: set<Node>)
    requires Ledger(j, script, done, marks)
    ensures Deleted(script) == []
  {
  }

  lemma TopHeld(s: ChawatheState, top: Node)
    requires s.Valid() && FakeRoot in s.t.kids && s.t.kids[FakeRoot] == [top]
    ensures top in s.at && s.at[top].orig == top && s.t.root == FakeRoot
  {
    assert top in s.t.kids[FakeRoot];
    assert Holds(s.at, s.t, FakeRoot, s.at[FakeRoot]);
  }

  lemma NothingDoomed(j: Problem)
    requires Sound(j) && j.base.kids[FakeRoot] == []
    ensures forall n :: !Doomed(j, n)
  {
    var depth :| Ranked(j.base, depth);
    forall n | n in j.base.parent ensures false {
      SourceHasRoot(j, depth, n);
    }
  }

  /** The edit script of two files under a node mapping. Without a target every source node is deleted. */
  method GenerateEditScript(src: Option<Tree>, dst: Option<Tree>, ms: Mapping<Node>) returns (script: seq<Action>)
    requires ms.Valid()
    requires src.Some? ==> IsAst(src.value)
    requires dst.Some? ==> Comparable(src, dst.value, ms.src)
    ensures dst.Some? ==> Transforms(Posed(src, dst.value, ms.dst), script)
    ensures dst.None? ==>
              && Replay(UnderFakeRoot(src), script).Some?
              && Replay(UnderFakeRoot(src), script).value.kids.Keys == {FakeRoot}
              && NoDup(Deleted(script)) && SetOf(Deleted(script)) == SourceNodes(src)
              && Inserted(script) == [] && Updated(script) == [] && Moved(script) == []
  {
    if src.None? && dst.None? {
      script := [];
      assert SetOf<Node>([]) == {};
      return;
    }
    var at := CopySource(src);
    match dst {
      case None =>
        script := DeleteAll(src, at);
      case Some(d) =>
        script := EditTo(src, d, ms, at);
    }
  }

  method DeleteAll(src: Option<Tree>, at: Nodes) returns (script: seq<Action>)
    requires src.Some? && IsAst(src.value) && Rep(at, UnderFakeRoot(src))
    ensures Replay(UnderFakeRoot(src), script).Some? && Replay(UnderFakeRoot(src), script).value.kids.Keys == {FakeRoot}
    ensures NoDup(Deleted(script)) && SetOf(Deleted(script)) == SourceNodes(src)
    ensures Inserted(script) == [] && Updated(script) == [] && Moved(script) == []
  {
    hide IsTree, IsAst;
    PosedBase(src);
    ghost var base := UnderFakeRoot(src);
    RootNode(src.value);
    script := DeleteUnpaired(at[src.value.root], map[], [], base, at, base);
    assert Unpaired(base, map[]) == SourceNodes(src);
  }

  lemma RootNode(t: Tree)
    requires IsAst(t)
    ensures t.root in t.kids && t.root != FakeRoot && FakeRoot !in t.kids
  {
  }

  method EditTo(src: Option<Tree>, dst: Tree, ms: Mapping<Node>, at: Nodes) returns (script: seq<Action>)
    requires ms.Valid() && Comparable(src, dst, ms.src)
    requires Rep(at, UnderFakeRoot(src))
    modifies at.Values
    ensures Transforms(Posed(src, dst, old(ms.dst)), script)
  {
    hide IsTree, IsAst, Sound, Pairing, Ledger;
    PosedBase(src);
    PosedSound(src, dst, ms.src, ms.dst);
    PairingStart(src, dst, ms.src, ms.dst);
    var j := Posed(src, dst, ms.dst);
    var names := SourceNodes(src);
    var toDst, toSrc := StartPairing(ms.pairs, names, ms.src, ms.dst);
    var s := new ChawatheState(j, at, toDst[FakeRoot := FakeRoot], toSrc[FakeRoot := FakeRoot]);
    SoundTarget(j);
    ghost var stay := VisitAll(s);
    script := Finish(s, if src.Some? then Some(src.value.root) else None, stay);
  }

  lemma SoundTarget(j: Problem)
    requires Sound(j)
    ensures IsTree(j.dst)
  {
  }
}
