/** What a script mentions: each node is inserted, renamed and moved at most once, and exactly when it must be. */
module Ledgers {
  import opened Lists
  import opened Trees
  import opened ScriptSpec
  import opened ScriptSteps

  /** x is paired with a node of another label and is not the root: its partner must be renamed. */
  ghost predicate Renamed(j: Problem, x: Node) {
    x in j.match0 && x != j.dst.root && Text(j.match0[x]) != Text(x)
  }

  ghost predicate RenamedPartner(j: Problem, done: set<Node>, n: Node) {
    exists x :: x in done && Renamed(j, x) && Partner(j, x) == n
  }

  /** n stands for a marked, paired node below the root. */
  ghost predicate MarkedPartner(j: Problem, marks: set<Node>, n: Node) {
    exists x :: x in marks && x in j.match0 && x in j.dst.parent && Partner(j, x) == n
  }

  /** The visited unmatched nodes are inserted, the visited nodes with a new label renamed, both exactly once;
      no node is moved twice, only partners of marked nodes are moved, and nothing is deleted yet. */
  ghost predicate Ledger(j: Problem, script: seq<Action>, done: set<Node>, marks: set<Node>) {
    && NoDup(Inserted(script)) && (forall n :: n in Inserted(script) <==> n in done && n !in j.match0)
    && NoDup(Updated(script)) && (forall n :: n in Updated(script) <==> RenamedPartner(j, done, n))
    && NoDup(Moved(script)) && (forall n :: n in Moved(script) ==> MarkedPartner(j, marks, n))
    && Deleted(script) == []
  }

  lemma LedgerStart(j: Problem)
    ensures Ledger(j, [], {}, {})
  {
  }

  lemma LedgerMarks(j: Problem, script: seq<Action>, done: set<Node>, marks: set<Node>, marks': set<Node>)
    requires Ledger(j, script, done, marks) && marks <= marks'
    ensures Ledger(j, script, done, marks')
  {
    forall n | n in Moved(script) ensures MarkedPartner(j, marks', n) {
      var x :| x in marks && x in j.match0 && x in j.dst.parent && Partner(j, x) == n;
      assert x in marks';
    }
  }

  lemma RenamedGrows(j: Problem, done: set<Node>, x: Node, n: Node)
    ensures RenamedPartner(j, done + {x}, n) <==> RenamedPartner(j, done, n) || (Renamed(j, x) && Partner(j, x) == n)
  {
    if RenamedPartner(j, done, n) {
      var y :| y in done && Renamed(j, y) && Partner(j, y) == n;
      assert y in done + {x};
    }
    assert x in done + {x};
  }

  lemma RenamedOnce(j: Problem, done: set<Node>, x: Node)
    requires Sound(j) && done <= j.dst.kids.Keys && x in j.dst.kids
    ensures RenamedPartner(j, done, Partner(j, x)) ==> x in done
  {
    if RenamedPartner(j, done, Partner(j, x)) {
      var y :| y in done && Renamed(j, y) && Partner(j, y) == Partner(j, x);
      PartnerInjective(j, x, y);
    }
  }

  lemma MarkedOnce(j: Problem, marks: set<Node>, x: Node)
    requires Sound(j) && marks <= j.dst.kids.Keys && x in j.dst.kids
    ensures MarkedPartner(j, marks, Partner(j, x)) ==> x in marks
  {
    if MarkedPartner(j, marks, Partner(j, x)) {
      var y :| y in marks && y in j.match0 && y in j.dst.parent && Partner(j, y) == Partner(j, x);
      PartnerInjective(j, x, y);
    }
  }

  lemma NoDupAppend<T(!new)>(s: seq<T>, x: T)
    requires NoDup(s) && x !in s
    ensures NoDup(s + [x])
    ensures forall y :: y in s + [x] <==> y in s || y == x
  {
    NoDupConcat(s, [x]);
  }

  lemma LedgerInsert(j: Problem, script: seq<Action>, done: set<Node>, marks: set<Node>, x: Node, p: Node, k: nat)
    requires Ledger(j, script, done, marks) && x !in done && x !in j.match0
    ensures Ledger(j, script + [Insert(x, p, k)], done + {x}, marks)
  {
    MentionAppend(script, Insert(x, p, k));
    NoDupAppend(Inserted(script), x);
    forall n ensures RenamedPartner(j, done + {x}, n) <==> RenamedPartner(j, done, n) { RenamedGrows(j, done, x, n); }
  }

  /** Visiting a matched node, with an Update exactly when its label changes. */
  lemma LedgerUpdate(j: Problem, script: seq<Action>, done: set<Node>, marks: set<Node>, x: Node, script': seq<Action>)
    requires Sound(j) && done <= j.dst.kids.Keys && Ledger(j, script, done, marks)
    requires x in j.dst.kids && x !in done && x in j.match0
    requires script' == if Renamed(j, x) then script + [Update(Partner(j, x), Text(x))] else script
    ensures Ledger(j, script', done + {x}, marks)
  {
    forall n
      ensures RenamedPartner(j, done + {x}, n) <==> RenamedPartner(j, done, n) || (Renamed(j, x) && Partner(j, x) == n)
    {
      RenamedGrows(j, done, x, n);
    }
    if Renamed(j, x) {
      MentionAppend(script, Update(Partner(j, x), Text(x)));
      RenamedOnce(j, done, x);
      NoDupAppend(Updated(script), Partner(j, x));
    }
  }

  /** A move of an unmarked node's partner, which is marked afterwards. */
  lemma LedgerMove(j: Problem, script: seq<Action>, done: set<Node>, marks: set<Node>, x: Node, p: Node, k: nat,
                   s: bool)
    requires Sound(j) && marks <= j.dst.kids.Keys && Ledger(j, script, done, marks)
    requires x in j.dst.kids && x !in marks && x in j.match0 && x in j.dst.parent
    ensures Ledger(j, script + [Move(Partner(j, x), p, k, s)], done, marks + {x})
  {
    hide Sound, MarkedPartner, RenamedPartner, Partner;
    MentionAppend(script, Move(Partner(j, x), p, k, s));
    MarkedNow(j, marks, x);
    LedgerMarks(j, script, done, marks, marks + {x});
    MarkedOnce(j, marks, x);
    NoDupAppend(Moved(script), Partner(j, x));
  }

  lemma MarkedNow(j: Problem, marks: set<Node>, x: Node)
    requires x in j.match0 && x in j.dst.parent
    ensures MarkedPartner(j, marks + {x}, Partner(j, x))
  {
    assert x in marks + {x};
  }

  /** A visited node paired with a source node still shows its source label before its visit. */
  lemma RelabelIsRenamed(j: Problem, t: Tree, done: set<Node>, script: seq<Action>, x: Node)
    requires Sound(j) && Inv(j, t, done) && done <= j.dst.kids.Keys && x in j.match0 && x !in done && x in j.dst.parent
    ensures RelabelScript(t, script, Partner(j, x), Text(x))
         == if Renamed(j, x) then script + [Update(Partner(j, x), Text(x))] else script
  {
    if Placed(j, done, Partner(j, x)) {
      var y :| y in done && Partner(j, y) == Partner(j, x);
      PartnerInjective(j, x, y);
    }
    assert t.labels[Partner(j, x)] == Text(Partner(j, x));
  }
}
