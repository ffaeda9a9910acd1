/** Matchings between the lines of two texts, built region by region, and what compaction leaves of them. */
module LineMatching {
  import opened Compaction

  /** What is left of a line without blanks around it. */
  type Trim = string -> string

  /** Inside both texts, strictly increasing on both sides, and every pair of lines equal but for blanks around them. */
  ghost predicate Matching(trim: Trim, a: seq<string>, b: seq<string>, m: map<nat, nat>) {
    && (forall i :: i in m ==> i < |a| && m[i] < |b| && trim(a[i]) == trim(b[m[i]]))
    && forall i, k :: i in m && k in m && i < k ==> m[i] < m[k]
  }

  /** The lines a0..a1 are free, and so are b0..b1: the pairs before end below them, and those after start above. */
  ghost predicate Free(m: map<nat, nat>, a0: nat, a1: nat, b0: nat, b1: nat) {
    forall i :: i in m ==> (i < a0 && m[i] < b0) || (i >= a1 && m[i] >= b1)
  }

  /** A pair in a free region splits it in two. */
  lemma AddPair(trim: Trim, a: seq<string>, b: seq<string>, m: map<nat, nat>, a0: nat, a1: nat, b0: nat, b1: nat,
                i: nat, j: nat)
    requires Matching(trim, a, b, m) && Free(m, a0, a1, b0, b1) && a0 <= i < a1 <= |a| && b0 <= j < b1 <= |b|
    requires trim(a[i]) == trim(b[j])
    ensures Matching(trim, a, b, m[i := j])
    ensures Free(m[i := j], a0, i, b0, j) && Free(m[i := j], i + 1, a1, j + 1, b1)
  {
  }

  /** A free region stays free when a pair is added past it. */
  lemma FreeBefore(m: map<nat, nat>, a0: nat, a1: nat, b0: nat, b1: nat, i: nat, j: nat)
    requires Free(m, a0, a1, b0, b1) && i >= a1 && j >= b1
    ensures Free(m[i := j], a0, a1, b0, b1)
  {
  }

  // ---------------------------------------------------------------- the unchanged lines

  /** The positions of the unchanged lines from lo on. */
  function Unchanged(changed: seq<bool>, lo: nat): seq<nat>
    decreases |changed| - lo
  {
    if lo >= |changed| then [] else (if changed[lo] then [] else [lo]) + Unchanged(changed, lo + 1)
  }

  ghost predicate Ascending(s: seq<nat>) {
    forall k, l :: 0 <= k < l < |s| ==> s[k] < s[l]
  }

  lemma {:induction false} UnchangedMembers(changed: seq<bool>, lo: nat)
    ensures forall i :: i in Unchanged(changed, lo) <==> lo <= i < |changed| && !changed[i]
    decreases |changed| - lo
  {
    if lo < |changed| {
      UnchangedMembers(changed, lo + 1);
      var rest := Unchanged(changed, lo + 1);
      forall i ensures i in Unchanged(changed, lo) <==> lo <= i < |changed| && !changed[i] {
        assert i in [lo] + rest <==> i == lo || i in rest;
      }
    }
  }

  lemma {:induction false} UnchangedAscends(changed: seq<bool>, lo: nat)
    ensures Ascending(Unchanged(changed, lo))
    decreases |changed| - lo
  {
    if lo < |changed| {
      UnchangedAscends(changed, lo + 1);
      UnchangedMembers(changed, lo + 1);
      var rest := Unchanged(changed, lo + 1);
      forall k | 0 <= k < |rest| ensures lo < rest[k] { assert rest[k] in rest; }
    }
  }

  /** The texts at some positions. */
  function Texts(lines: seq<string>, s: seq<nat>): seq<string> {
    seq(|s|, k requires 0 <= k < |s| => if s[k] < |lines| then lines[s[k]] else "")
  }

  /** The kept lines are the texts at the unchanged positions. */
  lemma {:induction false} KeptTexts(lines: seq<string>, changed: seq<bool>, lo: nat)
    requires lo <= |lines| == |changed|
    ensures Kept(lines, changed, lo, |lines|) == Texts(lines, Unchanged(changed, lo))
    decreases |lines| - lo
  {
    if lo < |lines| {
      KeptTexts(lines, changed, lo + 1);
      var rest := Unchanged(changed, lo + 1);
      assert Texts(lines, [lo] + rest) == [lines[lo]] + Texts(lines, rest);
      assert [] + rest == rest && [] + Texts(lines, rest) == Texts(lines, rest);
    }
  }

  /** Two ascending lists of the same positions are the same list. */
  lemma {:induction false} SameAscending(s: seq<nat>, t: seq<nat>)
    requires Ascending(s) && Ascending(t) && forall x :: x in s <==> x in t
    ensures s == t
  {
    if s != [] { assert s[0] in t; }
    if t != [] { assert t[0] in s; }
    if s != [] && t != [] {
      assert s[0] == t[0];
      forall x ensures x in s[1..] <==> x in t[1..] {
        assert x in s[1..] <==> x in s && x != s[0];
        assert x in t[1..] <==> x in t && x != t[0];
      }
      SameAscending(s[1..], t[1..]);
      assert s == [s[0]] + s[1..] && t == [t[0]] + t[1..];
    }
  }

  /** The lines that a matching leaves alone on one side. */
  ghost predicate Marks(m: map<nat, nat>, changedA: seq<bool>, changedB: seq<bool>) {
    && (forall i :: 0 <= i < |changedA| ==> (!changedA[i] <==> i in m))
    && (forall i :: i in m ==> i < |changedA| && m[i] < |changedB| && !changedB[m[i]])
    && forall j :: 0 <= j < |changedB| && !changedB[j] ==> exists i :: i in m && m[i] == j
  }

  /** The matching pairs the k-th unchanged line of one side with the k-th of the other. */
  lemma MarkedPairs(trim: Trim, a: seq<string>, b: seq<string>, m: map<nat, nat>, changedA: seq<bool>,
                    changedB: seq<bool>)
    requires Matching(trim, a, b, m) && Marks(m, changedA, changedB)
    ensures var ua, ub := Unchanged(changedA, 0), Unchanged(changedB, 0);
            && |ua| == |ub| && (forall k :: 0 <= k < |ua| ==> ua[k] in m && m[ua[k]] == ub[k])
            && forall k :: 0 <= k < |ua| ==> ua[k] < |a| && ub[k] < |b| && trim(a[ua[k]]) == trim(b[ub[k]])
  {
    var ua, ub := Unchanged(changedA, 0), Unchanged(changedB, 0);
    UnchangedAscends(changedA, 0);
    UnchangedAscends(changedB, 0);
    UnchangedMembers(changedA, 0);
    UnchangedMembers(changedB, 0);
    forall k | 0 <= k < |ua| ensures ua[k] in m { assert ua[k] in ua; }
    var image: seq<nat> := seq(|ua|, k requires 0 <= k < |ua| => m[ua[k]]);
    ImageOf(m, ua, image, changedA, changedB);
    SameAscending(image, ub);
  }

  lemma ImageOf(m: map<nat, nat>, ua: seq<nat>, image: seq<nat>, changedA: seq<bool>, changedB: seq<bool>)
    requires Marks(m, changedA, changedB) && |image| == |ua|
    requires forall k :: 0 <= k < |ua| ==> ua[k] in m && image[k] == m[ua[k]]
    requires forall i :: i in ua <==> 0 <= i < |changedA| && !changedA[i]
    ensures forall j :: j in image <==> 0 <= j < |changedB| && !changedB[j]
  {
    forall j | 0 <= j < |changedB| && !changedB[j] ensures j in image {
      var i :| i in m && m[i] == j;
      assert i in ua;
      var k :| 0 <= k < |ua| && ua[k] == i;
      assert image[k] == j;
    }
  }

  /** The matching of the k-th unchanged lines. */
  ghost predicate Zips(r: map<nat, nat>, ua: seq<nat>, ub: seq<nat>, n: nat) {
    && n <= |ua| && n <= |ub|
    && (forall k :: 0 <= k < n ==> ua[k] in r && r[ua[k]] == ub[k])
    && forall i :: i in r ==> exists k :: 0 <= k < n && ua[k] == i
  }

  /** Pairing the unchanged lines anew, after their texts stayed the same, is a matching again. */
  lemma ZipMatches(trim: Trim, a: seq<string>, b: seq<string>, ua: seq<nat>, ub: seq<nat>, n: nat, r: map<nat, nat>)
    requires Zips(r, ua, ub, n) && Ascending(ua) && Ascending(ub)
    requires forall k :: 0 <= k < n ==> ua[k] < |a| && ub[k] < |b| && trim(a[ua[k]]) == trim(b[ub[k]])
    ensures Matching(trim, a, b, r)
  {
    forall i | i in r ensures i < |a| && r[i] < |b| && trim(a[i]) == trim(b[r[i]]) {
      var k :| 0 <= k < n && ua[k] == i;
    }
    forall i, l | i in r && l in r && i < l ensures r[i] < r[l] {
      var k :| 0 <= k < n && ua[k] == i;
      var k2 :| 0 <= k2 < n && ua[k2] == l;
      assert k < k2;
    }
  }
}
