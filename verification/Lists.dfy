/** Sequences without repetition, the way the sources use slices of node pointers:
    search, insert and delete one element, and the order the remaining elements keep. */
module Lists {

  datatype Option<+T> = None | Some(value: T)

  ghost predicate NoDup<T>(s: seq<T>) {
    forall i, j :: 0 <= i < j < |s| ==> s[i] != s[j]
  }

  /** The first position of e in s, or -1. */
  function Index<T(==)>(s: seq<T>, e: T): (i: int)
    ensures e in s ==> 0 <= i < |s| && s[i] == e
    ensures e !in s ==> i == -1
    ensures forall j :: 0 <= j < i ==> s[j] != e
  {
    if s == [] then -1
    else if s[0] == e then 0
    else
      var k := Index(s[1..], e);
      assert s == [s[0]] + s[1..];
      assert forall j :: 1 <= j < |s| ==> s[j] == s[1..][j-1];
      if k == -1 then -1 else k + 1
  }

  /** a stands somewhere before b in s. */
  ghost predicate Before<T(!new)>(s: seq<T>, a: T, b: T) {
    exists i, j :: 0 <= i < j < |s| && s[i] == a && s[j] == b
  }

  function InsertAt<T>(s: seq<T>, k: nat, e: T): (r: seq<T>)
    requires k <= |s|
    ensures |r| == |s| + 1
  {
    s[..k] + [e] + s[k..]
  }

  function RemoveAt<T>(s: seq<T>, k: nat): (r: seq<T>)
    requires k < |s|
    ensures |r| == |s| - 1
  {
    s[..k] + s[k+1..]
  }

  /** Deletes the first occurrence of e, if there is one. */
  function Without<T(==)>(s: seq<T>, e: T): seq<T> {
    if e in s then RemoveAt(s, Index(s, e)) else s
  }

  lemma InsertAtPositions<T(!new)>(s: seq<T>, k: nat, e: T)
    requires k <= |s|
    ensures InsertAt(s, k, e)[k] == e
    ensures forall i {:trigger s[i]} :: 0 <= i < k ==> InsertAt(s, k, e)[i] == s[i]
    ensures forall i {:trigger s[i]} :: k <= i < |s| ==> InsertAt(s, k, e)[i+1] == s[i]
    ensures forall i {:trigger InsertAt(s, k, e)[i]} :: k < i <= |s| ==> InsertAt(s, k, e)[i] == s[i-1]
  {
  }

  lemma InsertAtElements<T(!new)>(s: seq<T>, k: nat, e: T)
    requires k <= |s|
    ensures forall x :: x in InsertAt(s, k, e) <==> x in s || x == e
    ensures NoDup(s) && e !in s ==> NoDup(InsertAt(s, k, e))
    ensures forall a, b :: Before(s, a, b) ==> Before(InsertAt(s, k, e), a, b)
  {
    var r := InsertAt(s, k, e);
    InsertAtPositions(s, k, e);
    forall x ensures x in r <==> x in s || x == e {
      if x in s { var i :| 0 <= i < |s| && s[i] == x; assert r[if i < k then i else i + 1] == x; }
    }
    forall a, b | Before(s, a, b) ensures Before(r, a, b) {
      var i, j :| 0 <= i < j < |s| && s[i] == a && s[j] == b;
      var i', j' := if i < k then i else i + 1, if j < k then j else j + 1;
      assert r[i'] == a && r[j'] == b;
    }
  }

  lemma InsertAtOrder<T(!new)>(s: seq<T>, k: nat, e: T, a: T)
    requires k <= |s| && a in s && NoDup(s)
    ensures Index(s, a) < k ==> Before(InsertAt(s, k, e), a, e)
    ensures k <= Index(s, a) ==> Before(InsertAt(s, k, e), e, a)
  {
    var r := InsertAt(s, k, e);
    InsertAtPositions(s, k, e);
    var i := Index(s, a);
    if i < k {
      assert r[i] == a && r[k] == e;
    } else {
      assert r[k] == e && r[i+1] == a;
    }
  }

  lemma WithoutElements<T(!new)>(s: seq<T>, e: T)
    requires NoDup(s)
    ensures NoDup(Without(s, e))
    ensures forall x :: x in Without(s, e) <==> x in s && x != e
    ensures forall a, b :: a != e && b != e && Before(s, a, b) ==> Before(Without(s, e), a, b)
    ensures |Without(s, e)| == if e in s then |s| - 1 else |s|
  {
    if e in s {
      var k := Index(s, e);
      var r := RemoveAt(s, k);
      assert forall i :: 0 <= i < k ==> r[i] == s[i];
      assert forall i :: k <= i < |r| ==> r[i] == s[i+1];
      forall x ensures x in r <==> x in s && x != e {
        if x in s && x != e {
          var i :| 0 <= i < |s| && s[i] == x;
          assert r[if i < k then i else i - 1] == x;
        }
      }
      forall a, b | a != e && b != e && Before(s, a, b) ensures Before(r, a, b) {
        var i, j :| 0 <= i < j < |s| && s[i] == a && s[j] == b;
        var i', j' := if i < k then i else i - 1, if j < k then j else j - 1;
        assert r[i'] == a && r[j'] == b;
      }
    }
  }

  lemma BeforeIndex<T(!new)>(s: seq<T>, a: T, b: T)
    requires NoDup(s)
    ensures Before(s, a, b) <==> a in s && b in s && Index(s, a) < Index(s, b)
  {
    if Before(s, a, b) {
      var i, j :| 0 <= i < j < |s| && s[i] == a && s[j] == b;
      assert Index(s, a) == i && Index(s, b) == j;
    }
  }

  lemma FirstBefore<T(!new)>(s: seq<T>, x: T)
    requires x in s
    ensures x == s[0] || Before(s, s[0], x)
  {
    var k :| 0 <= k < |s| && s[k] == x;
  }

  lemma NoneBeforeFirst<T(!new)>(t: seq<T>, a: T)
    requires NoDup(t) && t != []
    ensures !Before(t, a, t[0])
  {
  }

  lemma TailElements<T(!new)>(s: seq<T>)
    requires NoDup(s) && s != []
    ensures NoDup(s[1..]) && forall x :: x in s[1..] <==> x in s && x != s[0]
  {
    assert s == [s[0]] + s[1..];
    forall i | 0 <= i < |s[1..]| ensures s[1..][i] == s[i + 1] {}
  }

  lemma TailBefore<T(!new)>(s: seq<T>, a: T, b: T)
    requires NoDup(s) && s != []
    ensures Before(s[1..], a, b) ==> Before(s, a, b)
    ensures Before(s, a, b) && a != s[0] ==> Before(s[1..], a, b)
  {
    var s1 := s[1..];
    if Before(s1, a, b) {
      var i, j :| 0 <= i < j < |s1| && s1[i] == a && s1[j] == b;
      assert s[i + 1] == a && s[j + 1] == b;
    }
    if Before(s, a, b) && a != s[0] {
      var i, j :| 0 <= i < j < |s| && s[i] == a && s[j] == b;
      assert s1[i - 1] == a && s1[j - 1] == b;
    }
  }

  /** Two lists of the same elements that agree on the order of every pair are equal. */
  lemma {:induction false} SameOrder<T(!new)>(s: seq<T>, t: seq<T>)
    requires NoDup(s) && NoDup(t)
    requires forall x :: x in s <==> x in t
    requires forall a, b :: Before(s, a, b) ==> Before(t, a, b)
    ensures s == t
  {
    if s == [] {
      assert forall k :: 0 <= k < |t| ==> t[k] in t;
    } else {
      assert s[0] in t;
      assert t[0] in s;
      NoneBeforeFirst(t, s[0]);
      FirstBefore(s, t[0]);
      var s1, t1 := s[1..], t[1..];
      TailElements(s);
      TailElements(t);
      forall a, b | Before(s1, a, b) ensures Before(t1, a, b) {
        var i, j :| 0 <= i < j < |s1| && s1[i] == a && s1[j] == b;
        assert a in s1;
        TailBefore(s, a, b);
        TailBefore(t, a, b);
      }
      SameOrder(s1, t1);
      assert s == [s[0]] + s1 && t == [t[0]] + t1;
    }
  }

  /** r lists some elements of s, each once and in s's order. */
  ghost predicate Sublist<T(!new)>(s: seq<T>, r: seq<T>) {
    && NoDup(r)
    && (forall x :: x in r ==> x in s)
    && forall i, k :: 0 <= i < k < |r| ==> Before(s, r[i], r[k])
  }

  lemma SublistNoDup<T(!new)>(s: seq<T>, r: seq<T>)
    requires Sublist(s, r)
    ensures NoDup(r)
  {
  }

  lemma SublistNone<T(!new)>(s: seq<T>)
    ensures Sublist(s, [])
  {
  }

  lemma SublistSkip<T(!new)>(s: seq<T>, r: seq<T>, i: nat)
    requires i < |s| && Sublist(s[..i], r)
    ensures Sublist(s[..i+1], r)
  {
    BeforePrefix(s, i);
    assert s[..i+1] == s[..i] + [s[i]];
  }

  lemma SublistTake<T(!new)>(s: seq<T>, r: seq<T>, i: nat)
    requires i < |s| && NoDup(s) && Sublist(s[..i], r)
    ensures Sublist(s[..i+1], r + [s[i]])
  {
    BeforePrefix(s, i);
    assert s[..i+1] == s[..i] + [s[i]];
    assert s[i] !in s[..i];
    var q := r + [s[i]];
    forall a, b | 0 <= a < b < |q| ensures Before(s[..i+1], q[a], q[b]) && q[a] != q[b] {
      if b == |r| {
        assert r[a] in s[..i];
        var k :| 0 <= k < i && s[..i][k] == r[a];
        assert s[..i+1][k] == q[a] && s[..i+1][i] == q[b];
      } else {
        assert Before(s[..i], r[a], r[b]);
      }
    }
  }

  lemma SublistWhole<T(!new)>(s: seq<T>)
    requires NoDup(s)
    ensures Sublist(s, s)
  {
    forall i, k | 0 <= i < k < |s| ensures Before(s, s[i], s[k]) {}
  }

  /** Leaving one more element out. */
  lemma SublistWithout<T(!new)>(s: seq<T>, r: seq<T>, e: T)
    requires Sublist(s, r)
    ensures Sublist(s, Without(r, e))
  {
    var q := Without(r, e);
    WithoutElements(r, e);
    forall i, k | 0 <= i < k < |q| ensures Before(s, q[i], q[k]) {
      WithoutAt(r, e, i);
      WithoutAt(r, e, k);
      hide Without, Before;
    }
  }

  lemma WithoutAt<T>(r: seq<T>, e: T, i: nat)
    requires i < |Without(r, e)|
    ensures var k := if e in r && Index(r, e) <= i then i + 1 else i;
            k < |r| && Without(r, e)[i] == r[k]
  {
    hide Index;
  }

  lemma BeforePrefix<T(!new)>(s: seq<T>, i: nat)
    requires i < |s|
    ensures forall a, b :: Before(s[..i], a, b) ==> Before(s[..i+1], a, b)
  {
    forall a, b | Before(s[..i], a, b) ensures Before(s[..i+1], a, b) {
      var k, l :| 0 <= k < l < i && s[..i][k] == a && s[..i][l] == b;
      assert s[..i+1][k] == a && s[..i+1][l] == b;
    }
  }

  lemma NoDupConcat<T(!new)>(a: seq<T>, b: seq<T>)
    requires NoDup(a) && NoDup(b) && forall x :: x in a ==> x !in b
    ensures NoDup(a + b)
  {
    var r := a + b;
    forall i, j | 0 <= i < j < |r| ensures r[i] != r[j] {
      if i < |a| <= j { assert r[i] in a && r[j] in b; }
    }
  }

  lemma NonEmptyList<T>(s: seq<T>)
    ensures s == [] || exists c :: c in s
  {
    if s != [] { assert s[0] in s; }
  }

  /** Storing what is already there changes nothing. */
  lemma SameEntry<K, V>(m: map<K, V>, k: K, v: V)
    requires k in m && m[k] == v
    ensures m[k := v] == m
  {
  }

  lemma SameMember<K>(s: set<K>, k: K)
    requires k in s
    ensures s + {k} == s
  {
  }

  ghost function SetOf<T>(s: seq<T>): set<T> {
    set x | x in s
  }

  /** A list without repetition is as long as its set of elements. */
  lemma {:induction false} NoDupLength<T>(s: seq<T>)
    requires NoDup(s)
    ensures |s| == |SetOf(s)|
  {
    if s != [] {
      var r := s[1..];
      NoDupLength(r);
      assert SetOf(s) == SetOf(r) + {s[0]};
      assert s[0] !in r;
    } else {
      assert SetOf(s) == {};
    }
  }

  lemma SubsetLength<T>(s: seq<T>, b: set<T>)
    requires NoDup(s) && SetOf(s) <= b
    ensures |s| <= |b|
  {
    NoDupLength(s);
    SetSize(SetOf(s), b);
  }

  lemma SetSize<T>(a: set<T>, b: set<T>)
    requires a <= b
    ensures |a| <= |b|
  {
    assert b == a + (b - a);
  }

  /** The list back to front. */
  function Reversed<X>(xs: seq<X>): seq<X> {
    if xs == [] then [] else Reversed(xs[1..]) + [xs[0]]
  }

  /** Read from the other end. */
  lemma {:induction false} ReversedAt<X>(xs: seq<X>, k: nat)
    requires k < |xs|
    ensures |Reversed(xs)| == |xs| && Reversed(xs)[k] == xs[|xs| - 1 - k]
  {
    if |xs| > 1 { ReversedAt(xs[1..], if k < |xs| - 1 then k else 0); }
  }

  lemma {:induction false} ReversedPush<X>(xs: seq<X>, x: X)
    ensures Reversed(xs + [x]) == [x] + Reversed(xs)
  {
    if xs == [] {
      assert xs + [x] == [x];
    } else {
      ReversedPush(xs[1..], x);
      assert (xs + [x])[1..] == xs[1..] + [x];
    }
  }

  /** The numbers from lo up to hi. */
  function Range(lo: nat, hi: nat): seq<nat>
    decreases hi - lo
  {
    if lo >= hi then [] else [lo] + Range(lo + 1, hi)
  }

  lemma {:induction false} RangePush(lo: nat, hi: nat)
    requires lo <= hi
    ensures Range(lo, hi + 1) == Range(lo, hi) + [hi] && |Range(lo, hi)| == hi - lo
    decreases hi - lo
  {
    if lo < hi { RangePush(lo + 1, hi); }
  }
}
