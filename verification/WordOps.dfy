/** The operations between two tokenized lines that an alignment of their tokens stands for, and what they leave
    uncovered. */
module WordOps {
  import opened SeqDiff
  import opened WordTokens

  datatype WordAction = Update | Delete | Insert

  /** One operation: the bytes of the source line and of the target line that it marks. */
  datatype WordOp = WordOp(action: WordAction, srcStart: nat, srcEnd: nat, dstStart: nat, dstEnd: nat)

  /** The operation for the tokens s0..s1 and d0..d1 between two kept tokens. */
  function SlotOp(ts: seq<WordToken>, td: seq<WordToken>, s0: nat, s1: nat, d0: nat, d1: nat): seq<WordOp>
  {
    if s0 < s1 <= |ts| && d0 < d1 <= |td| then
      [WordOp(Update, ts[s0].start, ts[s1 - 1].end, td[d0].start, td[d1 - 1].end)]
    else if s0 < s1 <= |ts| then [WordOp(Delete, ts[s0].start, ts[s1 - 1].end, 0, 0)]
    else if d0 < d1 <= |td| then [WordOp(Insert, 0, 0, td[d0].start, td[d1 - 1].end)]
    else []
  }

  /** Pairs of tokens in increasing order. */
  ghost predicate Follows(ts: seq<WordToken>, td: seq<WordToken>, ps: Pairs) {
    && (forall k :: 0 <= k < |ps| ==> ps[k].0 < |ts| && ps[k].1 < |td|)
    && forall k, l :: 0 <= k < l < |ps| ==> ps[k].0 < ps[l].0 && ps[k].1 < ps[l].1
  }

  /** Where slot k starts: after the kept pair before it. */
  function SlotStart(ps: Pairs, k: nat): (nat, nat) {
    if k == 0 || k > |ps| then (0, 0) else (ps[k - 1].0 + 1, ps[k - 1].1 + 1)
  }

  /** Where slot k ends: at the next kept pair, or at the ends of the lines. */
  function SlotEnd(ts: seq<WordToken>, td: seq<WordToken>, ps: Pairs, k: nat): (nat, nat) {
    if k < |ps| then ps[k] else (|ts|, |td|)
  }

  lemma SlotBounds(ts: seq<WordToken>, td: seq<WordToken>, ps: Pairs, k: nat)
    requires Follows(ts, td, ps) && k <= |ps|
    ensures SlotStart(ps, k).0 <= SlotEnd(ts, td, ps, k).0 <= |ts|
    ensures SlotStart(ps, k).1 <= SlotEnd(ts, td, ps, k).1 <= |td|
    ensures k < |ps| ==> ps[k].0 < |ts| && ps[k].1 < |td|
  {
  }

  /** The operation of slot k, if there are tokens in it. */
  function Slot(ts: seq<WordToken>, td: seq<WordToken>, ps: Pairs, k: nat): seq<WordOp> {
    var a, b := SlotStart(ps, k), SlotEnd(ts, td, ps, k);
    SlotOp(ts, td, a.0, b.0, a.1, b.1)
  }

  /** The operations of slot k and all later ones: one slot before each kept pair and one after the last. */
  function SlotOps(ts: seq<WordToken>, td: seq<WordToken>, ps: Pairs, k: nat): seq<WordOp>
    decreases |ps| - k
  {
    Slot(ts, td, ps, k) + if k < |ps| then SlotOps(ts, td, ps, k + 1) else []
  }

  lemma SlotsStep(ts: seq<WordToken>, td: seq<WordToken>, ps: Pairs, k: nat)
    ensures k < |ps| ==> SlotOps(ts, td, ps, k) == Slot(ts, td, ps, k) + SlotOps(ts, td, ps, k + 1)
    ensures k >= |ps| ==> SlotOps(ts, td, ps, k) == Slot(ts, td, ps, k)
  {
    hide Slot;
  }

  /** The operations for the kept pairs ps; two lines that share nothing are replaced whole. */
  function Expected(ts: seq<WordToken>, td: seq<WordToken>, ps: Pairs): seq<WordOp> {
    if ps == [] && |ts| > 0 && |td| > 0 then
      [WordOp(Delete, ts[0].start, ts[|ts| - 1].end, 0, 0), WordOp(Insert, 0, 0, td[0].start, td[|td| - 1].end)]
    else SlotOps(ts, td, ps, 0)
  }

  // ---------------------------------------------------------------- what the operations leave uncovered

  /** The byte range that an operation marks on one side, if any. */
  function RangeOf(op: WordOp, onSrc: bool): seq<(nat, nat)> {
    if onSrc then (if op.action == Insert then [] else [(op.srcStart, op.srcEnd)])
    else (if op.action == Delete then [] else [(op.dstStart, op.dstEnd)])
  }

  function Ranges(ops: seq<WordOp>, onSrc: bool): seq<(nat, nat)> {
    if ops == [] then [] else RangeOf(ops[0], onSrc) + Ranges(ops[1..], onSrc)
  }

  lemma {:induction false} RangesConcat(a: seq<WordOp>, b: seq<WordOp>, onSrc: bool)
    ensures Ranges(a + b, onSrc) == Ranges(a, onSrc) + Ranges(b, onSrc)
  {
    if a == [] {
      assert a + b == b;
    } else {
      assert (a + b)[1..] == a[1..] + b;
      RangesConcat(a[1..], b, onSrc);
      var first := RangeOf(a[0], onSrc);
      assert Ranges(a + b, onSrc) == first + (Ranges(a[1..], onSrc) + Ranges(b, onSrc));
    }
  }

  /** Non-empty ranges, in order and disjoint, between from and the end of the line. */
  ghost predicate Ordered(rs: seq<(nat, nat)>, from: nat, len: nat)
    decreases |rs|
  {
    if rs == [] then from <= len else from <= rs[0].0 < rs[0].1 <= len && Ordered(rs[1..], rs[0].1, len)
  }

  /** The bytes from from on that the ranges leave out. */
  ghost function Uncovered(s: string, rs: seq<(nat, nat)>, from: nat): string
    requires Ordered(rs, from, |s|)
    decreases |rs|
  {
    if rs == [] then s[from..] else s[from..rs[0].0] + Uncovered(s, rs[1..], rs[0].1)
  }

  /** From from on, the ranges are in order and leave exactly this text uncovered. */
  ghost predicate Leaves(s: string, rs: seq<(nat, nat)>, from: nat, text: string) {
    Ordered(rs, from, |s|) && Uncovered(s, rs, from) == text
  }

  lemma LeavesAll(s: string)
    ensures Leaves(s, [], |s|, "")
  {
  }

  /** An unmarked stretch before the ranges is left uncovered too. */
  lemma LeavesSkip(s: string, rs: seq<(nat, nat)>, from: nat, to: nat, text: string)
    requires from <= to && Leaves(s, rs, to, text)
    ensures from <= to <= |s| && Leaves(s, rs, from, s[from..to] + text)
  {
    if rs == [] {
      assert s[from..] == s[from..to] + s[to..];
    } else {
      assert s[from..rs[0].0] == s[from..to] + s[to..rs[0].0];
      var rest := Uncovered(s, rs[1..], rs[0].1);
      assert s[from..rs[0].0] + rest == s[from..to] + (s[to..rs[0].0] + rest);
    }
  }

  /** A marked stretch, or none, before the ranges leaves nothing more. */
  lemma LeavesRange(s: string, rs: seq<(nat, nat)>, from: nat, to: nat, text: string)
    requires from <= to && Leaves(s, rs, to, text)
    ensures Leaves(s, (if from < to then [(from, to)] else []) + rs, from, text)
  {
    if from < to {
      assert ([(from, to)] + rs)[1..] == rs;
      assert s[from..from] == "";
      assert [] + text == text;
    } else {
      assert [] + rs == rs;
    }
  }

  function Side(p: (nat, nat), onSrc: bool): nat {
    if onSrc then p.0 else p.1
  }

  /** The text of the kept tokens of one side, from kept pair k on. */
  function Kept(s: string, t: seq<WordToken>, ps: Pairs, k: nat, onSrc: bool): string
    decreases |ps| - k
  {
    if k >= |ps| then ""
    else (if Side(ps[k], onSrc) < |t| then Text(s, t[Side(ps[k], onSrc)]) else "") + Kept(s, t, ps, k + 1, onSrc)
  }

  lemma PosStep(t: seq<WordToken>, hash: Hash, s: string, k: nat)
    requires k < |t| && Partition(t, hash, s, 0)
    ensures Pos(t, |s|, k) < Pos(t, |s|, k + 1) == t[k].end <= |s| && Text(s, t[k]) == s[Pos(t, |s|, k)..t[k].end]
  {
  }

  lemma PosPast(t: seq<WordToken>, s: string)
    ensures Pos(t, |s|, |t|) == |s|
  {
  }

  lemma {:induction false} PosGrows(t: seq<WordToken>, hash: Hash, s: string, a: nat, b: nat)
    requires a <= b <= |t| && Partition(t, hash, s, 0)
    ensures if a < b then Pos(t, |s|, a) < Pos(t, |s|, b) <= |s| else Pos(t, |s|, a) <= |s|
    decreases b
  {
    if a < b {
      PosStep(t, hash, s, b - 1);
      hide Partition, Pos;
      PosGrows(t, hash, s, a, b - 1);
    } else if a < |t| {
      PosStep(t, hash, s, a);
    }
  }

  /** One slot marks exactly the bytes of its own tokens. */
  lemma SlotRange(ts: seq<WordToken>, td: seq<WordToken>, ps: Pairs, k: nat, onSrc: bool, hash: Hash, s: string)
    requires Follows(ts, td, ps) && k <= |ps| && Partition(if onSrc then ts else td, hash, s, 0)
    ensures var t := if onSrc then ts else td;
            var from, to :=
              Pos(t, |s|, Side(SlotStart(ps, k), onSrc)), Pos(t, |s|, Side(SlotEnd(ts, td, ps, k), onSrc));
            from <= to <= |s| && Ranges(Slot(ts, td, ps, k), onSrc) == if from < to then [(from, to)] else []
  {
    hide Partition, Follows;
    SlotBounds(ts, td, ps, k);
    var t, a, b := if onSrc then ts else td, Side(SlotStart(ps, k), onSrc), Side(SlotEnd(ts, td, ps, k), onSrc);
    PosGrows(t, hash, s, a, b);
    if a < b { PosStep(t, hash, s, b - 1); }
  }

  /** What SlotsUncover says of slot k. */
  ghost predicate Uncovers(ts: seq<WordToken>, td: seq<WordToken>, ps: Pairs, k: nat, onSrc: bool, s: string) {
    var t := if onSrc then ts else td;
    Leaves(s, Ranges(SlotOps(ts, td, ps, k), onSrc), Pos(t, |s|, Side(SlotStart(ps, k), onSrc)),
           Kept(s, t, ps, k, onSrc))
  }

  lemma LastUncovers(ts: seq<WordToken>, td: seq<WordToken>, ps: Pairs, k: nat, onSrc: bool, hash: Hash, s: string)
    requires Follows(ts, td, ps) && k == |ps| && Partition(if onSrc then ts else td, hash, s, 0)
    ensures Uncovers(ts, td, ps, k, onSrc, s)
  {
    hide Partition, Pos, Ranges, Leaves, Slot, SlotOps, Follows;
    var t := if onSrc then ts else td;
    SlotsStep(ts, td, ps, k);
    SlotRange(ts, td, ps, k, onSrc, hash, s);
    PosPast(t, s);
    LeavesAll(s);
    LeavesRange(s, [], Pos(t, |s|, Side(SlotStart(ps, k), onSrc)), |s|, "");
    assert Ranges(Slot(ts, td, ps, k), onSrc) + [] == Ranges(Slot(ts, td, ps, k), onSrc);
  }

  lemma NextUncovers(ts: seq<WordToken>, td: seq<WordToken>, ps: Pairs, k: nat, onSrc: bool, hash: Hash, s: string)
    requires Follows(ts, td, ps) && k < |ps| && Partition(if onSrc then ts else td, hash, s, 0)
    requires Uncovers(ts, td, ps, k + 1, onSrc, s)
    ensures Uncovers(ts, td, ps, k, onSrc, s)
  {
    hide Partition, Pos, Ranges, Leaves, Slot, SlotOps, Follows;
    var t := if onSrc then ts else td;
    var from, to := Pos(t, |s|, Side(SlotStart(ps, k), onSrc)), Pos(t, |s|, Side(ps[k], onSrc));
    var rest := SlotOps(ts, td, ps, k + 1);
    SlotsStep(ts, td, ps, k);
    SlotRange(ts, td, ps, k, onSrc, hash, s);
    SlotBounds(ts, td, ps, k);
    RangesConcat(Slot(ts, td, ps, k), rest, onSrc);
    PosStep(t, hash, s, Side(ps[k], onSrc));
    LeavesSkip(s, Ranges(rest, onSrc), to, t[Side(ps[k], onSrc)].end, Kept(s, t, ps, k + 1, onSrc));
    LeavesRange(s, Ranges(rest, onSrc), from, to, Kept(s, t, ps, k, onSrc));
  }

  /** From slot k on, the operations mark ordered disjoint ranges and leave exactly the kept tokens uncovered. */
  lemma {:induction false} SlotsUncover(ts: seq<WordToken>, td: seq<WordToken>, ps: Pairs, k: nat,
                                        onSrc: bool, hash: Hash, s: string)
    requires Follows(ts, td, ps) && k <= |ps| && Partition(if onSrc then ts else td, hash, s, 0)
    ensures Uncovers(ts, td, ps, k, onSrc, s)
    decreases |ps| - k
  {
    hide Uncovers, Follows, Partition;
    if k >= |ps| {
      LastUncovers(ts, td, ps, k, onSrc, hash, s);
    } else {
      SlotsUncover(ts, td, ps, k + 1, onSrc, hash, s);
      NextUncovers(ts, td, ps, k, onSrc, hash, s);
    }
  }

  lemma SlotBetween(ts: seq<WordToken>, td: seq<WordToken>, ps: Pairs, k: nat, from: (nat, nat), to: (nat, nat))
    requires SlotStart(ps, k) == from && SlotEnd(ts, td, ps, k) == to
    ensures Slot(ts, td, ps, k) == SlotOp(ts, td, from.0, to.0, from.1, to.1)
    ensures from == to ==> Slot(ts, td, ps, k) == []
  {
  }

  /** Slots without tokens add nothing. */
  lemma {:induction false} EmptySlots(ts: seq<WordToken>, td: seq<WordToken>, ps: Pairs, k: nat, l: nat)
    requires k <= l <= |ps|
    requires forall i :: k <= i < l ==> SlotStart(ps, i) == ps[i]
    ensures SlotOps(ts, td, ps, k) == SlotOps(ts, td, ps, l)
    decreases l - k
  {
    hide SlotOps, Slot, SlotStart;
    if k < l {
      EmptySlots(ts, td, ps, k + 1, l);
      SlotsStep(ts, td, ps, k);
      SlotBetween(ts, td, ps, k, ps[k], ps[k]);
      assert [] + SlotOps(ts, td, ps, k + 1) == SlotOps(ts, td, ps, k + 1);
    }
  }
}
