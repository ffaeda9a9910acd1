/** The word diff of two lines: trim, align the middle tokens, and mark what no kept token covers. */
module WordDiff {
  import opened SeqDiff
  import opened SeqTrim
  import opened WordTokens
  import opened WordOps

  /** The line without its end-of-line characters. */
  function TrimEnd(s: string): (r: string)
    ensures r <= s && (r != "" ==> r[|r| - 1] != '\r' && r[|r| - 1] != '\n')
    ensures forall k :: |r| <= k < |s| ==> s[k] == '\r' || s[k] == '\n'
  {
    if s != "" && (s[|s| - 1] == '\r' || s[|s| - 1] == '\n') then TrimEnd(s[..|s| - 1]) else s
  }

  /** Two tokens spell the same text. */
  function SameText(src: string, dst: string, ts: seq<WordToken>, td: seq<WordToken>): (nat, nat) -> bool {
    (i: nat, j: nat) => i < |ts| && j < |td| && Text(src, ts[i]) == Text(dst, td[j])
  }

  function SameToken(src: string, dst: string, ts: seq<WordToken>, td: seq<WordToken>): (nat, nat) -> bool {
    (i: nat, j: nat) => i < |ts| && j < |td| && TokensEqual(src, dst, ts[i], td[j])
  }

  lemma SameTokenIsText(hash: Hash, src: string, dst: string, ts: seq<WordToken>, td: seq<WordToken>, ps: Pairs)
    requires Partition(ts, hash, src, 0) && Partition(td, hash, dst, 0)
    ensures Common(SameToken(src, dst, ts, td), ps, |ts|, |td|) <==> Common(SameText(src, dst, ts, td), ps, |ts|, |td|)
  {
    forall i: nat, j: nat ensures SameToken(src, dst, ts, td)(i, j) == SameText(src, dst, ts, td)(i, j) {
      if i < |ts| && j < |td| { HashHarmless(hash, src, dst, ts, td, i, j); }
    }
  }

  lemma CommonFollows(eq: (nat, nat) -> bool, ts: seq<WordToken>, td: seq<WordToken>, ps: Pairs)
    requires Common(eq, ps, |ts|, |td|)
    ensures Follows(ts, td, ps)
  {
  }

  /** Replacing a whole line that is over the budget. */
  function WholeLine(src: string, dst: string): seq<WordOp> {
    (if src == "" then [] else [WordOp(Delete, 0, |src|, 0, 0)])
      + (if dst == "" then [] else [WordOp(Insert, 0, 0, 0, |dst|)])
  }

  /** The operations keep a longest common subsequence of the full token lists, and mark the slots between its pairs. */
  ghost predicate KeepsLongest(src: string, dst: string, ts: seq<WordToken>, td: seq<WordToken>, ops: seq<WordOp>) {
    exists ps :: Follows(ts, td, ps) && Longest(SameText(src, dst, ts, td), ps, |ts|, |td|)
      && ops == Expected(ts, td, ps)
  }

  /** What a diff of two trimmed lines has to return. */
  ghost predicate Diffs(dec: Decoder, hash: Hash, src: string, dst: string, ops: seq<WordOp>)
    requires Decodes(dec)
  {
    var ts, td := Tokens(dec, hash, src, 0), Tokens(dec, hash, dst, 0);
    if |ts| <= MAX_TOKENS && |td| <= MAX_TOKENS then KeepsLongest(src, dst, ts, td, ops) else ops == WholeLine(src, dst)
  }

  // ---------------------------------------------------------------- the marked ranges

  /** The tokens of every pair spell the same text. */
  ghost predicate Agree(src: string, dst: string, ts: seq<WordToken>, td: seq<WordToken>, ps: Pairs) {
    forall k :: 0 <= k < |ps| ==> ps[k].0 < |ts| && ps[k].1 < |td| && Text(src, ts[ps[k].0]) == Text(dst, td[ps[k].1])
  }

  lemma CommonAgree(src: string, dst: string, ts: seq<WordToken>, td: seq<WordToken>, ps: Pairs)
    requires Common(SameText(src, dst, ts, td), ps, |ts|, |td|)
    ensures Agree(src, dst, ts, td, ps)
  {
    forall k | 0 <= k < |ps| ensures Text(src, ts[ps[k].0]) == Text(dst, td[ps[k].1]) {
      assert SameText(src, dst, ts, td)(ps[k].0, ps[k].1);
    }
  }

  /** Kept pairs spell the same text on both sides. */
  lemma {:induction false} KeptSame(src: string, dst: string, ts: seq<WordToken>, td: seq<WordToken>, ps: Pairs, k: nat)
    requires Agree(src, dst, ts, td, ps)
    ensures Kept(src, ts, ps, k, true) == Kept(dst, td, ps, k, false)
    decreases |ps| - k
  {
    if k < |ps| {
      KeptSame(src, dst, ts, td, ps, k + 1);
      SameSides(src, dst, ts, td, ps, k);
      hide Agree, Text;
    }
  }

  lemma SameSides(src: string, dst: string, ts: seq<WordToken>, td: seq<WordToken>, ps: Pairs, k: nat)
    requires Agree(src, dst, ts, td, ps) && k < |ps|
    ensures Side(ps[k], true) < |ts| && Side(ps[k], false) < |td|
    ensures Text(src, ts[Side(ps[k], true)]) == Text(dst, td[Side(ps[k], false)])
  {
  }

  /**
    * On both lines the operations mark ordered, disjoint, non-empty ranges, and what they leave unmarked spells the
    * same string on both.
    */
  ghost predicate Partitions(src: string, dst: string, ops: seq<WordOp>) {
    && Ordered(Ranges(ops, true), 0, |src|) && Ordered(Ranges(ops, false), 0, |dst|)
    && Uncovered(src, Ranges(ops, true), 0) == Uncovered(dst, Ranges(ops, false), 0)
  }

  lemma RangesOne(op: WordOp, onSrc: bool)
    ensures Ranges([op], onSrc) == RangeOf(op, onSrc)
  {
    assert [op][1..] == [];
  }

  lemma WholeLinePartitions(src: string, dst: string)
    ensures Partitions(src, dst, WholeLine(src, dst))
  {
    var a, b := WordOp(Delete, 0, |src|, 0, 0), WordOp(Insert, 0, 0, 0, |dst|);
    RangesOne(a, true);
    RangesOne(a, false);
    RangesOne(b, true);
    RangesOne(b, false);
    RangesConcat([a], [b], true);
    RangesConcat([a], [b], false);
    assert src[|src|..] == "" && dst[|dst|..] == "";
  }

  lemma DiffsPartitions(dec: Decoder, hash: Hash, src: string, dst: string, ops: seq<WordOp>)
    requires Decodes(dec) && Diffs(dec, hash, src, dst, ops)
    ensures Partitions(src, dst, ops)
  {
    var ts, td := Tokens(dec, hash, src, 0), Tokens(dec, hash, dst, 0);
    TokensPartition(dec, hash, src, 0);
    TokensPartition(dec, hash, dst, 0);
    hide Tokens, Partition;
    if |ts| <= MAX_TOKENS && |td| <= MAX_TOKENS {
      var ps :| Follows(ts, td, ps) && Longest(SameText(src, dst, ts, td), ps, |ts|, |td|)
        && ops == Expected(ts, td, ps);
      ExpectedPartitions(hash, src, dst, ts, td, ps);
    } else {
      WholeLinePartitions(src, dst);
    }
  }

  lemma ExpectedPartitions(hash: Hash, src: string, dst: string, ts: seq<WordToken>, td: seq<WordToken>, ps: Pairs)
    requires Partition(ts, hash, src, 0) && Partition(td, hash, dst, 0)
    requires Follows(ts, td, ps) && Common(SameText(src, dst, ts, td), ps, |ts|, |td|)
    ensures Partitions(src, dst, Expected(ts, td, ps))
  {
    if ps == [] && |ts| > 0 && |td| > 0 {
      assert ts[|ts| - 1].end == |src| && td[|td| - 1].end == |dst| && ts[0].start == 0 && td[0].start == 0;
      assert src != "" && dst != "";
      WholeLinePartitions(src, dst);
    } else {
      assert Pos(ts, |src|, 0) == 0 && Pos(td, |dst|, 0) == 0;
      SlotsUncover(ts, td, ps, 0, true, hash, src);
      SlotsUncover(ts, td, ps, 0, false, hash, dst);
      CommonAgree(src, dst, ts, td, ps);
      KeptSame(src, dst, ts, td, ps, 0);
    }
  }

  // ---------------------------------------------------------------- the fast paths

  /** The slots between the trimmed ends: all empty but the middle one. */
  lemma EndSlots(prefix: nat, endA: int, endB: int, n: nat, m: nat, k: nat)
    requires prefix <= endA + 1 <= n && prefix <= endB + 1 <= m && n - endA == m - endB
    ensures var ps := Combined(prefix, [], endA, endB, n);
            && |ps| == prefix + n - 1 - endA
            && (k < |ps| && k != prefix ==> SlotStart(ps, k) == ps[k])
            && SlotStart(ps, prefix) == (prefix, prefix)
            && (prefix < |ps| ==> ps[prefix] == (endA + 1, endB + 1) && SlotStart(ps, |ps|) == (n, m))
  {
  }

  /** When all that is kept is the trimmed ends, there is one slot, the middle. */
  lemma TrimmedSlots(ts: seq<WordToken>, td: seq<WordToken>, prefix: nat, endA: int, endB: int)
    requires prefix <= endA + 1 <= |ts| && prefix <= endB + 1 <= |td| && |ts| - endA == |td| - endB
    ensures SlotOps(ts, td, Combined(prefix, [], endA, endB, |ts|), 0)
         == SlotOp(ts, td, prefix, endA + 1, prefix, endB + 1)
  {
    hide SlotOp, SlotOps, Combined, SlotStart, Slot;
    var ps := Combined(prefix, [], endA, endB, |ts|);
    forall i | 0 <= i < |ps| && i != prefix ensures SlotStart(ps, i) == ps[i] {
      EndSlots(prefix, endA, endB, |ts|, |td|, i);
    }
    EndSlots(prefix, endA, endB, |ts|, |td|, prefix);
    EmptySlots(ts, td, ps, 0, prefix);
    SlotsStep(ts, td, ps, prefix);
    SlotBetween(ts, td, ps, prefix, (prefix, prefix), ((endA + 1) as nat, (endB + 1) as nat));
    if prefix < |ps| {
      EmptySlots(ts, td, ps, prefix + 1, |ps|);
      SlotsStep(ts, td, ps, |ps|);
      SlotBetween(ts, td, ps, |ps|, (|ts|, |td|), (|ts|, |td|));
    }
  }

  /** A longest common subsequence of the tokens, whatever the hashes, gives the operations that are due. */
  lemma LongestKeeps(hash: Hash, src: string, dst: string, ts: seq<WordToken>, td: seq<WordToken>, ps: Pairs)
    requires Partition(ts, hash, src, 0) && Partition(td, hash, dst, 0)
    requires Longest(SameToken(src, dst, ts, td), ps, |ts|, |td|)
    ensures Follows(ts, td, ps) && KeepsLongest(src, dst, ts, td, Expected(ts, td, ps))
  {
    hide Common;
    SameTokenIsText(hash, src, dst, ts, td, ps);
    CommonFollows(SameText(src, dst, ts, td), ts, td, ps);
    forall qs | Common(SameText(src, dst, ts, td), qs, |ts|, |td|) ensures |qs| <= |ps| {
      SameTokenIsText(hash, src, dst, ts, td, qs);
    }
  }

  lemma EmptyLongest(eq: (nat, nat) -> bool, n: int, m: int)
    requires n <= 0 || m <= 0
    ensures Longest(eq, [], n, m)
  {
    forall qs: Pairs | Common(eq, qs, n, m) ensures |qs| <= 0 {
      if qs != [] { Spread(eq, qs, n, m, 0); }
    }
  }

  /** With no tokens on one side, nothing can be kept. */
  lemma NothingKept(hash: Hash, src: string, dst: string, ts: seq<WordToken>, td: seq<WordToken>)
    requires Partition(ts, hash, src, 0) && Partition(td, hash, dst, 0) && (ts == [] || td == [])
    ensures KeepsLongest(src, dst, ts, td, SlotOp(ts, td, 0, |ts|, 0, |td|))
  {
    EmptyLongest(SameToken(src, dst, ts, td), |ts|, |td|);
    LongestKeeps(hash, src, dst, ts, td, []);
  }

  /** With nothing left to align on one side, the trimmed ends are all that is kept. */
  lemma EndsKept(hash: Hash, src: string, dst: string, ts: seq<WordToken>, td: seq<WordToken>,
                 prefix: nat, endA: int, endB: int)
    requires Partition(ts, hash, src, 0) && Partition(td, hash, dst, 0) && ts != [] && td != []
    requires Trimmed(SameToken(src, dst, ts, td), |ts|, |td|, prefix, endA, endB) && (prefix > endA || prefix > endB)
    ensures KeepsLongest(src, dst, ts, td, SlotOp(ts, td, prefix, endA + 1, prefix, endB + 1))
  {
    hide Common, Longest, Combined, SlotOp, Partition;
    var eq, ps := SameToken(src, dst, ts, td), Combined(prefix, [], endA, endB, |ts|);
    EmptyLongest(Middle(eq, prefix), endA + 1 - prefix, endB + 1 - prefix);
    TrimKeepsLongest(eq, |ts|, |td|, prefix, endA, endB, []);
    LongestKeeps(hash, src, dst, ts, td, ps);
    TrimmedSlots(ts, td, prefix, endA, endB);
    EndSlots(prefix, endA, endB, |ts|, |td|, 0);
  }

  /** Buffers that one word diff leaves behind for the next. */
  class WordDiffScratch {
    var tokensSrc: seq<WordToken>
    var tokensDst: seq<WordToken>
    const scratch: SeqScratch
    var allMatches: Pairs
    var ops: seq<WordOp>

    constructor ()
      ensures fresh(scratch) && fresh(scratch.dp)
    {
      tokensSrc, tokensDst, allMatches, ops := [], [], [], [];
      scratch := new SeqScratch(16384);
    }

    /**
      * The word diff: within the token budget it keeps a longest common subsequence of the full token lists, although
      * it trims first; and what its operations leave unmarked spells the same string on both lines.
      */
    method Diff(dec: Decoder, hash: Hash, srcLine: string, dstLine: string) returns (res: seq<WordOp>)
      requires Decodes(dec)
      modifies this, scratch, scratch.dp
      ensures res == ops && Diffs(dec, hash, TrimEnd(srcLine), TrimEnd(dstLine), res)
      ensures Partitions(TrimEnd(srcLine), TrimEnd(dstLine), res)
    {
      hide Tokens, Partition, KeepsLongest, Partitions;
      var src, dst := TrimEnd(srcLine), TrimEnd(dstLine);
      ops := [];
      var okSrc, okDst;
      tokensSrc, okSrc := Tokenize(dec, hash, src);
      tokensDst, okDst := Tokenize(dec, hash, dst);
      if !okSrc || !okDst {
        if |src| > 0 { ops := ops + [WordOp(Delete, 0, |src|, 0, 0)]; }
        if |dst| > 0 { ops := ops + [WordOp(Insert, 0, 0, 0, |dst|)]; }
      } else {
        TokensPartition(dec, hash, src, 0);
        TokensPartition(dec, hash, dst, 0);
        DiffTokens(hash, src, dst);
      }
      DiffsPartitions(dec, hash, src, dst, ops);
      res := ops;
    }

    method DiffTokens(ghost hash: Hash, src: string, dst: string)
      requires Partition(tokensSrc, hash, src, 0) && Partition(tokensDst, hash, dst, 0) && ops == []
      modifies this`ops, this`allMatches, scratch, scratch.dp
      ensures KeepsLongest(src, dst, tokensSrc, tokensDst, ops)
    {
      hide KeepsLongest, Partition, Longest, Common, Combined, SameToken, Middle, Expected;
      var N, M := |tokensSrc|, |tokensDst|;
      if N == 0 || M == 0 {
        OneSided(hash, src, dst);
        return;
      }
      ghost var ts, td := tokensSrc, tokensDst;
      var eq := SameToken(src, dst, tokensSrc, tokensDst);
      var prefix, endSrc, endDst := TrimBounds(N, M, eq);
      if prefix > endSrc || prefix > endDst {
        EndsKept(hash, src, dst, ts, td, prefix, endSrc, endDst);
        if prefix <= endDst {
          ops := [WordOp(Insert, 0, 0, tokensDst[prefix].start, tokensDst[endDst].end)];
        } else if prefix <= endSrc {
          ops := [WordOp(Delete, tokensSrc[prefix].start, tokensSrc[endSrc].end, 0, 0)];
        }
        return;
      }
      var matches := scratch.AlignUniform(endSrc + 1 - prefix, endDst + 1 - prefix, Middle(eq, prefix));
      TrimKeepsLongest(eq, N, M, prefix, endSrc, endDst, matches);
      allMatches := CombineMatches([], prefix, matches, endSrc, endDst, N);
      assert allMatches == Combined(prefix, matches, endSrc, endDst, N);
      LongestKeeps(hash, src, dst, ts, td, allMatches);
      EmitSlots();
    }

    /** One of the lines has no tokens at all. */
    method OneSided(ghost hash: Hash, src: string, dst: string)
      requires Partition(tokensSrc, hash, src, 0) && Partition(tokensDst, hash, dst, 0) && ops == []
      requires tokensSrc == [] || tokensDst == []
      modifies this`ops
      ensures KeepsLongest(src, dst, tokensSrc, tokensDst, ops)
    {
      hide KeepsLongest;
      NothingKept(hash, src, dst, tokensSrc, tokensDst);
      if |tokensSrc| == 0 && |tokensDst| == 0 { return; }
      if |tokensSrc| == 0 {
        ops := [WordOp(Insert, 0, 0, 0, |dst|)];
      } else {
        ops := [WordOp(Delete, 0, |src|, 0, 0)];
      }
    }

    /** The unmatched tokens, slot by slot between the matches. */
    method EmitSlots()
      requires tokensSrc != [] && tokensDst != [] && ops == [] && Follows(tokensSrc, tokensDst, allMatches)
      modifies this`ops
      ensures ops == Expected(tokensSrc, tokensDst, allMatches)
    {
      var N, M, K := |tokensSrc|, |tokensDst|, |allMatches|;
      if K == 0 {
        ops := [WordOp(Delete, tokensSrc[0].start, tokensSrc[N - 1].end, 0, 0),
                WordOp(Insert, 0, 0, tokensDst[0].start, tokensDst[M - 1].end)];
        return;
      }
      EmitEach();
    }

    method EmitEach()
      requires ops == [] && Follows(tokensSrc, tokensDst, allMatches)
      modifies this`ops
      ensures ops == SlotOps(tokensSrc, tokensDst, allMatches, 0)
    {
      hide SlotOp, SlotOps, Follows;
      var K := |allMatches|;
      for slot := 0 to K + 1
        invariant ops + (if slot <= K then SlotOps(tokensSrc, tokensDst, allMatches, slot) else [])
               == SlotOps(tokensSrc, tokensDst, allMatches, 0)
      {
        SlotBounds(tokensSrc, tokensDst, allMatches, slot);
        SlotsStep(tokensSrc, tokensDst, allMatches, slot);
        var from, to := SlotStart(allMatches, slot), SlotEnd(tokensSrc, tokensDst, allMatches, slot);
        EmitSlot(from.0, to.0, from.1, to.1);
      }
    }

    method EmitSlot(srcStartTok: nat, srcEndTok: nat, dstStartTok: nat, dstEndTok: nat)
      requires srcStartTok <= srcEndTok <= |tokensSrc| && dstStartTok <= dstEndTok <= |tokensDst|
      modifies this`ops
      ensures ops == old(ops) + SlotOp(tokensSrc, tokensDst, srcStartTok, srcEndTok, dstStartTok, dstEndTok)
    {
      var numSrc, numDst := srcEndTok - srcStartTok, dstEndTok - dstStartTok;
      if numSrc > 0 && numDst > 0 {
        ops := ops + [WordOp(Update, tokensSrc[srcStartTok].start, tokensSrc[srcEndTok - 1].end,
                             tokensDst[dstStartTok].start, tokensDst[dstEndTok - 1].end)];
      } else if numSrc > 0 && numDst == 0 {
        ops := ops + [WordOp(Delete, tokensSrc[srcStartTok].start, tokensSrc[srcEndTok - 1].end, 0, 0)];
      } else if numSrc == 0 && numDst > 0 {
        ops := ops + [WordOp(Insert, 0, 0, tokensDst[dstStartTok].start, tokensDst[dstEndTok - 1].end)];
      }
    }
  }
}
