/** Splitting a line into words, runs of blanks and single other runes, up to a budget. */
module WordTokens {

  const MAX_TOKENS := 120

  datatype Kind = Word | Blank | Other

  /** What decoding the front of a text yields: the kind of the rune there and the bytes it takes. */
  datatype Rune = Rune(kind: Kind, size: nat)

  type Decoder = string -> Rune

  /** A decoder always takes at least one byte and never more than there are. */
  ghost predicate Decodes(dec: Decoder) {
    forall t :: t != "" ==> 1 <= dec(t).size <= |t|
  }

  datatype WordToken = WordToken(hash: int, start: nat, end: nat)

  /** A hash of the token's bytes; which one does not matter. */
  type Hash = string -> int

  /** Where the run of runes of this kind that has come to i ends. */
  function RunEnd(dec: Decoder, s: string, kind: Kind, i: nat): (r: nat)
    requires Decodes(dec) && i <= |s|
    ensures i <= r <= |s|
    decreases |s| - i
  {
    if i < |s| && dec(s[i..]).kind == kind then RunEnd(dec, s, kind, i + dec(s[i..]).size) else i
  }

  /** Where the token that starts at i ends. */
  function TokenEnd(dec: Decoder, s: string, i: nat): (r: nat)
    requires Decodes(dec) && i < |s|
    ensures i < r <= |s|
  {
    var rune := dec(s[i..]);
    if rune.kind == Other then i + rune.size else RunEnd(dec, s, rune.kind, i + rune.size)
  }

  /** All tokens from i on, without a budget. */
  function Tokens(dec: Decoder, hash: Hash, s: string, i: nat): seq<WordToken>
    requires Decodes(dec) && i <= |s|
    decreases |s| - i
  {
    if i == |s| then []
    else
      var end := TokenEnd(dec, s, i);
      [WordToken(hash(s[i..end]), i, end)] + Tokens(dec, hash, s, end)
  }

  /** Where token k starts; the end of the line after the last token. */
  function Pos(ts: seq<WordToken>, len: nat, k: nat): nat {
    if k < |ts| then ts[k].start else len
  }

  /** The tokens cut the rest of the line, from i on, into non-empty pieces. */
  ghost predicate Partition(ts: seq<WordToken>, hash: Hash, s: string, i: nat) {
    && Pos(ts, |s|, 0) == i <= |s|
    && (forall k :: 0 <= k < |ts| ==> ts[k].start < ts[k].end <= |s| && ts[k].hash == hash(s[ts[k].start..ts[k].end]))
    && (forall k, l :: 0 <= k < |ts| && l == k + 1 < |ts| ==> ts[k].end == ts[l].start)
    && (ts != [] ==> ts[|ts| - 1].end == |s|)
  }

  // ---------------------------------------------------------------- the tokens are the maximal runs

  /** The runes from i on are all of this kind, and one of them ends at e. */
  ghost predicate AllOf(dec: Decoder, s: string, kind: Kind, i: nat, e: nat)
    requires Decodes(dec)
    decreases |s| - i
  {
    i <= e <= |s| && (i == e || (dec(s[i..]).kind == kind && AllOf(dec, s, kind, i + dec(s[i..]).size, e)))
  }

  /** A single other rune, or runes of one kind that go on as long as they can. */
  ghost predicate IsRun(dec: Decoder, s: string, i: nat, e: nat)
    requires Decodes(dec)
  {
    && i < e <= |s|
    && var rune := dec(s[i..]);
       if rune.kind == Other then e == i + rune.size
       else AllOf(dec, s, rune.kind, i, e) && (e == |s| || dec(s[e..]).kind != rune.kind)
  }

  ghost predicate Runs(dec: Decoder, s: string, ts: seq<WordToken>)
    requires Decodes(dec)
  {
    forall k :: 0 <= k < |ts| ==> IsRun(dec, s, ts[k].start, ts[k].end)
  }

  lemma {:induction false} RunEndIs(dec: Decoder, s: string, kind: Kind, i: nat, e: nat)
    requires Decodes(dec) && i <= |s|
    ensures e == RunEnd(dec, s, kind, i) <==> AllOf(dec, s, kind, i, e) && (e == |s| || dec(s[e..]).kind != kind)
    decreases |s| - i
  {
    if i < |s| && dec(s[i..]).kind == kind { RunEndIs(dec, s, kind, i + dec(s[i..]).size, e); }
  }

  lemma TokenEndIs(dec: Decoder, s: string, i: nat, e: nat)
    requires Decodes(dec) && i < |s|
    ensures e == TokenEnd(dec, s, i) <==> IsRun(dec, s, i, e)
  {
    RunEndIs(dec, s, dec(s[i..]).kind, i + dec(s[i..]).size, e);
  }

  lemma PartitionTail(ts: seq<WordToken>, hash: Hash, s: string, i: nat)
    requires ts != []
    ensures Partition(ts, hash, s, i) <==>
              && ts[0].start == i < ts[0].end <= |s| && ts[0].hash == hash(s[i..ts[0].end])
              && Partition(ts[1..], hash, s, ts[0].end)
  {
    if Partition(ts[1..], hash, s, ts[0].end) {
      assert forall k :: 0 < k < |ts| ==> ts[k] == ts[1..][k - 1];
    }
  }

  /** The only list of tokens that cut the line into runs which could not be longer. */
  lemma {:induction false} TokensAreRuns(dec: Decoder, hash: Hash, s: string, i: nat, ts: seq<WordToken>)
    requires Decodes(dec) && i <= |s|
    ensures ts == Tokens(dec, hash, s, i) <==> Partition(ts, hash, s, i) && Runs(dec, s, ts)
    decreases |s| - i
  {
    hide IsRun, TokenEnd;
    if i < |s| && ts != [] {
      var end := TokenEnd(dec, s, i);
      TokenEndIs(dec, s, i, ts[0].end);
      TokensAreRuns(dec, hash, s, end, ts[1..]);
      hide Partition;
      PartitionTail(ts, hash, s, i);
      assert ts == [ts[0]] + ts[1..];
      assert Runs(dec, s, ts) <==> IsRun(dec, s, ts[0].start, ts[0].end) && Runs(dec, s, ts[1..]);
    }
  }

  lemma TokensPartition(dec: Decoder, hash: Hash, s: string, i: nat)
    requires Decodes(dec) && i <= |s|
    ensures Partition(Tokens(dec, hash, s, i), hash, s, i)
  {
    TokensAreRuns(dec, hash, s, i, Tokens(dec, hash, s, i));
  }

  /** The inner loop of the tokenizer. */
  method SkipRun(dec: Decoder, s: string, kind: Kind, from: nat) returns (i: nat)
    requires Decodes(dec) && from <= |s|
    ensures i == RunEnd(dec, s, kind, from)
  {
    i := from;
    while i < |s|
      invariant i <= |s| && RunEnd(dec, s, kind, i) == RunEnd(dec, s, kind, from)
    {
      var rune := dec(s[i..]);
      if rune.kind != kind { break; }
      i := i + rune.size;
    }
  }

  lemma TokensStep(dec: Decoder, hash: Hash, s: string, done: seq<WordToken>, i: nat)
    requires Decodes(dec) && i < |s|
    ensures var token := WordToken(hash(s[i..TokenEnd(dec, s, i)]), i, TokenEnd(dec, s, i));
            && |Tokens(dec, hash, s, i)| > 0
            && done + Tokens(dec, hash, s, i) == (done + [token]) + Tokens(dec, hash, s, TokenEnd(dec, s, i))
  {
  }

  lemma TokensEnd(dec: Decoder, hash: Hash, s: string)
    requires Decodes(dec)
    ensures Tokens(dec, hash, s, |s|) == []
  {
  }

  /** The tokens of the line, or a refusal exactly when there are more than the budget allows. */
  method Tokenize(dec: Decoder, hash: Hash, s: string) returns (tokens: seq<WordToken>, ok: bool)
    requires Decodes(dec)
    ensures ok <==> |Tokens(dec, hash, s, 0)| <= MAX_TOKENS
    ensures ok ==> tokens == Tokens(dec, hash, s, 0)
  {
    hide Tokens, RunEnd;
    tokens, ok := [], true;
    var i := 0;
    while i < |s|
      invariant i <= |s| && |tokens| <= MAX_TOKENS && tokens + Tokens(dec, hash, s, i) == Tokens(dec, hash, s, 0)
    {
      TokensStep(dec, hash, s, tokens, i);
      if |tokens| >= MAX_TOKENS { return tokens, false; }
      var start := i;
      var rune := dec(s[i..]);
      i := i + rune.size;
      if rune.kind != Other { i := SkipRun(dec, s, rune.kind, i); }
      tokens := tokens + [WordToken(hash(s[start..i]), start, i)];
    }
    TokensEnd(dec, hash, s);
  }

  /** The text of a token. */
  function Text(s: string, t: WordToken): string {
    if t.start <= t.end <= |s| then s[t.start..t.end] else ""
  }

  predicate TokensEqual(src: string, dst: string, t1: WordToken, t2: WordToken) {
    t1.hash == t2.hash && Text(src, t1) == Text(dst, t2)
  }

  /** Comparing hashes first changes nothing. */
  lemma HashHarmless(hash: Hash, src: string, dst: string, ts: seq<WordToken>, td: seq<WordToken>, i: nat, j: nat)
    requires Partition(ts, hash, src, 0) && Partition(td, hash, dst, 0) && i < |ts| && j < |td|
    ensures TokensEqual(src, dst, ts[i], td[j]) <==> Text(src, ts[i]) == Text(dst, td[j])
  {
  }
}
