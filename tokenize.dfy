/**
 * Boundary detection of the tokenizer adapters: from a padded token batch and its
 * attention mask, the half-open span [start, end) of each row's genomic tokens.
 * The tokenizer itself is outside the model; its output (token ids, attention mask)
 * is the input here.
 */
module Tokenize {
  import opened Wrappers
  import opened Tensors

  /** The model family's special tokens (None where the family has none). */
  datatype TokenConfig = TokenConfig(startToken: Option<int>, endToken: Option<int>)

  /** Per-row start positions, or one number broadcast to every row. */
  datatype Starts = PerRow(cols: seq<int>) | Broadcast(value: int)

  datatype Boundaries = Boundaries(starts: Starts, ends: seq<int>)

  datatype TokenizeError =
    | NoAttentionMask       // `attention_mask.sum` on None
    | MissingAttentionMask  // `encoded["attention_mask"]` raised KeyError

  /** Columns j with row[j] == id, in increasing order. */
  function RowMatches(row: seq<int>, id: int): seq<nat>
  {
    if |row| == 0 then []
    else RowMatches(row[..|row| - 1], id) + (if row[|row| - 1] == id then [|row| - 1] else [])
  }

  /** `torch.where(tokens == id)[1]`: the column of every match, row by row. */
  function MatchColumns(tokens: seq<seq<int>>, id: int): seq<nat>
  {
    if |tokens| == 0 then []
    else MatchColumns(tokens[..|tokens| - 1], id) + RowMatches(tokens[|tokens| - 1], id)
  }

  /** id occurs in row exactly once, at column j. */
  predicate OnlyAt(row: seq<int>, id: int, j: nat)
  {
    j < |row| && row[j] == id && forall k :: 0 <= k < |row| && k != j ==> row[k] != id
  }

  /** Each row's start: the start-token column plus 1, or 0 (as a per-row vector). */
  function StartsOf(tokens: seq<seq<int>>, config: TokenConfig): Starts
  {
    match config.startToken
    case Some(id) => PerRow(seq(|MatchColumns(tokens, id)|, k requires 0 <= k < |MatchColumns(tokens, id)| =>
                              MatchColumns(tokens, id)[k] + 1))
    case None => PerRow(seq(|tokens|, r => 0))
  }

  /**
   * `LikelihoodEvaluator.tokenize` (and the variant evaluator's, which also hands the
   * offsets through unchanged): boundaries when the batch is tokenized with `mask`.
   */
  function TokenizeBoundaries(tokens: seq<seq<int>>, mask: Option<seq<seq<int>>>, config: TokenConfig)
    : Result<Boundaries, TokenizeError>
  {
    match config.endToken
    case Some(id) => Success(Boundaries(StartsOf(tokens, config), MatchColumns(tokens, id)))
    case None =>
      if mask.None? then Failure(NoAttentionMask)
      else Success(Boundaries(StartsOf(tokens, config), seq(|mask.value|, r requires 0 <= r < |mask.value| =>
                                                                IntSum(mask.value[r]))))
  }

  /**
   * `HFZeroShotEvaluator.tokenize` of the paired-control evaluator: the attention mask
   * is required, and without a start token the start is the scalar 0.
   */
  function PairedTokenizeBoundaries(tokens: seq<seq<int>>, mask: Option<seq<seq<int>>>, config: TokenConfig)
    : Result<Boundaries, TokenizeError>
  {
    if mask.None? then Failure(MissingAttentionMask)
    else
      var starts := match config.startToken
        case Some(id) => PerRow(seq(|MatchColumns(tokens, id)|, k requires 0 <= k < |MatchColumns(tokens, id)| =>
                                  MatchColumns(tokens, id)[k] + 1))
        case None => Broadcast(0);
      var ends := match config.endToken
        case Some(id) => MatchColumns(tokens, id)
        case None => seq(|mask.value|, r requires 0 <= r < |mask.value| => IntSum(mask.value[r]));
      Success(Boundaries(starts, ends))
  }

  // ---- reference definitions and the lemmas that connect them ----

  lemma {:induction false} RowMatchesOnly(row: seq<int>, id: int, j: nat)
    requires OnlyAt(row, id, j)
    ensures RowMatches(row, id) == [j]
    decreases |row|
  {
    var n := |row|;
    var init := row[..n - 1];
    if j == n - 1 {
      RowMatchesNone(init, id);
    } else {
      assert OnlyAt(init, id, j);
      RowMatchesOnly(init, id, j);
    }
  }

  lemma {:induction false} RowMatchesNone(row: seq<int>, id: int)
    requires forall k :: 0 <= k < |row| ==> row[k] != id
    ensures RowMatches(row, id) == []
    decreases |row|
  {
    if |row| > 0 {
      RowMatchesNone(row[..|row| - 1], id);
    }
  }

  /**
   * When every row holds the token exactly once, `torch.where(...)[1]` lists the
   * token's column of each row, one entry per row, in row order.
   */
  lemma {:induction false} MatchColumnsOnePerRow(tokens: seq<seq<int>>, id: int, cols: seq<nat>)
    requires |cols| == |tokens|
    requires forall r :: 0 <= r < |tokens| ==> OnlyAt(tokens[r], id, cols[r])
    ensures MatchColumns(tokens, id) == cols
    decreases |tokens|
  {
    var n := |tokens|;
    if n > 0 {
      MatchColumnsOnePerRow(tokens[..n - 1], id, cols[..n - 1]);
      RowMatchesOnly(tokens[n - 1], id, cols[n - 1]);
      assert cols == cols[..n - 1] + [cols[n - 1]];
    }
  }

  /** A right-padded attention mask: `len` ones followed by zeros. */
  predicate RightPadded(maskRow: seq<int>, len: nat)
  {
    len <= |maskRow| &&
    (forall k :: 0 <= k < len ==> maskRow[k] == 1) &&
    (forall k :: len <= k < |maskRow| ==> maskRow[k] == 0)
  }

  /** Summing a right-padded mask row gives the number of real tokens. */
  lemma {:induction false} MaskSumIsLength(maskRow: seq<int>, len: nat)
    requires RightPadded(maskRow, len)
    ensures IntSum(maskRow) == len
    decreases |maskRow|
  {
    var n := |maskRow|;
    if n > 0 {
      if len == n {
        MaskSumIsLength(maskRow[..n - 1], len - 1);
      } else {
        MaskSumIsLength(maskRow[..n - 1], len);
      }
    }
  }

  /** The tokenizer output the lemmas below assume: each configured special token once per row. */
  predicate WellFormed(tokens: seq<seq<int>>, config: TokenConfig, startCols: seq<nat>, endCols: seq<nat>)
  {
    |startCols| == |tokens| && |endCols| == |tokens| &&
    (config.startToken.Some? ==> forall r :: 0 <= r < |tokens| ==> OnlyAt(tokens[r], config.startToken.value, startCols[r])) &&
    (config.endToken.Some? ==> forall r :: 0 <= r < |tokens| ==> OnlyAt(tokens[r], config.endToken.value, endCols[r]))
  }

  /**
   * Row r's span starts after its start token (or at 0) and ends at its end token
   * (or at the count of ones in its attention mask); the only failure is a missing
   * mask when the end must come from it.
   */
  lemma TokenizeSpans(tokens: seq<seq<int>>, mask: Option<seq<seq<int>>>, config: TokenConfig,
                      startCols: seq<nat>, endCols: seq<nat>)
    requires WellFormed(tokens, config, startCols, endCols)
    requires mask.Some? ==> |mask.value| == |tokens|
    ensures TokenizeBoundaries(tokens, mask, config).Failure? <==> config.endToken.None? && mask.None?
    ensures TokenizeBoundaries(tokens, mask, config).Success? ==>
      var b := TokenizeBoundaries(tokens, mask, config).value;
      b.starts.PerRow? && |b.starts.cols| == |tokens| && |b.ends| == |tokens| &&
      forall r :: 0 <= r < |tokens| ==>
        b.starts.cols[r] == (if config.startToken.Some? then startCols[r] + 1 else 0) &&
        b.ends[r] == (if config.endToken.Some? then endCols[r] else IntSum(mask.value[r]))
  {
    if config.startToken.Some? {
      MatchColumnsOnePerRow(tokens, config.startToken.value, startCols);
    }
    if config.endToken.Some? {
      MatchColumnsOnePerRow(tokens, config.endToken.value, endCols);
    }
  }

  /** The paired-control adapter: same spans, the scalar 0 start, and a mask that must be present. */
  lemma PairedTokenizeSpans(tokens: seq<seq<int>>, mask: Option<seq<seq<int>>>, config: TokenConfig,
                            startCols: seq<nat>, endCols: seq<nat>)
    requires WellFormed(tokens, config, startCols, endCols)
    requires mask.Some? ==> |mask.value| == |tokens|
    ensures PairedTokenizeBoundaries(tokens, mask, config).Failure? <==> mask.None?
    ensures PairedTokenizeBoundaries(tokens, mask, config).Success? ==>
      var b := PairedTokenizeBoundaries(tokens, mask, config).value;
      (config.startToken.None? <==> b.starts == Broadcast(0)) &&
      (b.starts.PerRow? ==>
         |b.starts.cols| == |tokens| &&
         forall r :: 0 <= r < |tokens| ==> b.starts.cols[r] == startCols[r] + 1) &&
      |b.ends| == |tokens| &&
      forall r :: 0 <= r < |tokens| ==>
        b.ends[r] == (if config.endToken.Some? then endCols[r] else IntSum(mask.value[r]))
  {
    if config.startToken.Some? {
      MatchColumnsOnePerRow(tokens, config.startToken.value, startCols);
    }
    if config.endToken.Some? {
      MatchColumnsOnePerRow(tokens, config.endToken.value, endCols);
    }
  }
}
