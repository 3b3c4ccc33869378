/**
 * Zero-shot likelihood scores (`MaskedZeroShotScore.score`, `CausalZeroShotScore.score`):
 * per-token log-likelihoods from a language model, kept only inside each row's
 * genomic span [start, end) and summed per row.
 *
 * The model's forward pass (logits followed by the negative cross-entropy against the
 * input tokens) is the uninterpreted function `fwd` from a token batch to a batch of
 * per-position log-likelihoods. It closes over the attention mask, which is the same
 * for every pass of one score call.
 */
module ZeroShotScore {
  import opened Wrappers
  import opened Tensors
  import opened Tokenize

  type Forward = seq<seq<int>> -> seq<seq<real>>

  /** The forward pass maps a rows x cols token batch to a rows x cols log-likelihood batch. */
  ghost predicate KeepsShape(fwd: Forward, rows: nat, cols: nat)
  {
    forall m :: IsMatrix(m, rows, cols) ==> IsMatrix(fwd(m), rows, cols)
  }

  /** A boolean mask cast to a float multiplier. */
  function Clip(inside: bool): real
  {
    if inside then 1.0 else 0.0
  }

  /** The starts hold one value per row of a batch of n rows (a broadcast scalar always fits). */
  predicate Fits(starts: Starts, n: nat)
  {
    starts.PerRow? ==> |starts.cols| == n
  }

  /** Row r's start, after broadcasting. */
  function StartOf(starts: Starts, r: nat): int
    requires starts.PerRow? ==> r < |starts.cols|
  {
    match starts
    case PerRow(cols) => cols[r]
    case Broadcast(v) => v
  }

  /** `(row * clip_mask).sum()` where clip_mask[i] = (start <= i < end). */
  function ClippedSum(row: seq<real>, start: int, end: int): real
  {
    if |row| == 0 then 0.0
    else ClippedSum(row[..|row| - 1], start, end) + row[|row| - 1] * Clip(start <= |row| - 1 < end)
  }

  function Clamp(x: int, lo: int, hi: int): int
  {
    if x < lo then lo else if x > hi then hi else x
  }

  /** The positions of [start, end) that exist in a row of the given width. */
  function SpanLo(start: int, width: nat): nat { Clamp(start, 0, width) }
  function SpanHi(start: int, end: int, width: nat): nat { Clamp(end, SpanLo(start, width), width) }

  /** The clipped sum is the plain sum over the part of [start, end) inside the row. */
  lemma {:induction false} ClippedSumIsSpanSum(row: seq<real>, start: int, end: int)
    ensures ClippedSum(row, start, end) == Sum(row[SpanLo(start, |row|)..SpanHi(start, end, |row|)])
    decreases |row|
  {
    var n := |row|;
    if n == 0 {
      assert row[0..0] == [];
    } else {
      ClippedSumIsSpanSum(row[..n - 1], start, end);
      SpanSumStep(row, start, end);
    }
  }

  /** Growing a row by one element grows its span sum by that element iff it lies in [start, end). */
  lemma SpanSumStep(row: seq<real>, start: int, end: int)
    requires |row| > 0
    ensures var n := |row|;
      Sum(row[SpanLo(start, n)..SpanHi(start, end, n)]) ==
      Sum(row[..n - 1][SpanLo(start, n - 1)..SpanHi(start, end, n - 1)]) + row[n - 1] * Clip(start <= n - 1 < end)
  {
    var n := |row|;
    var lo, hi := SpanLo(start, n), SpanHi(start, end, n);
    var lo', hi' := SpanLo(start, n - 1), SpanHi(start, end, n - 1);
    if start <= n - 1 < end {
      assert lo == lo' && hi == n && hi' == n - 1;
      SumSnoc(row[lo..n - 1], row[n - 1]);
      assert row[lo..n] == row[lo..n - 1] + [row[n - 1]];
      assert row[..n - 1][lo..n - 1] == row[lo..n - 1];
    } else if start > n - 1 {
      assert row[lo..hi] == [];
      assert row[..n - 1][lo'..hi'] == [];
    } else {
      assert lo == lo' && hi == hi' && hi <= n - 1;
      assert row[..n - 1][lo..hi] == row[lo..hi];
    }
  }

  lemma SumSnoc(x: seq<real>, y: real)
    ensures Sum(x + [y]) == Sum(x) + y
  {
    assert (x + [y])[..|x|] == x;
  }

  /** Values outside [start, end) have no influence: rows that agree on the span score the same. */
  lemma {:induction false} ClippedSumIgnoresOutside(row: seq<real>, other: seq<real>, start: int, end: int)
    requires |row| == |other|
    requires forall i :: 0 <= i < |row| && start <= i < end ==> row[i] == other[i]
    ensures ClippedSum(row, start, end) == ClippedSum(other, start, end)
    decreases |row|
  {
    var n := |row|;
    if n > 0 {
      ClippedSumIgnoresOutside(row[..n - 1], other[..n - 1], start, end);
    }
  }

  // ---- masked score ----

  /** `masked_tokens = tokens.clone(); masked_tokens[:, i] = mask_token` */
  function MaskColumn(tokens: seq<seq<int>>, i: nat, maskId: int): (m: seq<seq<int>>)
    ensures |m| == |tokens|
    ensures forall r :: 0 <= r < |m| ==> |m[r]| == |tokens[r]|
    ensures forall r, c :: 0 <= r < |m| && 0 <= c < |m[r]| ==>
      m[r][c] == (if c == i then maskId else tokens[r][c])
  {
    seq(|tokens|, r requires 0 <= r < |tokens| =>
      seq(|tokens[r]|, c requires 0 <= c < |tokens[r]| => if c == i then maskId else tokens[r][c]))
  }

  /** Row r's log-likelihood of each column i, read from the pass that masked column i. */
  function MaskedRow(fwd: Forward, tokens: seq<seq<int>>, width: nat, maskId: int, r: nat): (row: seq<real>)
    requires IsMatrix(tokens, |tokens|, width) && KeepsShape(fwd, |tokens|, width) && r < |tokens|
    ensures |row| == width
  {
    seq(width, i requires 0 <= i < width => fwd(MaskColumn(tokens, i, maskId))[r][i])
  }

  /** The entry `lls[r, c]` that the masked score keeps: column c's pass, clipped to row r's span. */
  ghost function MaskedTerm(fwd: Forward, tokens: seq<seq<int>>, width: nat, maskId: int,
                            starts: Starts, ends: seq<int>, r: nat, c: nat): real
    requires IsMatrix(tokens, |tokens|, width) && KeepsShape(fwd, |tokens|, width)
    requires Fits(starts, |tokens|) && |ends| == |tokens| && r < |tokens| && c < width
  {
    MaskedRow(fwd, tokens, width, maskId, r)[c] * Clip(StartOf(starts, r) <= c < ends[r])
  }

  /** `lls[:, i] = ll[:, i] * clip_mask`: writes column i of lls and nothing else. */
  method WriteColumn(lls: array2<real>, i: nat, ll: seq<seq<real>>, starts: Starts, ends: seq<int>)
    requires i < lls.Length1 && IsMatrix(ll, lls.Length0, lls.Length1)
    requires Fits(starts, lls.Length0) && |ends| == lls.Length0
    modifies lls
    ensures forall r :: 0 <= r < lls.Length0 ==> lls[r, i] == ll[r][i] * Clip(StartOf(starts, r) <= i < ends[r])
    ensures forall r, c :: 0 <= r < lls.Length0 && 0 <= c < lls.Length1 && c != i ==> lls[r, c] == old(lls[r, c])
  {
    var r := 0;
    while r < lls.Length0
      invariant 0 <= r <= lls.Length0
      invariant forall r' :: 0 <= r' < r ==> lls[r', i] == ll[r'][i] * Clip(StartOf(starts, r') <= i < ends[r'])
      invariant forall r', c :: 0 <= r' < lls.Length0 && 0 <= c < lls.Length1 && c != i ==> lls[r', c] == old(lls[r', c])
    {
      lls[r, i] := ll[r][i] * Clip(i >= StartOf(starts, r) && i < ends[r]);
      r := r + 1;
    }
  }

  /** Row r of a two-dimensional array. */
  ghost function RowOf(a: array2<real>, r: nat): (row: seq<real>)
    requires r < a.Length0
    reads a
    ensures |row| == a.Length1
  {
    seq(a.Length1, c requires 0 <= c < a.Length1 reads a => a[r, c])
  }

  /** `lls.sum(dim=1)` */
  method RowSums(lls: array2<real>) returns (out: seq<real>)
    ensures |out| == lls.Length0
    ensures forall r :: 0 <= r < lls.Length0 ==> out[r] == Sum(RowOf(lls, r))
  {
    out := [];
    var r := 0;
    while r < lls.Length0
      invariant 0 <= r <= lls.Length0
      invariant |out| == r
      invariant forall r' :: 0 <= r' < r ==> out[r'] == Sum(RowOf(lls, r'))
    {
      ghost var row := RowOf(lls, r);
      var acc := 0.0;
      var c := 0;
      while c < lls.Length1
        invariant 0 <= c <= lls.Length1
        invariant acc == Sum(row[..c])
      {
        assert row[..c + 1][..c] == row[..c];
        acc := acc + lls[r, c];
        c := c + 1;
      }
      assert row[..lls.Length1] == row;
      out := out + [acc];
      r := r + 1;
    }
  }

  /** Summing a row after multiplying it by the clip mask is the clipped sum of the row. */
  lemma {:induction false} SumOfClippedRow(clipped: seq<real>, row: seq<real>, start: int, end: int)
    requires |clipped| == |row|
    requires forall c :: 0 <= c < |row| ==> clipped[c] == row[c] * Clip(start <= c < end)
    ensures Sum(clipped) == ClippedSum(row, start, end)
    decreases |row|
  {
    var n := |row|;
    if n > 0 {
      SumOfClippedRow(clipped[..n - 1], row[..n - 1], start, end);
    }
  }

  /**
   * `MaskedZeroShotScore.score`: one forward pass per token column; pass i masks only
   * column i, and its log-likelihood at column i, clipped to the row's span, goes into
   * the row's sum. `passes` records the batches given to the forward pass, in order.
   */
  method MaskedScore(fwd: Forward, tokens: seq<seq<int>>, width: nat, maskId: int, starts: Starts, ends: seq<int>)
    returns (out: seq<real>, ghost passes: seq<seq<seq<int>>>)
    requires IsMatrix(tokens, |tokens|, width) && KeepsShape(fwd, |tokens|, width)
    requires Fits(starts, |tokens|) && |ends| == |tokens|
    ensures |passes| == width
    ensures forall i :: 0 <= i < width ==> passes[i] == MaskColumn(tokens, i, maskId)
    ensures |out| == |tokens|
    ensures forall r :: 0 <= r < |tokens| ==>
      out[r] == ClippedSum(MaskedRow(fwd, tokens, width, maskId, r), StartOf(starts, r), ends[r])
  {
    var n := |tokens|;
    var lls := new real[n, width]((r, c) => 0.0);
    passes := MaskedPasses(fwd, tokens, width, maskId, starts, ends, lls);
    out := RowSums(lls);
    MaskedRowSums(fwd, tokens, width, maskId, starts, ends, lls, out);
  }

  /** The row sums of the filled array are the clipped sums of the masked rows. */
  lemma MaskedRowSums(fwd: Forward, tokens: seq<seq<int>>, width: nat, maskId: int, starts: Starts,
                      ends: seq<int>, lls: array2<real>, out: seq<real>)
    requires IsMatrix(tokens, |tokens|, width) && KeepsShape(fwd, |tokens|, width)
    requires Fits(starts, |tokens|) && |ends| == |tokens|
    requires lls.Length0 == |tokens| && lls.Length1 == width
    requires forall r, c :: 0 <= r < |tokens| && 0 <= c < width ==>
      lls[r, c] == MaskedTerm(fwd, tokens, width, maskId, starts, ends, r, c)
    requires |out| == |tokens| && forall r :: 0 <= r < |tokens| ==> out[r] == Sum(RowOf(lls, r))
    ensures forall r :: 0 <= r < |tokens| ==>
      out[r] == ClippedSum(MaskedRow(fwd, tokens, width, maskId, r), StartOf(starts, r), ends[r])
  {
    forall r | 0 <= r < |tokens|
      ensures out[r] == ClippedSum(MaskedRow(fwd, tokens, width, maskId, r), StartOf(starts, r), ends[r])
    {
      SumOfClippedRow(RowOf(lls, r), MaskedRow(fwd, tokens, width, maskId, r), StartOf(starts, r), ends[r]);
    }
  }

  /** The loop over columns of `MaskedZeroShotScore.score`: one masked forward pass per column. */
  method MaskedPasses(fwd: Forward, tokens: seq<seq<int>>, width: nat, maskId: int, starts: Starts,
                      ends: seq<int>, lls: array2<real>)
    returns (ghost passes: seq<seq<seq<int>>>)
    requires IsMatrix(tokens, |tokens|, width) && KeepsShape(fwd, |tokens|, width)
    requires Fits(starts, |tokens|) && |ends| == |tokens|
    requires lls.Length0 == |tokens| && lls.Length1 == width
    modifies lls
    ensures |passes| == width
    ensures forall i :: 0 <= i < width ==> passes[i] == MaskColumn(tokens, i, maskId)
    ensures forall r, c :: 0 <= r < |tokens| && 0 <= c < width ==>
      lls[r, c] == MaskedTerm(fwd, tokens, width, maskId, starts, ends, r, c)
  {
    var n := |tokens|;
    passes := [];
    var i := 0;
    while i < width
      invariant 0 <= i <= width
      invariant |passes| == i
      invariant forall k :: 0 <= k < i ==> passes[k] == MaskColumn(tokens, k, maskId)
      invariant forall r, c :: 0 <= r < n && 0 <= c < i ==>
        lls[r, c] == MaskedTerm(fwd, tokens, width, maskId, starts, ends, r, c)
    {
      var masked := MaskColumn(tokens, i, maskId);
      assert IsMatrix(masked, n, width);
      var ll := fwd(masked);
      passes := passes + [masked];
      WriteColumn(lls, i, ll, starts, ends);
      i := i + 1;
    }
  }

  // ---- causal score ----

  /**
   * `CausalZeroShotScore.score` of the single-sequence evaluators, given the one
   * forward pass `lls = fwd(tokens)`: the clip mask is built per (start, end) pair.
   */
  function CausalScore(lls: seq<seq<real>>, starts: seq<int>, ends: seq<int>): (out: seq<real>)
    requires |starts| == |lls| && |ends| == |lls|
  {
    seq(|lls|, r requires 0 <= r < |lls| => ClippedSum(lls[r], starts[r], ends[r]))
  }

  /** Each causal row score is the sum of that row's log-likelihoods over its span, from one pass. */
  lemma CausalScoreIsSpanSum(fwd: Forward, tokens: seq<seq<int>>, width: nat, starts: seq<int>, ends: seq<int>)
    requires IsMatrix(tokens, |tokens|, width) && KeepsShape(fwd, |tokens|, width)
    requires |starts| == |tokens| && |ends| == |tokens|
    ensures |CausalScore(fwd(tokens), starts, ends)| == |tokens|
    ensures forall r :: 0 <= r < |tokens| ==>
      CausalScore(fwd(tokens), starts, ends)[r] ==
        Sum(fwd(tokens)[r][SpanLo(starts[r], width)..SpanHi(starts[r], ends[r], width)])
  {
    var lls := fwd(tokens);
    forall r | 0 <= r < |tokens|
      ensures CausalScore(lls, starts, ends)[r] ==
        Sum(lls[r][SpanLo(starts[r], width)..SpanHi(starts[r], ends[r], width)])
    {
      ClippedSumIsSpanSum(lls[r], starts[r], ends[r]);
    }
  }

  /** Each masked row score is the sum, over the columns of the span, of that column's masked pass. */
  lemma MaskedScoreIsSpanSum(fwd: Forward, tokens: seq<seq<int>>, width: nat, maskId: int, start: int, end: int, r: nat)
    requires IsMatrix(tokens, |tokens|, width) && KeepsShape(fwd, |tokens|, width) && r < |tokens|
    ensures ClippedSum(MaskedRow(fwd, tokens, width, maskId, r), start, end) ==
      Sum(MaskedRow(fwd, tokens, width, maskId, r)[SpanLo(start, width)..SpanHi(start, end, width)])
  {
    ClippedSumIsSpanSum(MaskedRow(fwd, tokens, width, maskId, r), start, end);
  }

  datatype ScoreError = StartsNotIterable  // `zip(starts, ends)` with starts the int 0

  /**
   * The paired-control causal score as written: the clip mask is built by
   * `zip(starts, ends)`, which fails when the tokenizer returned the scalar start 0.
   */
  function PairedCausalScore(lls: seq<seq<real>>, starts: Starts, ends: seq<int>): Result<seq<real>, ScoreError>
    requires Fits(starts, |lls|) && |ends| == |lls|
  {
    match starts
    case PerRow(cols) => Success(CausalScore(lls, cols, ends))
    case Broadcast(_) => Failure(StartsNotIterable)
  }

  /** The paired-control causal score with the scalar start broadcast, as the masked score does. */
  function BroadcastCausalScore(lls: seq<seq<real>>, starts: Starts, ends: seq<int>): (out: seq<real>)
    requires Fits(starts, |lls|) && |ends| == |lls|
    ensures |out| == |lls|
    ensures forall r :: 0 <= r < |lls| ==> out[r] == ClippedSum(lls[r], StartOf(starts, r), ends[r])
  {
    CausalScore(lls, seq(|lls|, r requires 0 <= r < |lls| => StartOf(starts, r)), ends)
  }

  /**
   * A model family without a start token (HyenaDNA: start None, end 1) gets the
   * scalar start 0 from the paired tokenizer (`PairedTokenizeSpans`); the causal score
   * as written rejects it, and the broadcasting score gives every row its span sum.
   */
  lemma PairedCausalScalarStart(lls: seq<seq<real>>, ends: seq<int>)
    requires |ends| == |lls|
    ensures PairedCausalScore(lls, Broadcast(0), ends) == Failure(StartsNotIterable)
    ensures forall r :: 0 <= r < |lls| ==>
      BroadcastCausalScore(lls, Broadcast(0), ends)[r] == Sum(lls[r][SpanLo(0, |lls[r]|)..SpanHi(0, ends[r], |lls[r]|)])
  {
    forall r | 0 <= r < |lls|
      ensures BroadcastCausalScore(lls, Broadcast(0), ends)[r] ==
        Sum(lls[r][SpanLo(0, |lls[r]|)..SpanHi(0, ends[r], |lls[r]|)])
    {
      ClippedSumIsSpanSum(lls[r], 0, ends[r]);
    }
  }
}
