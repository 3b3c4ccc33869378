/**
 * `ZeroShotPairedControlEvaluator.evaluate`: each batch pairs the scores of a set of
 * sequences with those of their controls; per batch the differences and the "correct"
 * flags (difference above zero) are appended to two lists, which are concatenated at
 * the end into the accuracy and the mean difference. The scores themselves come from
 * the zero-shot scores (module ZeroShotScore) and are inputs here.
 */
module PairedControl {
  import opened Wrappers
  import opened Tensors

  datatype ScoredBatch = ScoredBatch(seqScores: seq<real>, ctrlScores: seq<real>)

  /** A batch from the paired data loader: one control score per sequence score. */
  type Scored = b: ScoredBatch | |b.seqScores| == |b.ctrlScores| witness ScoredBatch([], [])

  /** `seq_scores - ctrl_scores` */
  function Diffs(b: Scored): (d: seq<real>)
    ensures |d| == |b.seqScores|
    ensures forall k :: 0 <= k < |d| ==> d[k] == b.seqScores[k] - b.ctrlScores[k]
  {
    seq(|b.seqScores|, k requires 0 <= k < |b.seqScores| => b.seqScores[k] - b.ctrlScores[k])
  }

  /** `diff > 0` */
  function Corrects(d: seq<real>): (c: seq<bool>)
    ensures |c| == |d| && forall k :: 0 <= k < |d| ==> (c[k] <==> d[k] > 0.0)
  {
    seq(|d|, k requires 0 <= k < |d| => d[k] > 0.0)
  }

  function BoolValue(b: bool): real
  {
    if b then 1.0 else 0.0
  }

  function Indicator(x: real): real
  {
    if x > 0.0 then 1.0 else 0.0
  }

  /** `.mean()`: None stands for the NaN numpy returns for an empty array. */
  function Mean<T>(s: seq<T>, f: T -> real): Option<real>
  {
    if |s| == 0 then None else Some(Total(s, f) / |s| as real)
  }

  /** The positions of the pairs whose sequence outscored its control. */
  function Positives(d: seq<real>): set<nat>
  {
    set k: nat | k < |d| && d[k] > 0.0
  }

  function Ratio(count: nat, n: nat): Option<real>
  {
    if n == 0 then None else Some(count as real / n as real)
  }

  /** The metrics this model keeps: the accuracy and the mean difference. */
  datatype Metrics = Metrics(acc: Option<real>, meanDiff: Option<real>)

  /** `np.concatenate([])` raises when the data loader yields no batch. */
  datatype EvalError = NoBatches

  /** acc is the fraction of positive differences, meanDiff their mean. */
  function MetricsOf(d: seq<real>): Metrics
  {
    Metrics(Ratio(|Positives(d)|, |d|), Mean(d, Id))
  }

  // ---- lemmas about the accumulation ----

  /** Concatenating per-batch flags gives the flags of the concatenated differences. */
  lemma {:induction false} CorrectsConcat(ds: seq<seq<real>>)
    ensures Concat(Map(ds, Corrects)) == Corrects(Concat(ds))
    decreases |ds|
  {
    if |ds| > 0 {
      var init := ds[..|ds| - 1];
      CorrectsConcat(init);
      assert Map(ds, Corrects)[..|ds| - 1] == Map(init, Corrects);
      assert Corrects(Concat(ds)) == Corrects(Concat(init)) + Corrects(ds[|ds| - 1]);
    }
  }

  lemma {:induction false} TotalCorrects(d: seq<real>)
    ensures Total(Corrects(d), BoolValue) == Total(d, Indicator)
    decreases |d|
  {
    if |d| > 0 {
      var init := d[..|d| - 1];
      TotalCorrects(init);
      assert Corrects(d)[..|d| - 1] == Corrects(init);
    }
  }

  /** Summing the indicator counts the positive differences. */
  lemma {:induction false} CountPositives(d: seq<real>)
    ensures Total(d, Indicator) == |Positives(d)| as real
    decreases |d|
  {
    if |d| > 0 {
      var n := |d| - 1;
      var init := d[..n];
      CountPositives(init);
      assert n !in Positives(init);
      if d[n] > 0.0 {
        assert Positives(d) == Positives(init) + {n};
      } else {
        assert Positives(d) == Positives(init);
      }
    }
  }

  /** The accuracy `corrects.mean()` is the fraction of differences above zero. */
  lemma AccuracyIsPositiveFraction(d: seq<real>)
    ensures Mean(Corrects(d), BoolValue) == Ratio(|Positives(d)|, |d|)
  {
    TotalCorrects(d);
    CountPositives(d);
  }

  /** The metrics depend only on the multiset of differences, not on their order. */
  lemma MetricsOrderFree(d: seq<real>, e: seq<real>)
    requires multiset(d) == multiset(e)
    ensures MetricsOf(d) == MetricsOf(e)
  {
    assert |d| == |multiset(d)| == |e|;
    CountPositives(d);
    CountPositives(e);
    TotalPermutation(d, e, Indicator);
    TotalPermutation(d, e, Id);
  }

  /** Evaluating the batches in any order gives the same metrics. */
  lemma BatchOrderFree(bs: seq<Scored>, cs: seq<Scored>)
    requires multiset(bs) == multiset(cs)
    ensures MetricsOf(Concat(Map(bs, Diffs))) == MetricsOf(Concat(Map(cs, Diffs)))
  {
    MapPermutation(bs, cs, Diffs);
    ConcatPermutation(Map(bs, Diffs), Map(cs, Diffs));
    MetricsOrderFree(Concat(Map(bs, Diffs)), Concat(Map(cs, Diffs)));
  }

  /**
   * The concatenated differences hold batch j's pair k right after the pairs of the
   * batches before j, and their count is the total number of pairs.
   */
  lemma DiffsInBatchOrder(bs: seq<Scored>, j: nat, k: nat)
    requires j < |bs| && k < |bs[j].seqScores|
    ensures var diffsLst := Map(bs, Diffs);
      var before := |Concat(diffsLst[..j])|;
      before + k < |Concat(diffsLst)| &&
      Concat(diffsLst)[before + k] == bs[j].seqScores[k] - bs[j].ctrlScores[k]
  {
    var diffsLst := Map(bs, Diffs);
    var d := Diffs(bs[j]);
    assert diffsLst[j] == d;
    ConcatIndex(diffsLst, j, k);
    assert d[k] == bs[j].seqScores[k] - bs[j].ctrlScores[k];
  }

  lemma TotalPairs(bs: seq<Scored>)
    ensures |Concat(Map(bs, Diffs))| == IntSum(Lengths(Map(bs, Diffs)))
    ensures forall j :: 0 <= j < |bs| ==> Lengths(Map(bs, Diffs))[j] == |bs[j].seqScores|
  {
    ConcatLength(Map(bs, Diffs));
  }

  /**
   * `evaluate`: the per-batch loop appends each batch's differences and flags; the
   * result is an error when there is no batch, and otherwise the metrics of the
   * concatenated differences, with the accuracy read off the concatenated flags.
   */
  method Evaluate(batches: seq<Scored>) returns (r: Result<Metrics, EvalError>)
    ensures |batches| == 0 <==> r == Failure(NoBatches)
    ensures |batches| > 0 ==> r == Success(MetricsOf(Concat(Map(batches, Diffs))))
  {
    var diffsLst: seq<seq<real>> := [];
    var correctsLst: seq<seq<bool>> := [];
    var k := 0;
    while k < |batches|
      invariant 0 <= k <= |batches|
      invariant diffsLst == Map(batches[..k], Diffs)
      invariant correctsLst == Map(diffsLst, Corrects)
    {
      var diffBatch := Diffs(batches[k]);
      var correctBatch := Corrects(diffBatch);
      assert batches[..k + 1][..k] == batches[..k];
      assert (diffsLst + [diffBatch])[..k] == diffsLst;
      diffsLst := diffsLst + [diffBatch];
      correctsLst := correctsLst + [correctBatch];
      k := k + 1;
    }
    assert batches[..k] == batches;
    if |diffsLst| == 0 {
      return Failure(NoBatches);
    }
    var diffs := Concat(diffsLst);
    var corrects := Concat(correctsLst);
    CorrectsConcat(diffsLst);
    AccuracyIsPositiveFraction(diffs);
    r := Success(Metrics(Mean(corrects, BoolValue), Mean(diffs, Id)));
  }
}
