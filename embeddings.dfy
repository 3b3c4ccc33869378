/**
 * Embedding extraction bookkeeping (`SimpleEmbeddingExtractor.extract_embeddings`,
 * `HFVariantEmbeddingExtractor.extract_embeddings`): batches are numbered by a running
 * `start`, each batch's token embeddings go to a dataset named by its row range
 * [start, end), and the gather indices go to rows [start, end) of "idx_var" (variable
 * mode) or, for the first batch only, to "idx_fix" (fixed mode). An HDF5 group is an
 * `OutputGroup`; the embeddings themselves come from the model and are not tracked.
 */
module Embeddings {
  import opened Wrappers
  import GatherIndex

  datatype IdxMode = VariableMode | FixedMode

  /** What `_offsets_to_indices` gave for a batch: per-row indices, or one fixed vector. */
  datatype Indices = Variable(rows: seq<seq<nat>>) | Fixed(inds: seq<nat>)

  /** A batch of `size` sequences from the data loader, with its gather indices. */
  datatype Batch = Batch(size: nat, indices: Indices)

  /** The data loader yields non-empty batches, and the extractor's mode decides the index shape. */
  predicate Fits(mode: IdxMode, b: Batch)
  {
    b.size > 0 &&
    (mode == VariableMode ==> b.indices.Variable? && |b.indices.rows| == b.size) &&
    (mode == FixedMode ==> b.indices.Fixed?)
  }

  predicate AllFit(mode: IdxMode, bs: seq<Batch>)
  {
    forall k :: 0 <= k < |bs| ==> Fits(mode, bs[k])
  }

  /** The contents of one HDF5 group. */
  datatype GroupState = GroupState(
    idxVar: Option<seq<seq<nat>>>,   // dataset "idx_var", once created
    idxFix: Option<seq<nat>>,        // dataset "idx_fix", once created
    embRanges: seq<(nat, nat)>)      // datasets "emb_{start}_{end}", in creation order

  const Empty := GroupState(None, None, [])

  /**
   * Rows of a fresh "idx_var" that nothing has written. HDF5 fills them with zeros
   * of the table width; the model does not track the width and keeps them empty.
   */
  function Blank(n: nat): (r: seq<seq<nat>>)
    ensures |r| == n
  {
    seq(n, _ => [])
  }

  /** `require_dataset("idx_var", (len(dataset), ...))`: the existing table or a blank one. */
  function Table(st: GroupState, size: nat): seq<seq<nat>>
  {
    if st.idxVar.Some? then st.idxVar.value else Blank(size)
  }

  /** One loop iteration's writes for batch b at rows [start, start + b.size). */
  function Write(st: GroupState, size: nat, mode: IdxMode, start: nat, b: Batch): (r: GroupState)
    requires Fits(mode, b)
    requires mode == VariableMode ==> start + b.size <= |Table(st, size)|
    ensures |r.embRanges| == |st.embRanges| + 1
  {
    var t := Table(st, size);
    GroupState(
      if mode == VariableMode then Some(t[..start] + b.indices.rows + t[start + b.size..]) else st.idxVar,
      if mode == FixedMode && start == 0 then Some(b.indices.inds) else st.idxFix,
      st.embRanges + [(start, start + b.size)])
  }

  /** Sequences in the batches: the final `start`. */
  function Processed(bs: seq<Batch>): nat
  {
    if |bs| == 0 then 0 else Processed(bs[..|bs| - 1]) + bs[|bs| - 1].size
  }

  /** The group after a run over bs, each batch written at the running start. */
  function Run(mode: IdxMode, size: nat, bs: seq<Batch>): (r: GroupState)
    requires AllFit(mode, bs) && Processed(bs) <= size
    ensures r.idxVar.Some? ==> |r.idxVar.value| == size
    decreases |bs|
  {
    if |bs| == 0 then Empty
    else
      var init := bs[..|bs| - 1];
      assert AllFit(mode, init);
      Write(Run(mode, size, init), size, mode, Processed(init), bs[|bs| - 1])
  }

  /** One HDF5 group ("seq", "allele1" or "allele2") of an output file for `size` sequences. */
  class OutputGroup {
    const size: nat
    var idxVar: Option<seq<seq<nat>>>
    var idxFix: Option<seq<nat>>
    var embRanges: seq<(nat, nat)>

    function State(): GroupState
      reads this
    {
      GroupState(idxVar, idxFix, embRanges)
    }

    constructor (size: nat)
      ensures this.size == size && State() == Empty
    {
      this.size := size;
      idxVar, idxFix, embRanges := None, None, [];
    }

    /** The writes of one iteration of the extraction loop. */
    method WriteBatch(mode: IdxMode, start: nat, b: Batch)
      requires Fits(mode, b)
      requires mode == VariableMode ==> start + b.size <= |Table(State(), size)|
      modifies this
      ensures State() == Write(old(State()), size, mode, start, b)
    {
      var end := start + b.size;
      if mode == VariableMode {
        var t := Table(State(), size);
        idxVar := Some(t[..start] + b.indices.rows + t[end..]);
      } else if start == 0 && mode == FixedMode {
        idxFix := Some(b.indices.inds);
      }
      embRanges := embRanges + [(start, end)];
    }
  }

  lemma {:induction false} ProcessedPrefix(bs: seq<Batch>, k: nat)
    requires k <= |bs|
    ensures Processed(bs[..k]) <= Processed(bs)
    decreases |bs|
  {
    if k < |bs| {
      var init := bs[..|bs| - 1];
      assert init[..k] == bs[..k];
      ProcessedPrefix(init, k);
    } else {
      assert bs[..k] == bs;
    }
  }

  lemma PrefixFits(mode: IdxMode, bs: seq<Batch>, k: nat)
    requires k <= |bs| && AllFit(mode, bs)
    ensures AllFit(mode, bs[..k]) && Processed(bs[..k]) <= Processed(bs)
  {
    ProcessedPrefix(bs, k);
  }

  /**
   * `SimpleEmbeddingExtractor.extract_embeddings` on a dataset of `size` sequences:
   * the "seq" group ends as `Run` says, and `start` ends at the number of sequences.
   */
  method ExtractEmbeddings(mode: IdxMode, size: nat, batches: seq<Batch>) returns (g: OutputGroup, start: nat)
    requires AllFit(mode, batches) && Processed(batches) <= size
    ensures fresh(g) && g.size == size
    ensures g.State() == Run(mode, size, batches)
    ensures start == Processed(batches)
  {
    g := new OutputGroup(size);
    start := 0;
    var k := 0;
    while k < |batches|
      invariant 0 <= k <= |batches|
      invariant AllFit(mode, batches[..k]) && Processed(batches[..k]) <= size
      invariant start == Processed(batches[..k])
      invariant g.size == size && g.State() == Run(mode, size, batches[..k])
      modifies g
    {
      RunPrefixStep(mode, size, batches, k);
      g.WriteBatch(mode, start, batches[k]);
      start := start + batches[k].size;
      k := k + 1;
    }
    assert batches[..k] == batches;
  }

  /** The run over the first k + 1 batches is the run over the first k followed by batch k. */
  lemma RunPrefixStep(mode: IdxMode, size: nat, bs: seq<Batch>, k: nat)
    requires k < |bs| && AllFit(mode, bs) && Processed(bs) <= size
    ensures AllFit(mode, bs[..k]) && AllFit(mode, bs[..k + 1]) && Fits(mode, bs[k])
    ensures Processed(bs[..k + 1]) == Processed(bs[..k]) + bs[k].size <= size
    ensures mode == VariableMode ==> Processed(bs[..k]) + bs[k].size <= |Table(Run(mode, size, bs[..k]), size)|
    ensures Run(mode, size, bs[..k + 1]) == Write(Run(mode, size, bs[..k]), size, mode, Processed(bs[..k]), bs[k])
  {
    PrefixFits(mode, bs, k + 1);
    assert bs[..k + 1] == bs[..k] + [bs[k]];
    RunStep(mode, size, bs[..k], bs[k]);
  }

  // ---- what a run writes, in closed form ----

  /** The row range [start, end) of each batch, numbered consecutively from 0. */
  function Ranges(bs: seq<Batch>): (r: seq<(nat, nat)>)
    ensures |r| == |bs|
  {
    if |bs| == 0 then []
    else Ranges(bs[..|bs| - 1]) + [(Processed(bs[..|bs| - 1]), Processed(bs[..|bs| - 1]) + bs[|bs| - 1].size)]
  }

  function RowsOf(b: Batch): seq<seq<nat>>
  {
    if b.indices.Variable? then b.indices.rows else []
  }

  /** The per-row indices of all batches, in batch order. */
  function AllRows(bs: seq<Batch>): seq<seq<nat>>
  {
    if |bs| == 0 then [] else AllRows(bs[..|bs| - 1]) + RowsOf(bs[|bs| - 1])
  }

  lemma {:induction false} AllRowsLength(mode: IdxMode, bs: seq<Batch>)
    requires mode == VariableMode && AllFit(mode, bs)
    ensures |AllRows(bs)| == Processed(bs)
    decreases |bs|
  {
    if |bs| > 0 {
      AllRowsLength(mode, bs[..|bs| - 1]);
    }
  }

  lemma {:induction false} ProcessedPositive(mode: IdxMode, bs: seq<Batch>)
    requires |bs| > 0 && AllFit(mode, bs)
    ensures Processed(bs) > 0
    decreases |bs|
  {
    if |bs| > 1 {
      ProcessedPositive(mode, bs[..|bs| - 1]);
    }
  }

  lemma RunAppend(mode: IdxMode, size: nat, bs: seq<Batch>)
    requires |bs| > 0 && AllFit(mode, bs) && Processed(bs) <= size
    ensures var init := bs[..|bs| - 1];
      AllFit(mode, init) && Processed(init) + bs[|bs| - 1].size == Processed(bs) &&
      Run(mode, size, bs) == Write(Run(mode, size, init), size, mode, Processed(init), bs[|bs| - 1])
  {
    assert AllFit(mode, bs[..|bs| - 1]);
  }

  /** "idx_var" holds every batch's rows in batch order, then the rows nothing wrote. */
  lemma RunIdxVar(mode: IdxMode, size: nat, bs: seq<Batch>)
    requires AllFit(mode, bs) && Processed(bs) <= size
    ensures Run(mode, size, bs).idxVar ==
      if mode == VariableMode && |bs| > 0 then Some(AllRows(bs) + Blank(size - Processed(bs))) else None
  {
    if mode == VariableMode {
      VariableRuns(size, bs);
    } else {
      FixedRuns(size, bs);
    }
  }

  lemma {:induction false} VariableRuns(size: nat, bs: seq<Batch>)
    requires AllFit(VariableMode, bs) && Processed(bs) <= size
    ensures Run(VariableMode, size, bs).idxVar ==
      if |bs| > 0 then Some(AllRows(bs) + Blank(size - Processed(bs))) else None
    decreases |bs|
  {
    if |bs| > 0 {
      var init, b := bs[..|bs| - 1], bs[|bs| - 1];
      RunAppend(VariableMode, size, bs);
      VariableRuns(size, init);
      var before, a, p := Run(VariableMode, size, init), AllRows(init), Processed(init);
      AllRowsLength(VariableMode, init);
      IdxVarWrite(before, size, a, p, b, |init|);
      assert AllRows(bs) == a + b.indices.rows;
    }
  }

  /** In fixed mode no "idx_var" table is ever created. */
  lemma {:induction false} FixedRuns(size: nat, bs: seq<Batch>)
    requires AllFit(FixedMode, bs) && Processed(bs) <= size
    ensures Run(FixedMode, size, bs).idxVar == None
    decreases |bs|
  {
    if |bs| > 0 {
      RunAppend(FixedMode, size, bs);
      FixedRuns(size, bs[..|bs| - 1]);
    }
  }

  /**
   * Writing a batch's rows at row p of a table whose first p rows are a puts them
   * right after a; the first write starts from a blank table.
   */
  lemma IdxVarWrite(before: GroupState, size: nat, a: seq<seq<nat>>, p: nat, b: Batch, written: nat)
    requires Fits(VariableMode, b) && |a| == p && p + b.size <= size
    requires before.idxVar == if written > 0 then Some(a + Blank(size - p)) else None
    requires written == 0 ==> p == 0
    ensures Write(before, size, VariableMode, p, b).idxVar == Some(a + b.indices.rows + Blank(size - p - b.size))
  {
    var t := a + Blank(size - p);
    if written == 0 {
      assert a == [] && t == Blank(size);
    }
    assert Table(before, size) == t;
    SpliceBlank(a, b.indices.rows, size - p);
  }

  /** Writing rows right after the written ones takes their place among the blank rows. */
  lemma SpliceBlank(a: seq<seq<nat>>, rows: seq<seq<nat>>, m: nat)
    requires |rows| <= m
    ensures var t := a + Blank(m);
      t[..|a|] + rows + t[|a| + |rows|..] == a + rows + Blank(m - |rows|)
  {
    var t := a + Blank(m);
    assert t[..|a|] == a;
    assert t[|a| + |rows|..] == Blank(m - |rows|);
  }

  /** "idx_fix" holds the first batch's indices: later batches start past row 0. */
  lemma {:induction false} RunIdxFix(mode: IdxMode, size: nat, bs: seq<Batch>)
    requires AllFit(mode, bs) && Processed(bs) <= size
    ensures Run(mode, size, bs).idxFix ==
      if mode == FixedMode && |bs| > 0 then Some(bs[0].indices.inds) else None
    decreases |bs|
  {
    if |bs| > 0 {
      var init := bs[..|bs| - 1];
      RunAppend(mode, size, bs);
      RunIdxFix(mode, size, init);
      if |init| > 0 {
        ProcessedPositive(mode, init);
        assert init[0] == bs[0];
      }
    }
  }

  /** One embedding dataset per batch, named by `Ranges`. */
  lemma {:induction false} RunRanges(mode: IdxMode, size: nat, bs: seq<Batch>)
    requires AllFit(mode, bs) && Processed(bs) <= size
    ensures Run(mode, size, bs).embRanges == Ranges(bs)
    decreases |bs|
  {
    if |bs| > 0 {
      RunAppend(mode, size, bs);
      RunRanges(mode, size, bs[..|bs| - 1]);
    }
  }

  /**
   * The ranges tile [0, Processed(bs)): batch k's range has its size, starts where
   * batch k - 1's ends, and the first starts at 0, so no two ranges overlap.
   */
  lemma {:induction false} RangesTile(bs: seq<Batch>)
    ensures |Ranges(bs)| == |bs|
    ensures forall k :: 0 <= k < |bs| ==> Ranges(bs)[k].1 == Ranges(bs)[k].0 + bs[k].size
    ensures |bs| > 0 ==> Ranges(bs)[0].0 == 0 && Ranges(bs)[|bs| - 1].1 == Processed(bs)
    ensures forall k :: 0 < k < |bs| ==> Ranges(bs)[k].0 == Ranges(bs)[k - 1].1
    decreases |bs|
  {
    if |bs| > 0 {
      RangesTile(bs[..|bs| - 1]);
    }
  }

  /** Row x of "idx_var" inside batch k's range holds row x - start of batch k's indices. */
  lemma {:induction false} RowsInRange(mode: IdxMode, bs: seq<Batch>, k: nat, x: nat)
    requires mode == VariableMode && AllFit(mode, bs)
    requires k < |bs| && Ranges(bs)[k].0 <= x < Ranges(bs)[k].1
    ensures x < |AllRows(bs)| && x - Ranges(bs)[k].0 < |bs[k].indices.rows|
    ensures AllRows(bs)[x] == bs[k].indices.rows[x - Ranges(bs)[k].0]
    decreases |bs|
  {
    var n := |bs|;
    var init, b := bs[..n - 1], bs[n - 1];
    assert AllFit(mode, init);
    assert Fits(mode, b);
    AllRowsLength(mode, init);
    assert AllRows(bs) == AllRows(init) + b.indices.rows;
    if k < n - 1 {
      assert Ranges(bs)[k] == Ranges(init)[k];
      RowsInRange(mode, init, k, x);
    } else {
      assert Ranges(bs)[k] == (Processed(init), Processed(init) + b.size);
    }
  }

  // ---- variant extraction: two alleles, all-zero batches skipped ----

  datatype VariantBatch = VariantBatch(allele1: seq<int>, allele2: seq<int>, size: nat,
                                       indices1: Indices, indices2: Indices)

  predicate AllZero(s: seq<int>)
  {
    forall k :: 0 <= k < |s| ==> s[k] == 0
  }

  /** Both alleles of the batch are all zeros (padding), so the loop skips it. */
  predicate Skipped(vb: VariantBatch)
  {
    AllZero(vb.allele1) && AllZero(vb.allele2)
  }

  /** The batches the loop does not skip, in order. */
  function Kept(vbs: seq<VariantBatch>): (r: seq<VariantBatch>)
    ensures |r| <= |vbs|
  {
    if |vbs| == 0 then []
    else Kept(vbs[..|vbs| - 1]) + (if Skipped(vbs[|vbs| - 1]) then [] else [vbs[|vbs| - 1]])
  }

  function Allele1(vbs: seq<VariantBatch>): (r: seq<Batch>)
    ensures |r| == |vbs|
  {
    if |vbs| == 0 then [] else Allele1(vbs[..|vbs| - 1]) + [Batch(vbs[|vbs| - 1].size, vbs[|vbs| - 1].indices1)]
  }

  function Allele2(vbs: seq<VariantBatch>): (r: seq<Batch>)
    ensures |r| == |vbs|
  {
    if |vbs| == 0 then [] else Allele2(vbs[..|vbs| - 1]) + [Batch(vbs[|vbs| - 1].size, vbs[|vbs| - 1].indices2)]
  }

  predicate FitsVariant(mode: IdxMode, vb: VariantBatch)
  {
    Fits(mode, Batch(vb.size, vb.indices1)) && Fits(mode, Batch(vb.size, vb.indices2))
  }

  lemma {:induction false} AllelesFit(mode: IdxMode, vbs: seq<VariantBatch>)
    requires forall k :: 0 <= k < |vbs| ==> FitsVariant(mode, vbs[k])
    ensures AllFit(mode, Allele1(vbs)) && AllFit(mode, Allele2(vbs))
    ensures Processed(Allele1(vbs)) == Processed(Allele2(vbs))
    decreases |vbs|
  {
    if |vbs| > 0 {
      AllelesFit(mode, vbs[..|vbs| - 1]);
    }
  }

  lemma ProcessedAppend(bs: seq<Batch>, b: Batch)
    ensures Processed(bs + [b]) == Processed(bs) + b.size
  {
    assert (bs + [b])[..|bs|] == bs;
  }

  lemma AllelesAppend(vbs: seq<VariantBatch>, v: VariantBatch)
    ensures Allele1(vbs + [v]) == Allele1(vbs) + [Batch(v.size, v.indices1)]
    ensures Allele2(vbs + [v]) == Allele2(vbs) + [Batch(v.size, v.indices2)]
  {
    assert (vbs + [v])[..|vbs|] == vbs;
  }

  /** A skipped batch adds no sequences and a kept one adds its size, so skipping never adds sequences. */
  lemma {:induction false} KeptProcessed(vbs: seq<VariantBatch>)
    ensures Processed(Allele1(Kept(vbs))) <= Processed(Allele1(vbs))
    ensures |vbs| > 0 ==>
      var last := vbs[|vbs| - 1];
      Processed(Allele1(Kept(vbs))) ==
        Processed(Allele1(Kept(vbs[..|vbs| - 1]))) + (if Skipped(last) then 0 else last.size)
    decreases |vbs|
  {
    if |vbs| > 0 {
      var init, last := vbs[..|vbs| - 1], vbs[|vbs| - 1];
      var b1 := Batch(last.size, last.indices1);
      KeptProcessed(init);
      assert Allele1(vbs) == Allele1(init) + [b1];
      ProcessedAppend(Allele1(init), b1);
      if !Skipped(last) {
        assert Kept(vbs) == Kept(init) + [last];
        AllelesAppend(Kept(init), last);
        ProcessedAppend(Allele1(Kept(init)), b1);
      } else {
        assert Kept(vbs) == Kept(init);
      }
    }
  }

  /** The batches kept among the first k hold no more sequences than all the batches. */
  lemma {:induction false} KeptBound(vbs: seq<VariantBatch>, k: nat)
    requires k <= |vbs|
    ensures Processed(Allele1(Kept(vbs[..k]))) <= Processed(Allele1(vbs))
    decreases |vbs|
  {
    if k == |vbs| {
      assert vbs[..k] == vbs;
      KeptProcessed(vbs);
    } else {
      var init := vbs[..|vbs| - 1];
      assert init[..k] == vbs[..k];
      assert vbs == init + [vbs[|vbs| - 1]];
      AllelesAppend(init, vbs[|vbs| - 1]);
      ProcessedAppend(Allele1(init), Batch(vbs[|vbs| - 1].size, vbs[|vbs| - 1].indices1));
      KeptBound(init, k);
    }
  }

  /** Both alleles of the kept batches can be run on a dataset of `size` rows. */
  predicate KeptFit(mode: IdxMode, size: nat, kept: seq<VariantBatch>)
  {
    (forall j :: 0 <= j < |kept| ==> FitsVariant(mode, kept[j])) &&
    AllFit(mode, Allele1(kept)) && AllFit(mode, Allele2(kept)) &&
    Processed(Allele1(kept)) <= size && Processed(Allele2(kept)) == Processed(Allele1(kept))
  }

  /** One non-skipped iteration keeps one more batch. */
  lemma KeptStep(vbs: seq<VariantBatch>, k: nat)
    requires k < |vbs| && !Skipped(vbs[k])
    ensures Kept(vbs[..k + 1]) == Kept(vbs[..k]) + [vbs[k]]
  {
    assert vbs[..k + 1][..k] == vbs[..k];
  }

  /** Both alleles of one more kept batch still fit the dataset. */
  lemma KeptFitAppend(mode: IdxMode, size: nat, done: seq<VariantBatch>, v: VariantBatch)
    requires KeptFit(mode, size, done) && FitsVariant(mode, v)
    requires Processed(Allele1(done + [v])) <= size
    ensures KeptFit(mode, size, done + [v])
  {
    forall j | 0 <= j < |done| + 1
      ensures FitsVariant(mode, (done + [v])[j])
    {
      if j < |done| {
        assert (done + [v])[j] == done[j];
      }
    }
    AllelesFit(mode, done + [v]);
  }

  lemma KeptSkip(vbs: seq<VariantBatch>, k: nat)
    requires k < |vbs| && Skipped(vbs[k])
    ensures Kept(vbs[..k + 1]) == Kept(vbs[..k])
  {
    assert vbs[..k + 1][..k] == vbs[..k];
  }

  /** A run over xs + [b] is the run over xs followed by one write at its end. */
  lemma RunStep(mode: IdxMode, size: nat, xs: seq<Batch>, b: Batch)
    requires AllFit(mode, xs + [b]) && Processed(xs + [b]) <= size
    ensures AllFit(mode, xs) && Fits(mode, b) && Processed(xs + [b]) == Processed(xs) + b.size
    ensures mode == VariableMode ==> Processed(xs) + b.size <= |Table(Run(mode, size, xs), size)|
    ensures Run(mode, size, xs + [b]) == Write(Run(mode, size, xs), size, mode, Processed(xs), b)
  {
    assert (xs + [b])[..|xs|] == xs;
    assert (xs + [b])[|xs|] == b;
    RunAppend(mode, size, xs + [b]);
  }

  /** One kept iteration: both alleles are written at the same `start`, which then advances. */
  method WriteAlleles(mode: IdxMode, size: nat, g1: OutputGroup, g2: OutputGroup,
                      ghost kept: seq<VariantBatch>, start: nat, vb: VariantBatch) returns (end: nat)
    requires g1 != g2 && g1.size == size == g2.size
    requires KeptFit(mode, size, kept) && KeptFit(mode, size, kept + [vb])
    requires g1.State() == Run(mode, size, Allele1(kept)) && g2.State() == Run(mode, size, Allele2(kept))
    requires start == Processed(Allele1(kept))
    modifies g1, g2
    ensures g1.State() == Run(mode, size, Allele1(kept + [vb]))
    ensures g2.State() == Run(mode, size, Allele2(kept + [vb]))
    ensures end == Processed(Allele1(kept + [vb]))
  {
    var b1, b2 := Batch(vb.size, vb.indices1), Batch(vb.size, vb.indices2);
    AllelesAppend(kept, vb);
    RunStep(mode, size, Allele1(kept), b1);
    RunStep(mode, size, Allele2(kept), b2);
    g1.WriteBatch(mode, start, b1);
    g2.WriteBatch(mode, start, b2);
    end := start + vb.size;
  }

  /**
   * `HFVariantEmbeddingExtractor.extract_embeddings`: batches whose two alleles are
   * all zeros are skipped without advancing `start`; every other batch is written to
   * the "allele1" and "allele2" groups at the same rows, as the simple extractor writes.
   */
  method ExtractVariantEmbeddings(mode: IdxMode, size: nat, batches: seq<VariantBatch>)
    returns (g1: OutputGroup, g2: OutputGroup, start: nat)
    requires forall k :: 0 <= k < |batches| ==> FitsVariant(mode, batches[k])
    requires Processed(Allele1(batches)) <= size
    ensures fresh(g1) && fresh(g2) && g1 != g2 && g1.size == size == g2.size
    ensures KeptFit(mode, size, Kept(batches))
    ensures g1.State() == Run(mode, size, Allele1(Kept(batches)))
    ensures g2.State() == Run(mode, size, Allele2(Kept(batches)))
    ensures start == Processed(Allele1(Kept(batches)))
  {
    g1 := new OutputGroup(size);
    g2 := new OutputGroup(size);
    start := 0;
    ghost var kept: seq<VariantBatch> := [];
    var k := 0;
    while k < |batches|
      invariant 0 <= k <= |batches| && kept == Kept(batches[..k])
      invariant KeptFit(mode, size, kept)
      invariant start == Processed(Allele1(kept))
      invariant g1.State() == Run(mode, size, Allele1(kept))
      invariant g2.State() == Run(mode, size, Allele2(kept))
      invariant g1.size == size == g2.size && g1 != g2
      modifies g1, g2
    {
      start, kept := VariantStep(mode, size, batches, k, g1, g2, kept, start);
      k := k + 1;
    }
    assert batches[..k] == batches;
  }

  /** A batch that is not skipped joins the kept batches, which still fit. */
  lemma KeepFacts(mode: IdxMode, size: nat, batches: seq<VariantBatch>, k: nat, kept: seq<VariantBatch>)
    requires forall j :: 0 <= j < |batches| ==> FitsVariant(mode, batches[j])
    requires Processed(Allele1(batches)) <= size
    requires k < |batches| && kept == Kept(batches[..k]) && !Skipped(batches[k])
    requires KeptFit(mode, size, kept)
    ensures Kept(batches[..k + 1]) == kept + [batches[k]]
    ensures KeptFit(mode, size, kept + [batches[k]])
  {
    KeptStep(batches, k);
    KeptBound(batches, k + 1);
    KeptFitAppend(mode, size, kept, batches[k]);
  }

  /** One iteration of the variant loop: batch k is either skipped or written to both groups. */
  method VariantStep(mode: IdxMode, size: nat, batches: seq<VariantBatch>, k: nat,
                     g1: OutputGroup, g2: OutputGroup, ghost kept: seq<VariantBatch>, start: nat)
    returns (start': nat, ghost kept': seq<VariantBatch>)
    requires forall j :: 0 <= j < |batches| ==> FitsVariant(mode, batches[j])
    requires Processed(Allele1(batches)) <= size
    requires k < |batches| && kept == Kept(batches[..k])
    requires KeptFit(mode, size, kept)
    requires start == Processed(Allele1(kept))
    requires g1.State() == Run(mode, size, Allele1(kept))
    requires g2.State() == Run(mode, size, Allele2(kept))
    requires g1.size == size == g2.size && g1 != g2
    modifies g1, g2
    ensures kept' == Kept(batches[..k + 1])
    ensures KeptFit(mode, size, kept')
    ensures start' == Processed(Allele1(kept'))
    ensures g1.State() == Run(mode, size, Allele1(kept'))
    ensures g2.State() == Run(mode, size, Allele2(kept'))
    ensures g1.size == size == g2.size
  {
    var vb := batches[k];
    if Skipped(vb) {
      KeptSkip(batches, k);
      start', kept' := start, kept;
    } else {
      KeepFacts(mode, size, batches, k, kept);
      start' := WriteAlleles(mode, size, g1, g2, kept, start, vb);
      kept' := kept + [vb];
    }
  }

  // ---- HyenaDNA variant detokenize ----

  /**
   * `HyenaDNAVariantEmbeddingExtractor.detokenize`: keeps the first L token positions of
   * each row (the sequence length), dropping the rest; a shorter row is kept whole.
   */
  function Detokenize<E>(emb: seq<seq<E>>, L: nat): (r: seq<seq<E>>)
    ensures |r| == |emb|
    ensures forall i :: 0 <= i < |emb| ==>
      |r[i]| == (if L <= |emb[i]| then L else |emb[i]|) &&
      forall p :: 0 <= p < |r[i]| ==> r[i][p] == emb[i][p]
  {
    seq(|emb|, i requires 0 <= i < |emb| => if L <= |emb[i]| then emb[i][..L] else emb[i])
  }

  /** Detokenizing twice with the same length changes nothing more. */
  lemma DetokenizeIdempotent<E>(emb: seq<seq<E>>, L: nat)
    ensures Detokenize(Detokenize(emb, L), L) == Detokenize(emb, L)
  {
    var once := Detokenize(emb, L);
    var twice := Detokenize(once, L);
    forall i | 0 <= i < |emb|
      ensures twice[i] == once[i]
    {
      assert |twice[i]| == |once[i]|;
    }
  }

  /**
   * The HyenaDNA fixed indices [0, L] select, in every row at least L long, exactly the
   * positions the variant extractor's detokenize keeps.
   */
  lemma {:induction false} HdSliceSelectsDetokenized<E>(emb: seq<seq<E>>, L: nat)
    requires forall i :: 0 <= i < |emb| ==> L <= |emb[i]|
    ensures forall i :: 0 <= i < |emb| ==>
      Detokenize(emb, L)[i] == emb[i][GatherIndex.HdSlice(L)[0]..GatherIndex.HdSlice(L)[1]]
  {
    forall i | 0 <= i < |emb|
      ensures Detokenize(emb, L)[i] == emb[i][GatherIndex.HdSlice(L)[0]..GatherIndex.HdSlice(L)[1]]
    {
      assert emb[i][0..L] == emb[i][..L];
    }
  }
}
