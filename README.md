# dnalm_bench core, modelled in Dafny

dnalm_bench benchmarks DNA language models (DNABERT-2, GENA-LM, Mistral-DNA,
Nucleotide Transformer, HyenaDNA). Around every model call sits a small amount of
index and accumulation logic, and that logic is what this project models and proves
properties of:

- **Token boundaries and zero-shot likelihoods** (`Tokenize`, `ZeroShotScore`).
  `tokenize` finds each row's genomic span `[start, end)` among the tokens. It uses the
  start-token column plus 1 (or 0), and the end-token column (or the attention-mask
  sum). The masked score runs one forward pass per token column, each with only that
  column masked. The causal score uses one pass. Both keep the log-likelihoods inside
  the span and sum them per row. The forward pass is an uninterpreted function
  `Forward` from a token matrix to a matrix of real log-likelihoods.
- **Paired-control accumulation** (`PairedControl`). Per batch, `diff = seq - ctrl` and
  `correct = diff > 0`. The batches are concatenated in order, and `acc` and `mean_diff`
  are computed over the result.
- **Gather indices** (`GatherIndex`). For every base position, the index of the token
  that stands for it. The variable kind comes from the offset mapping; later tokens
  overwrite earlier ones, and uncovered positions keep 0. The Nucleotide Transformer
  kind uses 6-mer blocks followed by single bases. The HyenaDNA kind is the slice `[0, L]`.
- **Embedding extraction bookkeeping** (`Embeddings`). This covers the running
  `start`/`end` row ranges, the `idx_var` rows written per batch, the `idx_fix` written
  once, the skip of all-zero variant batches, and the HyenaDNA `detokenize`. An HDF5
  group is the class `OutputGroup`.
- **The chromatin fine-tuning dataset and loop** (`ChromatinData`):
  - the `_load_elements` chromosome filter;
  - the `set_epoch` strided downsampling;
  - the `__getitem__` window arithmetic into zero buffers (arrays);
  - the `counts_spearman` ranks;
  - the gradient-accumulation schedule, the out-of-memory batch split and its loss;
  - the resume epoch.
- **The LoRA state-dict hook** (`LoRA`). It deletes, in place, every key under the
  module prefix that is not a LoRA parameter. `name_is_lora` is a predicate parameter.

`Wrappers` holds `Option`/`Result`, `Tensors` holds sums and concatenations of
sequences, and `Arith` holds Euclidean division and real-arithmetic facts. Results
that numpy would turn into NaN (the mean of an empty array) are `None`. A Python
exception is a `Failure`.

The model's `Evaluate` has no failure for all-zero diffs; what scipy's Wilcoxon call does with them is not modelled.

## Model

| member | source | states |
|---|---|---|
| Tokenize.TokenizeSpans | src/dnalm_bench/single/evaluators.py:36-52 | With one start/end token per row, row r starts at its start-token column + 1 (0 without a start token, as a per-row vector). It ends at its end-token column, or at its attention-mask sum. The call fails exactly when there is no end token and no mask. The variant evaluator's tokenize in the same file uses the same boundary rule. |
| Tokenize.PairedTokenizeSpans | src/dnalm_bench/paired_control/zero_shot/evaluators.py:124-137 | The paired adapter fails exactly when the attention mask is absent. The start is the scalar 0 exactly when no start token is configured, and otherwise start-token column + 1 per row. The ends follow the same rule as the single evaluator. |
| Tokenize.MatchColumnsOnePerRow | src/dnalm_bench/single/evaluators.py:45 | When each row holds the token exactly once, `torch.where(tokens == id)[1]` lists that token's column for every row, in row order. |
| Tokenize.MaskSumIsLength | src/dnalm_bench/single/evaluators.py:51 | The sum of a right-padded attention-mask row is its number of real tokens. |
| ZeroShotScore.MaskedScore | src/dnalm_bench/single/evaluators.py:131-143 | There are exactly T forward passes, and pass i equals the tokens with only column i set to the mask id. Row r's score is the sum over columns i of pass i's log-likelihood at i, multiplied by `[start_r <= i < end_r]`. The paired-control masked score is the same, with a scalar start broadcast to every row. |
| ZeroShotScore.WriteColumn | src/dnalm_bench/single/evaluators.py:136-139 | `lls[:, i]` gets the clipped pass output, and every other column is unchanged. |
| ZeroShotScore.RowSums | src/dnalm_bench/single/evaluators.py:141 | Each output entry is the sum of its row of `lls`. |
| ZeroShotScore.MaskedScoreIsSpanSum | src/dnalm_bench/single/evaluators.py:134-141 | A masked row score is the plain sum of the masked-pass values over the span, clipped to the row width. |
| ZeroShotScore.CausalScoreIsSpanSum | src/dnalm_bench/single/evaluators.py:178-186 | The causal score of row r, from a single pass, is the sum of that row's log-likelihoods over `[start_r, end_r)` clipped to the row width. |
| ZeroShotScore.ClippedSumIsSpanSum | src/dnalm_bench/single/evaluators.py:181-184 | Multiplying by the clip mask and summing gives the plain sum over the part of `[start, end)` inside the row. |
| ZeroShotScore.ClippedSumIgnoresOutside | src/dnalm_bench/single/evaluators.py:139 | Columns outside `[start, end)` contribute nothing: rows that agree on the span score the same. |
| ZeroShotScore.PairedCausalScalarStart | src/dnalm_bench/paired_control/zero_shot/evaluators.py:36-44 | With the scalar start 0, the paired causal score as written fails in `zip(starts, ends)`. The broadcasting score gives each row its span sum. |
| ZeroShotScore.BroadcastCausalScore | src/dnalm_bench/paired_control/zero_shot/evaluators.py:39-42 | Row r's score is the clipped sum of its log-likelihoods, with the start broadcast when it is a scalar. |
| GatherIndex.LastCoverIsLast | src/dnalm_bench/single/evaluators.py:310-312 | The index of a position is the last token whose span covers it, and 0 when no token covers it. |
| GatherIndex.VariableIndices | src/dnalm_bench/single/evaluators.py:307-313 | The result is a zero-initialised rows x width array. Entry (i, p) is the last token of row i whose offset covers p, or 0. The GENA-LM and Mistral-DNA evaluators and the simple and HF variant embedding extractors build the same array. |
| GatherIndex.FillRow | src/dnalm_bench/single/embeddings.py:23-25 | Row i ends up holding the last covering token at every position; the other rows are unchanged. |
| GatherIndex.WriteSpan | src/dnalm_bench/single/embeddings.py:25 | `gather_idx[i, start:end] = j` writes j over `[start, end)` of row i and nothing else. |
| GatherIndex.NtIndices | src/dnalm_bench/single/embeddings.py:183-191 | For L >= 6, a length-L vector: position p of full 6-block k holds k + 1, and the tail positions continue one by one after L div 6. |
| GatherIndex.NtBatchIndices | src/dnalm_bench/single/evaluators.py:481-489 | Every row of the evaluators' NT indices is the 6-mer index vector. |
| GatherIndex.NtRange | src/dnalm_bench/single/embeddings.py:187-189 | NT indices are at least 1 and never decrease along the sequence. The last and largest is L div 6 + L mod 6. |
| GatherIndex.HdBatchSlices | src/dnalm_bench/single/evaluators.py:427-431 | Every row of the HyenaDNA evaluators' indices is `[0, L]`. |
| Embeddings.HdSliceSelectsDetokenized | src/dnalm_bench/single/embeddings.py:210-213 | The HyenaDNA fixed indices `[0, L]` select exactly the positions that `detokenize` keeps. |
| Embeddings.Detokenize | src/dnalm_bench/single/embeddings.py:253-255 | Each row keeps its first L token positions, unchanged, and drops the rest. A shorter row is kept whole. |
| Embeddings.DetokenizeIdempotent | src/dnalm_bench/single/embeddings.py:253-255 | Detokenizing twice to the same length is detokenizing once. |
| Embeddings.OutputGroup.WriteBatch | src/dnalm_bench/single/embeddings.py:43-52 | A batch at `start` writes `idx_var` rows `[start, start + len)` in variable mode, or `idx_fix` only when `start == 0` in fixed mode. It adds the dataset range `[start, start + len)`, and nothing else changes. |
| Embeddings.ExtractEmbeddings | src/dnalm_bench/single/embeddings.py:29-56 | The group is the left fold of the batch writes from start 0. The final `start` is the number of sequences processed. |
| Embeddings.RunIdxVar | src/dnalm_bench/single/embeddings.py:43-46 | In variable mode, `idx_var` holds every batch's index rows in batch order, followed by the unwritten rows (`Blank`: zero rows in HDF5, kept empty in the model, which does not track the width). |
| Embeddings.RunIdxFix | src/dnalm_bench/single/embeddings.py:48-50 | In fixed mode, `idx_fix` holds the first batch's indices and no `idx_var` exists. |
| Embeddings.RunRanges | src/dnalm_bench/single/embeddings.py:52 | The `emb_{start}_{end}` datasets are, in order, the batch ranges. |
| Embeddings.RangesTile | src/dnalm_bench/single/embeddings.py:35-54 | Batch ranges are contiguous from 0, each as long as its batch, and the last ends at the number of sequences processed. |
| Embeddings.RowsInRange | src/dnalm_bench/single/embeddings.py:44-46 | Row x of `idx_var` is the row of the batch whose range contains x, shifted by that range's start. |
| Embeddings.ExtractVariantEmbeddings | src/dnalm_bench/single/embeddings.py:99-139 | Both allele groups are the writes of the batches kept after dropping those where both alleles are all zero. `start` counts only the kept batches. |
| Embeddings.KeptProcessed | src/dnalm_bench/single/embeddings.py:109-111 | Per batch, a skipped batch adds nothing to the kept batches' size total and a kept batch adds its size, so skipping never adds sequences. That `start` ends at this total is `ExtractVariantEmbeddings`' contract. |
| PairedControl.Diffs | src/dnalm_bench/paired_control/zero_shot/evaluators.py:79 | `diff[k] = seq[k] - ctrl[k]`, for every pair of the batch. |
| PairedControl.Corrects | src/dnalm_bench/paired_control/zero_shot/evaluators.py:80 | `correct[k]` holds exactly when `diff[k] > 0`. |
| PairedControl.Evaluate | src/dnalm_bench/paired_control/zero_shot/evaluators.py:67-100 | Without batches, `np.concatenate` fails. Otherwise the metrics are `acc` and `mean_diff` of the diffs concatenated in batch order. |
| PairedControl.CorrectsConcat | src/dnalm_bench/paired_control/zero_shot/evaluators.py:82-86 | Concatenating the per-batch `correct` arrays gives `correct` of the concatenated diffs, aligned index for index. |
| PairedControl.DiffsInBatchOrder | src/dnalm_bench/paired_control/zero_shot/evaluators.py:85 | Pair k of batch j sits after all pairs of the earlier batches in the concatenated diffs. |
| PairedControl.TotalPairs | src/dnalm_bench/paired_control/zero_shot/evaluators.py:85-86 | The concatenation's length is the sum of the batch sizes. |
| PairedControl.AccuracyIsPositiveFraction | src/dnalm_bench/paired_control/zero_shot/evaluators.py:88 | `corrects.mean()` is the number of positive diffs over N, and NaN for N = 0. |
| PairedControl.CountPositives | src/dnalm_bench/paired_control/zero_shot/evaluators.py:88 | The sum of the positive-diff indicators is the number of positions with a positive diff. |
| PairedControl.MetricsOrderFree | src/dnalm_bench/paired_control/zero_shot/evaluators.py:88-93 | `acc` and `mean_diff` depend only on the multiset of diffs. |
| PairedControl.BatchOrderFree | src/dnalm_bench/paired_control/zero_shot/evaluators.py:72-93 | Processing the same batches in any order gives the same `acc` and `mean_diff`. |
| ChromatinData.LoadElementsKeepsOrder | src/dnalm_bench/single/finetune.py:68-77 | The kept rows keep their order: loading a concatenation of rows gives the concatenation of the loaded parts. |
| ChromatinData.LoadElementsKeeps | src/dnalm_bench/single/finetune.py:68-77 | Without chromosomes all rows are kept. Otherwise each row on a listed chromosome is kept as often as it occurs, and nothing else is kept. |
| ChromatinData.FilterCounts | src/dnalm_bench/single/finetune.py:72-73 | The `is_in(chroms)` filter keeps every copy of a matching row and no other row. |
| ChromatinData.ChromatinDataset.constructor | src/dnalm_bench/single/finetune.py:64-66 | Without a downsample ratio the elements are all rows; with one, they are unset until `set_epoch`. |
| ChromatinData.ChromatinDataset.SetEpoch | src/dnalm_bench/single/finetune.py:87-92 | Without a ratio nothing changes. A ratio of 0 fails (ZeroDivisionError in `epoch % 0`) and the elements stay as they were. Otherwise the elements become `take_every(r, epoch % r)` of all rows. |
| ChromatinData.TakeEveryTaken | src/dnalm_bench/single/finetune.py:92 | `take_every(n, offset)` is the rows at positions offset, offset + n, offset + 2n, ... in order. |
| ChromatinData.TakenExactly | src/dnalm_bench/single/finetune.py:92 | Position i is selected exactly when offset <= i < len and i - offset is a multiple of n. |
| ChromatinData.DownsampledRows | src/dnalm_bench/single/finetune.py:91-92 | In epoch e, row i is selected exactly when i ≡ e (mod r). |
| ChromatinData.EpochsPartitionRows | src/dnalm_bench/single/finetune.py:91-92 | Among any r consecutive epochs, each row is selected in exactly one. |
| ChromatinData.ChromatinDataset.GetItem | src/dnalm_bench/single/finetune.py:97-132 | The sequence buffer has end - start one-hot rows: the fetched bases at their genome positions and zeros elsewhere. The signal has length end - start - 2·crop: the track wherever the cropped window overlaps the fetched range, and zeros elsewhere. |
| ChromatinData.ChromosomeClipFits | src/dnalm_bench/single/finetune.py:102-110 | With the read clipped to `[max(0, start), min(end, chromLen))`, 0 <= a <= b <= end - start holds and the read meets the buffer's precondition. |
| ChromatinData.FillRows | src/dnalm_bench/single/finetune.py:113 | `seq[a:b, :] = ...` writes rows `[a, b)` and nothing else. |
| ChromatinData.FillRange | src/dnalm_bench/single/finetune.py:129 | `signal[c:d] = track` writes entries `[c, d)` and nothing else. |
| ChromatinData.RanksInvertOrder | src/dnalm_bench/single/finetune.py:164-165 | The second argsort inverts the first: `rank[order[j]] == j`, `order[rank[i]] == i`, and the ranks are a permutation of 0..n-1. |
| ChromatinData.RanksFollowValues | src/dnalm_bench/single/finetune.py:164-165 | A smaller value gets a smaller rank, and a smaller rank means a value no larger. For distinct values the rank order is the value order. |
| ChromatinData.TrainEpoch | src/dnalm_bench/single/finetune.py:210-238 | The epoch completes exactly when no half batch runs out of memory. The trace has, per batch, one backward pass, or one per half after out-of-memory, then a step after every batch i with (i + 1) mod accumulate = 0, and one final step. A half that runs out of memory, outside the `try`, ends the trace after that batch's completed passes, with no step for it and no final step. With accumulate 0, an epoch without batches completes with its final step, and otherwise it ends after batch 0's completed backward passes, where `(i + 1) % 0` raises ZeroDivisionError. |
| ChromatinData.TrainBatch | src/dnalm_bench/single/finetune.py:216-236 | One iteration: the whole batch's backward pass, or the first and then the second half's. The batch survives exactly when neither half runs out of memory. Only a surviving batch reaches the accumulate step. With accumulate 0 the backward passes run, since the loss over 0 is inf and raises nothing, and then the batch fails at `(i + 1) % 0`. |
| ChromatinData.StepsSoFar | src/dnalm_bench/single/finetune.py:234-236 | The loop steps n div accumulate times for n batches that all survive. |
| ChromatinData.EpochSteps | src/dnalm_bench/single/finetune.py:216-238 | With k batches surviving before the first failure, an epoch steps k div accumulate times, plus the final step when no batch failed. When all n batches survive and n is a positive multiple of accumulate, the last two events are both steps. |
| ChromatinData.EachBatchOnce | src/dnalm_bench/single/finetune.py:216-232 | Every batch the epoch reaches gets exactly one backward pass over the whole batch, or one per completed half after out-of-memory. The batches after a failed one get none. |
| ChromatinData.SplitBatch | src/dnalm_bench/single/finetune.py:222-224 | The halves split at len div 2 and concatenate back to the batch. |
| ChromatinData.SplitLossAsWrittenEven | src/dnalm_bench/single/finetune.py:221-231 | For an even batch, the gradients of the two backward passes, each on a half's mean loss over 2·accumulate, add up to the whole batch's loss over accumulate. |
| ChromatinData.SplitLossAsWrittenOdd | src/dnalm_bench/single/finetune.py:221-231 | For an odd batch the split as written differs: errors [0, 0, 3] give 0.75 where the whole batch gives 1.0. A batch of one has an empty first half, whose backward pass adds no gradient, so it contributes 0.5 where the whole batch gives 1.0. |
| ChromatinData.SplitLossIsWholeLoss | src/dnalm_bench/single/finetune.py:216-231 | Weighting each half by its share of the batch makes the split contribute exactly the whole batch's loss. |
| ChromatinData.EpochsRun | src/dnalm_bench/single/finetune.py:185-202 | The epochs run are `range(start_epoch, num_epochs)`, with start_epoch = resume_from + 1, or 0. |
| ChromatinData.ResumeContinues | src/dnalm_bench/single/finetune.py:185-202 | Resuming from the checkpoint of epoch k runs exactly the epochs after k that a fresh run would reach. |
| LoRA.Pruned | src/dnalm_bench/finetune.py:43-45 | No prefixed non-LoRA key remains. Unprefixed keys and prefixed LoRA keys stay, with their values. No key is added. |
| LoRA.PrunedRemovesExactly | src/dnalm_bench/finetune.py:43 | The deleted keys are exactly the prefixed non-LoRA keys. |
| LoRA.PrunedIdempotent | src/dnalm_bench/finetune.py:43-45 | Running the hook a second time changes nothing. |
| LoRA.StateDictHook | src/dnalm_bench/finetune.py:42-45 | After the in-place deletions the state dict is the pruned dict of its old contents. |

## Left out

- Model loading, tokenizers and the forward pass: the tokenizer's output (tokens, attention mask, offsets) is an input. The forward pass (logits, cross-entropy) is an uninterpreted function.
- The one-argument `model_fwd(tokens)` call of the paired causal score (paired_control/zero_shot/evaluators.py:38): the single pass's log-likelihoods are an input to the score.
- Wilcoxon test, percentiles and median of `evaluate`: floating-point statistics from scipy/numpy.
- Floating-point numerics: reals throughout. `log1pMSELoss` is the mean of given per-sequence squared errors, and `pearson_correlation`, `counts_pearson` and `nan_to_num` are not modelled. NaN is `None`.
- Integer widths: the `uint32`/`int64` index arrays and the `int8` buffer are unbounded `nat`/`int`. All values stay far inside those widths for real sequence lengths.
- I/O: FASTA, BigWig, HDF5, polars/CSV, file copies, checkpoints, devices and DataLoader workers. `__getitem__` takes the FASTA read and the BigWig track as inputs.
- ChromatinData.ChromatinDataset.GetItem: requires a non-negative window, a FASTA read inside the requested window and a track as long as the overlap. Where the source would index out of range or fail to broadcast, the model has no error path.
- ChromatinData.TrainEpoch: `accumulate` is a `nat`, so a negative accumulate is not modelled. In the source it flips the loss's sign and still steps on multiples of it.
- The shuffle of the training DataLoader: the loop sees batches in the order given.
- The training loop's memory: whether a batch or a half runs out of memory is an input per batch (`Outcome`). For a batch of one sequence, the second half `seq[1//2:]` is the whole batch that just ran out of memory, so in practice it most likely fails again.
- The exception that a failed half raises leaves `train_finetuned_chromatin_model`. The model ends the epoch's trace there and does not model the later epochs, validation or checkpoints.
- Embeddings: the embedding values are not tracked, only the indices and the dataset ranges. HDF5 shape checks of `require_dataset` are not modelled. The table width is fixed by the caller.
- Embeddings.ExtractEmbeddings: requires that the batches fit the table (`AllFit`, total size <= dataset size). In the source a misfit fails in the `seq_indices_dset[start:end] = ...` assignment, which cannot broadcast; the model has no error path for it.
- GatherIndex.NtIndices: requires L >= 6, because for shorter sequences the loop variable is never bound and the source raises `NameError`.
- `HDVariantEvaluator.tokenize` (single/evaluators.py:408-425): a missing attention mask leaves `ends` unset. It is the same boundary rule and is not modelled separately.
- The HyenaDNA variant extractor's variable index mode with no offsets (it would fail in `_offsets_to_indices`).
- Probing scores, all `__init__` constructors, `minlora.add_lora` and the classifier wrappers: they only wire external models.
- `embedding_clustering.py`, `dnabert2.py` and the experiment scripts.
- The `OrderedDict` order of the state dict, and the tie order of `argsort`: the first argsort is an input permutation that sorts the values.
- Source defects noted but not reproduced:
  - `NTEvaluator.__init__` calls `super().__init__` twice (paired_control/zero_shot/evaluators.py:218);
  - `self.model_name` is read before it is set (paired_control/zero_shot/evaluators.py:155);
  - the single causal score takes four arguments but is called with five (single/evaluators.py:94 and :178);
  - the masked score calls `.to` on an attention mask that may be `None` (single/evaluators.py:133).
  - `LikelihoodEvaluator.evaluate` calls `self.score` with four arguments (single/evaluators.py:78), but the masked score takes five, including `offsets` (single/evaluators.py:131), so `evaluate` on the DNABERT-2, GENA-LM and NT evaluators raises TypeError; `MaskedScore` models the score itself.
  - every paired evaluator class lists `HFZeroShotEvaluator` before its score mixin, so `score` resolves to the abstract method and the class cannot be instantiated (paired_control/zero_shot/evaluators.py:63-64 and :151-216).

## Findings

| source | as written | input that shows it | evidently intended | confidence | as-written member | corrected member |
|---|---|---|---|---|---|---|
| src/dnalm_bench/paired_control/zero_shot/evaluators.py:36-44 | Without a start token, `tokenize` returns the int 0 as `starts`, and the causal score iterates `zip(starts, ends)` | A direct call of `CausalZeroShotScore.score` with the starts of a tokenizer without a start token (HyenaDNA: start token None), for example `PairedCausalScore(lls, Broadcast(0), ends)`. In the program as it stands the `zip` is not reached: line 38's one-argument `model_fwd(tokens)` raises TypeError first, and every paired evaluator lists `HFZeroShotEvaluator` before its score mixin (lines 151, 168, 184, 200 and 216), so `score` resolves to the abstract method of lines 63-64, so no paired evaluator class can be instantiated. The `zip` failure shows once both are fixed | The scalar start is broadcast to every row, as the masked score's tensor comparison does | high (not executed) | ZeroShotScore.PairedCausalScore (ZeroShotScore.PairedCausalScalarStart) | ZeroShotScore.BroadcastCausalScore |
| src/dnalm_bench/single/finetune.py:221-231 | On out-of-memory, each half's mean loss is divided by 2·accumulate | errors [0, 0, 3] with accumulate 1 give 0.75 where the batch gives 1.0; a batch of one, whose first half is empty and adds no gradient, gives 0.5 | The split contributes the same gradient as the whole batch | medium (not executed) | ChromatinData.SplitLossAsWritten (ChromatinData.SplitLossAsWrittenOdd) | ChromatinData.SplitLoss (ChromatinData.SplitLossIsWholeLoss) |
