/**
 * `_offsets_to_indices`: for every base position of a sequence, the index of the
 * token whose embedding or likelihood stands for it.
 *  - variable (DNABERT-2, GENA-LM, Mistral-DNA): built from the tokenizer's offset mapping;
 *  - fixed 6-mers (Nucleotide Transformer);
 *  - fixed slice [0, L] (HyenaDNA, one token per base).
 */
module GatherIndex {
  import opened Tensors
  import Arith

  /** A token's character span [start, end) in the input string, from the offset mapping. */
  datatype Offset = Offset(start: nat, end: nat)

  predicate Covers(o: Offset, p: nat)
  {
    o.start <= p < o.end
  }

  /** The last token of offs whose span covers position p, or 0 when none does. */
  function LastCover(offs: seq<Offset>, p: nat): nat
  {
    if |offs| == 0 then 0
    else if Covers(offs[|offs| - 1], p) then |offs| - 1
    else LastCover(offs[..|offs| - 1], p)
  }

  /** Later tokens win, and an uncovered position keeps the initial 0. */
  lemma {:induction false} LastCoverIsLast(offs: seq<Offset>, p: nat)
    ensures (exists j :: 0 <= j < |offs| && Covers(offs[j], p)) ==>
      LastCover(offs, p) < |offs| && Covers(offs[LastCover(offs, p)], p) &&
      forall j :: LastCover(offs, p) < j < |offs| ==> !Covers(offs[j], p)
    ensures (forall j :: 0 <= j < |offs| ==> !Covers(offs[j], p)) ==> LastCover(offs, p) == 0
    decreases |offs|
  {
    var n := |offs|;
    if n > 0 {
      var init := offs[..n - 1];
      LastCoverIsLast(init, p);
      if !Covers(offs[n - 1], p) && exists j :: 0 <= j < n && Covers(offs[j], p) {
        var j :| 0 <= j < n && Covers(offs[j], p);
        assert Covers(init[j], p);
      }
    }
  }

  /** `gather_idx[i, start:end] = j`: row i over positions [lo, hi) set to j. */
  method WriteSpan(g: array2<nat>, i: nat, lo: nat, hi: nat, j: nat)
    requires i < g.Length0 && lo <= hi <= g.Length1
    modifies g
    ensures forall q :: 0 <= q < g.Length1 ==> g[i, q] == if lo <= q < hi then j else old(g[i, q])
    ensures forall r, q :: 0 <= r < g.Length0 && r != i && 0 <= q < g.Length1 ==> g[r, q] == old(g[r, q])
  {
    var p := lo;
    while p < hi
      invariant lo <= p <= hi
      invariant forall q :: 0 <= q < g.Length1 ==> g[i, q] == if lo <= q < p then j else old(g[i, q])
      invariant forall r, q :: 0 <= r < g.Length0 && r != i && 0 <= q < g.Length1 ==> g[r, q] == old(g[r, q])
    {
      g[i, p] := j;
      p := p + 1;
    }
  }

  /** Row i: every token j in order writes j over its (width-clipped) span. */
  method FillRow(g: array2<nat>, i: nat, offs: seq<Offset>)
    requires i < g.Length0
    requires forall q :: 0 <= q < g.Length1 ==> g[i, q] == 0
    modifies g
    ensures forall q :: 0 <= q < g.Length1 ==> g[i, q] == LastCover(offs, q)
    ensures forall r, q :: 0 <= r < g.Length0 && r != i && 0 <= q < g.Length1 ==> g[r, q] == old(g[r, q])
  {
    var j := 0;
    while j < |offs|
      invariant 0 <= j <= |offs|
      invariant forall q :: 0 <= q < g.Length1 ==> g[i, q] == LastCover(offs[..j], q)
      invariant forall r, q :: 0 <= r < g.Length0 && r != i && 0 <= q < g.Length1 ==> g[r, q] == old(g[r, q])
    {
      // numpy clips the slice to the row
      var hi := if offs[j].end < g.Length1 then offs[j].end else g.Length1;
      var lo := if offs[j].start < hi then offs[j].start else hi;
      WriteSpan(g, i, lo, hi, j);
      assert offs[..j + 1][..j] == offs[..j];
      j := j + 1;
    }
    assert offs[..|offs|] == offs;
  }

  /** The array's contents as a value (the returned numpy array). */
  function Contents(g: array2<nat>): (m: seq<seq<nat>>)
    reads g
    ensures IsMatrix(m, g.Length0, g.Length1)
    ensures forall r, q :: 0 <= r < g.Length0 && 0 <= q < g.Length1 ==> m[r][q] == g[r, q]
  {
    seq(g.Length0, r requires 0 <= r < g.Length0 reads g =>
      seq(g.Length1, q requires 0 <= q < g.Length1 reads g => g[r, q]))
  }

  /**
   * The variable `_offsets_to_indices` (DNABERT-2, GENA-LM and Mistral-DNA evaluators,
   * `SimpleEmbeddingExtractor`, `HFVariantEmbeddingExtractor`): a zero-initialised
   * rows x width array where position p of row i holds the last token covering it.
   */
  method VariableIndices(offsets: seq<seq<Offset>>, rows: nat, width: nat) returns (idx: seq<seq<nat>>)
    requires |offsets| == rows
    ensures IsMatrix(idx, rows, width)
    ensures forall i, p :: 0 <= i < rows && 0 <= p < width ==> idx[i][p] == LastCover(offsets[i], p)
  {
    var g := new nat[rows, width]((i, p) => 0);
    var i := 0;
    while i < rows
      invariant 0 <= i <= rows
      invariant forall r, q :: 0 <= r < i && 0 <= q < width ==> g[r, q] == LastCover(offsets[r], q)
      invariant forall r, q :: i <= r < rows && 0 <= q < width ==> g[r, q] == 0
    {
      FillRow(g, i, offsets[i]);
      i := i + 1;
    }
    idx := Contents(g);
  }

  // ---- Nucleotide Transformer: non-overlapping 6-mers, then single bases ----

  /** The token of position p in a sequence of length L: full 6-blocks k -> k + 1, then the tail one by one. */
  function NtIndex(L: nat, p: nat): nat
  {
    var full := (L / 6) * 6;
    if p < full then p / 6 + 1 else L / 6 + 1 + (p - full)
  }

  /**
   * The Nucleotide Transformer `_offsets_to_indices` as written: a loop over the
   * L div 6 blocks, then the tail from the loop variable's last value. For L < 6 that
   * variable is never bound and the source raises, hence L >= 6.
   */
  method NtIndices(L: nat) returns (inds: seq<nat>)
    requires L >= 6
    ensures |inds| == L
    ensures forall p :: 0 <= p < L ==> inds[p] == NtIndex(L, p)
  {
    var a := new nat[L](p => 0);
    var blocks := L / 6;
    var i := 0;
    var last := 0;  // the loop variable `i` after the loop
    while i < blocks
      invariant 0 <= i <= blocks
      invariant i > 0 ==> last == i - 1
      invariant forall p :: 0 <= p < 6 * i ==> a[p] == p / 6 + 1
      invariant forall p :: 6 * i <= p < L ==> a[p] == 0
    {
      var p := 6 * i;
      while p < 6 * (i + 1)
        invariant 6 * i <= p <= 6 * (i + 1)
        invariant forall q :: 0 <= q < 6 * i ==> a[q] == q / 6 + 1
        invariant forall q :: 6 * i <= q < p ==> a[q] == i + 1
        invariant forall q :: p <= q < L ==> a[q] == 0
      {
        a[p] := i + 1;
        p := p + 1;
      }
      last := i;
      i := i + 1;
    }
    // inds[(i+1)*6:] = np.arange(i+2, i+(seq_len%6)+2)
    var p := (last + 1) * 6;
    while p < L
      invariant (last + 1) * 6 <= p <= L
      invariant forall q :: 0 <= q < (last + 1) * 6 ==> a[q] == q / 6 + 1
      invariant forall q :: (last + 1) * 6 <= q < p ==> a[q] == last + 2 + (q - (last + 1) * 6)
    {
      a[p] := last + 2 + (p - (last + 1) * 6);
      p := p + 1;
    }
    inds := a[..];
  }

  /** Block k of 6 positions maps to token k + 1. */
  lemma NtBlock(L: nat, k: nat, t: nat)
    requires k < L / 6 && t < 6
    ensures 6 * k + t < L && NtIndex(L, 6 * k + t) == k + 1
  {
  }

  /** The L mod 6 tail positions map to consecutive tokens after the last block. */
  lemma NtTail(L: nat, t: nat)
    requires t < L % 6
    ensures (L / 6) * 6 + t < L && NtIndex(L, (L / 6) * 6 + t) == L / 6 + 1 + t
  {
  }

  /** Token indices never decrease along the sequence, and the largest is L div 6 + L mod 6. */
  lemma NtRange(L: nat)
    requires L >= 6
    ensures forall p, q :: 0 <= p <= q < L ==> 1 <= NtIndex(L, p) <= NtIndex(L, q)
    ensures NtIndex(L, L - 1) == L / 6 + L % 6
    ensures forall p :: 0 <= p < L ==> NtIndex(L, p) <= L / 6 + L % 6
  {
    var full := (L / 6) * 6;
    assert L == full + L % 6;
    forall p, q | 0 <= p <= q < L
      ensures 1 <= NtIndex(L, p) <= NtIndex(L, q)
    {
      if q < full {
        Arith.DivMonotone(p, q, 6);
      } else if p < full {
        Arith.DivMonotone(p, full - 1, 6);
        assert (full - 1) / 6 == L / 6 - 1;
      }
    }
    if L % 6 == 0 {
      assert (L - 1) / 6 == L / 6 - 1;
    }
  }

  /** The evaluators' NT variant: the same index vector for every row of the batch. */
  method NtBatchIndices(rows: nat, L: nat) returns (idx: seq<seq<nat>>)
    requires L >= 6
    ensures IsMatrix(idx, rows, L)
    ensures forall i, p :: 0 <= i < rows && 0 <= p < L ==> idx[i][p] == NtIndex(L, p)
  {
    var inds := NtIndices(L);
    idx := seq(rows, i => inds);
  }

  // ---- HyenaDNA: one token per base, selected by a slice ----

  /** The HyenaDNA embedding extractor's fixed indices: the slice [0, L]. */
  function HdSlice(L: nat): (s: seq<nat>)
    ensures |s| == 2 && s[0] == 0 && s[1] == L
  {
    [0, L]
  }

  /**
   * The HyenaDNA evaluators' indices: the slice [0, L] for every row. What that
   * slice selects is `Embeddings.HdSliceSelectsDetokenized`.
   */
  function HdBatchSlices(rows: nat, L: nat): (m: seq<seq<nat>>)
    ensures IsMatrix(m, rows, 2)
    ensures forall i :: 0 <= i < rows ==> m[i] == HdSlice(L)
  {
    seq(rows, i => HdSlice(L))
  }
}
