/**
 * The chromatin fine-tuning dataset and training loop of `single/finetune.py`:
 * the chromosome filter over the element table, the per-epoch strided downsampling,
 * the window arithmetic of `__getitem__` (a zero-padded one-hot buffer for the input
 * window, clipped against the chromosome, and a cropped signal window), the rank
 * transform of the Spearman correlation, and the bookkeeping of the training loop:
 * its gradient-accumulation schedule, its out-of-memory batch split and the epoch it
 * resumes from. The FASTA and BigWig readers and the model are inputs.
 */
module ChromatinData {
  import opened Wrappers
  import opened Tensors
  import Arith

  /** One row of the elements table: the input window and the element inside it. */
  datatype Element = Element(chrom: string, start: int, end: int, elemStart: int, elemEnd: int)

  // ---- _load_elements ----

  function Filter(rows: seq<Element>, chroms: seq<string>): seq<Element>
  {
    if |rows| == 0 then []
    else Filter(rows[..|rows| - 1], chroms) + (if rows[|rows| - 1].chrom in chroms then [rows[|rows| - 1]] else [])
  }

  /** `_load_elements`: the rows whose chromosome is listed, or every row when no list is given. */
  function LoadElements(rows: seq<Element>, chroms: Option<seq<string>>): seq<Element>
  {
    if chroms.None? then rows else Filter(rows, chroms.value)
  }

  /** The filter keeps every copy of a row on a listed chromosome and nothing else. */
  lemma {:induction false} FilterCounts(rows: seq<Element>, chroms: seq<string>, x: Element)
    ensures multiset(Filter(rows, chroms))[x] == if x.chrom in chroms then multiset(rows)[x] else 0
    decreases |rows|
  {
    if |rows| > 0 {
      var init := rows[..|rows| - 1];
      FilterCounts(init, chroms, x);
      assert rows == init + [rows[|rows| - 1]];
    }
  }

  lemma LoadElementsKeeps(rows: seq<Element>, chroms: Option<seq<string>>)
    ensures chroms.None? ==> LoadElements(rows, chroms) == rows
    ensures chroms.Some? ==> forall x :: (multiset(LoadElements(rows, chroms))[x] ==
      if x.chrom in chroms.value then multiset(rows)[x] else 0)
  {
    if chroms.Some? {
      forall x {
        FilterCounts(rows, chroms.value, x);
      }
    }
  }

  /** The kept rows keep their order: loading a concatenation concatenates the loaded parts. */
  lemma {:induction false} LoadElementsKeepsOrder(a: seq<Element>, b: seq<Element>, chroms: Option<seq<string>>)
    ensures LoadElements(a + b, chroms) == LoadElements(a, chroms) + LoadElements(b, chroms)
    decreases |b|
  {
    if chroms.Some? {
      if |b| == 0 {
        assert a + b == a;
      } else {
        var init := b[..|b| - 1];
        assert (a + b)[..|a + b| - 1] == a + init;
        LoadElementsKeepsOrder(a, init, chroms);
      }
    }
  }

  // ---- set_epoch ----

  /** The row numbers `take_every(n, offset)` keeps: offset, offset + n, offset + 2n, ... */
  function Taken(len: nat, n: nat, offset: nat): seq<nat>
    requires n > 0
    decreases len - offset
  {
    if offset >= len then [] else [offset] + Taken(len, n, offset + n)
  }

  /** polars `take_every(n, offset)`: every n-th row, starting at row `offset`. */
  function TakeEvery<T>(s: seq<T>, n: nat, offset: nat): (r: seq<T>)
    requires n > 0
    decreases |s| - offset
  {
    if offset >= |s| then [] else [s[offset]] + TakeEvery(s, n, offset + n)
  }

  lemma {:induction false} TakeEveryTaken<T>(s: seq<T>, n: nat, offset: nat)
    requires n > 0
    ensures |TakeEvery(s, n, offset)| == |Taken(|s|, n, offset)|
    ensures forall j :: 0 <= j < |Taken(|s|, n, offset)| ==>
      Taken(|s|, n, offset)[j] < |s| && TakeEvery(s, n, offset)[j] == s[Taken(|s|, n, offset)[j]]
    decreases |s| - offset
  {
    if offset < |s| {
      var t, e := Taken(|s|, n, offset + n), TakeEvery(s, n, offset + n);
      TakeEveryTaken(s, n, offset + n);
      assert Taken(|s|, n, offset) == [offset] + t;
      assert TakeEvery(s, n, offset) == [s[offset]] + e;
      forall j | 0 < j <= |t|
        ensures ([offset] + t)[j] < |s| && ([s[offset]] + e)[j] == s[([offset] + t)[j]]
      {
        assert ([offset] + t)[j] == t[j - 1] && ([s[offset]] + e)[j] == e[j - 1];
      }
    }
  }

  /** Row i is taken when it lies past the offset by a multiple of n. */
  lemma {:induction false} TakenExactly(len: nat, n: nat, offset: nat, i: nat)
    requires n > 0
    ensures i in Taken(len, n, offset) <==> offset <= i < len && (i - offset) % n == 0
    decreases len - offset
  {
    if offset < len {
      assert Taken(len, n, offset) == [offset] + Taken(len, n, offset + n);
      TakenExactly(len, n, offset + n, i);
      if i >= offset + n {
        Arith.ModSub(i - offset, n);
        assert i - (offset + n) == (i - offset) - n;
      } else if offset <= i {
        Arith.ModSmall(i - offset, n);
      }
    }
  }

  /** In epoch e the downsampled table holds exactly the rows whose number is e modulo n. */
  lemma DownsampledRows(len: nat, n: nat, epoch: nat, i: nat)
    requires n > 0
    ensures i in Taken(len, n, epoch % n) <==> i < len && i % n == epoch % n
  {
    var o := epoch % n;
    TakenExactly(len, n, o, i);
    if o <= i {
      Arith.ModOffset(i, o, n);
    } else {
      Arith.ModAtMost(i, n);
    }
  }

  /** Over n consecutive epochs every row is taken in exactly one of them. */
  lemma EpochsPartitionRows(len: nat, n: nat, e0: nat, i: nat)
    requires n > 0 && i < len
    ensures exists e :: e0 <= e < e0 + n && i in Taken(len, n, e % n)
    ensures forall e1, e2 ::
      (e0 <= e1 < e0 + n && e0 <= e2 < e0 + n && i in Taken(len, n, e1 % n) && i in Taken(len, n, e2 % n)) ==> e1 == e2
  {
    var e := Arith.ResidueInWindow(e0, n, i % n);
    Arith.ModSmall(i % n, n);
    DownsampledRows(len, n, e, i);
    forall e1, e2 | e0 <= e1 < e0 + n && e0 <= e2 < e0 + n &&
      i in Taken(len, n, e1 % n) && i in Taken(len, n, e2 % n)
      ensures e1 == e2
    {
      DownsampledRows(len, n, e1, i);
      DownsampledRows(len, n, e2, i);
      if e1 <= e2 {
        Arith.CloseSameResidue(e1, e2, n);
      } else {
        Arith.CloseSameResidue(e2, e1, n);
      }
    }
  }

  // ---- __getitem__ ----

  function Max(x: int, y: int): int { if x >= y then x else y }
  function Min(x: int, y: int): int { if x <= y then x else y }

  /** What the FASTA reader gives for `fa[chrom][max(0, start):end]`: its clipped bounds and one-hot rows. */
  datatype Fetched = Fetched(startAdj: int, endAdj: int, oneHot: seq<seq<int>>)

  /** The reader's bounds lie inside the requested window and there is one 4-wide row per base. */
  predicate FastaFits(e: Element, f: Fetched)
  {
    Max(0, e.start) <= f.startAdj <= f.endAdj <= e.end &&
    |f.oneHot| == f.endAdj - f.startAdj &&
    forall k :: 0 <= k < |f.oneHot| ==> |f.oneHot[k]| == 4
  }

  /** The output window [start + crop, end - crop) is not empty-negative, and the overlap read from the BigWig has one value per base. */
  predicate BigWigFits(e: Element, crop: nat, f: Fetched, track: seq<real>)
  {
    e.start + crop <= e.end - crop &&
    Max(e.start + crop, f.startAdj) <= Min(e.end - crop, f.endAdj) &&
    |track| == Min(e.end - crop, f.endAdj) - Max(e.start + crop, f.startAdj)
  }

  /**
   * pyfaidx clips `fa[chrom][max(0, start):end]` to the chromosome: a read with those
   * bounds meets `FastaFits`, so the bases land in rows [a, b) of the buffer with
   * 0 <= a <= b <= end - start.
   */
  lemma ChromosomeClipFits(e: Element, chromLen: nat, oneHot: seq<seq<int>>)
    requires Max(0, e.start) <= Min(e.end, chromLen)
    requires |oneHot| == Min(e.end, chromLen) - Max(0, e.start)
    requires forall k :: 0 <= k < |oneHot| ==> |oneHot[k]| == 4
    ensures FastaFits(e, Fetched(Max(0, e.start), Min(e.end, chromLen), oneHot))
    ensures var a, b := Max(0, e.start) - e.start, Min(e.end, chromLen) - e.start;
      0 <= a <= b <= e.end - e.start
  {
  }

  /** Rows [a, b) of buf get rows, every other entry is left alone. */
  method FillRows(buf: array2<int>, a: nat, b: nat, rows: seq<seq<int>>)
    requires a <= b <= buf.Length0 && buf.Length1 == 4 && |rows| == b - a
    requires forall k :: 0 <= k < |rows| ==> |rows[k]| == 4
    modifies buf
    ensures forall r, c :: 0 <= r < buf.Length0 && 0 <= c < 4 ==>
      buf[r, c] == if a <= r < b then rows[r - a][c] else old(buf[r, c])
  {
    var r := a;
    while r < b
      invariant a <= r <= b
      invariant forall r', c :: 0 <= r' < buf.Length0 && 0 <= c < 4 ==>
        buf[r', c] == if a <= r' < r then rows[r' - a][c] else old(buf[r', c])
    {
      var c := 0;
      while c < 4
        invariant 0 <= c <= 4
        invariant forall r', c' :: 0 <= r' < buf.Length0 && 0 <= c' < 4 ==>
          buf[r', c'] == if a <= r' < r || (r' == r && c' < c) then rows[r' - a][c'] else old(buf[r', c'])
      {
        buf[r, c] := rows[r - a][c];
        c := c + 1;
      }
      r := r + 1;
    }
  }

  /** Entries [c, d) of sig get vals, every other entry is left alone. */
  method FillRange(sig: array<real>, c: nat, d: nat, vals: seq<real>)
    requires c <= d <= sig.Length && |vals| == d - c
    modifies sig
    ensures forall p :: 0 <= p < sig.Length ==> sig[p] == if c <= p < d then vals[p - c] else old(sig[p])
  {
    var p := c;
    while p < d
      invariant c <= p <= d
      invariant forall q :: 0 <= q < sig.Length ==> sig[q] == if c <= q < p then vals[q - c] else old(sig[q])
    {
      sig[p] := vals[p - c];
      p := p + 1;
    }
  }

  class ChromatinDataset {
    const elementsAll: seq<Element>
    const crop: nat
    const downsampleRatio: Option<nat>
    /** `elements_df`: set at construction without downsampling, otherwise by `SetEpoch`. */
    var elements: Option<seq<Element>>

    constructor (elementsAll: seq<Element>, crop: nat, downsampleRatio: Option<nat>)
      ensures this.elementsAll == elementsAll && this.crop == crop && this.downsampleRatio == downsampleRatio
      ensures elements == if downsampleRatio.None? then Some(elementsAll) else None
    {
      this.elementsAll := elementsAll;
      this.crop := crop;
      this.downsampleRatio := downsampleRatio;
      elements := if downsampleRatio.None? then Some(elementsAll) else None;
    }

    /**
     * `set_epoch`: nothing without a ratio, otherwise the rows congruent to the
     * epoch. A ratio of 0 raises ZeroDivisionError in `epoch % 0` before anything
     * is assigned: ok is false and the elements stay as they were.
     */
    method SetEpoch(epoch: nat) returns (ok: bool)
      modifies this
      ensures ok <==> downsampleRatio != Some(0)
      ensures !ok || downsampleRatio.None? ==> elements == old(elements)
      ensures ok && downsampleRatio.Some? ==>
        elements == Some(TakeEvery(elementsAll, downsampleRatio.value, epoch % downsampleRatio.value))
    {
      if downsampleRatio.None? {
        return true;
      }
      if downsampleRatio.value == 0 {
        return false;
      }
      var offset := epoch % downsampleRatio.value;
      elements := Some(TakeEvery(elementsAll, downsampleRatio.value, offset));
      ok := true;
    }

    /**
     * `__getitem__`: a zero buffer of end - start one-hot rows holding the fetched
     * bases at their genome positions, and a zero signal over the cropped window
     * holding the track where the window overlaps the fetched range.
     */
    method GetItem(idx: nat, fetched: Fetched, track: seq<real>) returns (seqBuf: array2<int>, signal: array<real>)
      requires elements.Some? && idx < |elements.value|
      requires elements.value[idx].start <= elements.value[idx].end
      requires FastaFits(elements.value[idx], fetched)
      requires BigWigFits(elements.value[idx], crop, fetched, track)
      ensures fresh(seqBuf) && fresh(signal)
      ensures var e := elements.value[idx];
        seqBuf.Length0 == e.end - e.start && seqBuf.Length1 == 4 &&
        forall r, k :: 0 <= r < seqBuf.Length0 && 0 <= k < 4 ==>
          seqBuf[r, k] == if fetched.startAdj <= e.start + r < fetched.endAdj
                          then fetched.oneHot[e.start + r - fetched.startAdj][k] else 0
      ensures var e := elements.value[idx];
        var lo := Max(e.start + crop, fetched.startAdj);
        signal.Length == e.end - e.start - 2 * crop &&
        forall p :: 0 <= p < signal.Length ==>
          signal[p] == if lo <= e.start + crop + p < Min(e.end - crop, fetched.endAdj)
                       then track[e.start + crop + p - lo] else 0.0
    {
      var e := elements.value[idx];
      var start, end := e.start, e.end;
      seqBuf := new int[end - start, 4]((_, _) => 0);
      var startAdj, endAdj := fetched.startAdj, fetched.endAdj;
      var a := startAdj - start;
      var b := endAdj - start;
      FillRows(seqBuf, a, b, fetched.oneHot);

      var outStart := start + crop;
      var outEnd := end - crop;
      var outStartAdj := Max(outStart, startAdj);
      var outEndAdj := Min(outEnd, endAdj);
      var c := outStartAdj - outStart;
      var d := outEndAdj - outStart;
      signal := new real[outEnd - outStart](_ => 0.0);
      FillRange(signal, c, d, track);
    }
  }

  // ---- counts_spearman ranks ----

  /** p lists 0 .. |p| - 1, each once. */
  predicate IsPermutation(p: seq<nat>)
  {
    (forall j :: 0 <= j < |p| ==> p[j] < |p|) &&
    (forall i :: 0 <= i < |p| ==> i in p) &&
    (forall j, k :: 0 <= j < k < |p| ==> p[j] != p[k])
  }

  /** The first `argsort()`: a permutation listing the positions of v in ascending order. */
  predicate SortsValues(v: seq<real>, order: seq<nat>)
  {
    |order| == |v| && IsPermutation(order) &&
    forall j, k :: 0 <= j < k < |order| ==> v[order[j]] <= v[order[k]]
  }

  /** The first position of x in p, or |p| when it is absent. */
  function IndexOf(p: seq<nat>, x: nat): (j: nat)
    ensures j <= |p| && (j < |p| ==> p[j] == x) && (x in p ==> j < |p|)
    ensures forall k :: 0 <= k < j ==> p[k] != x
  {
    if |p| == 0 then 0 else if p[0] == x then 0 else 1 + IndexOf(p[1..], x)
  }

  /** The second `argsort()`: on a permutation, the position of each value in it. */
  function Ranks(order: seq<nat>): (r: seq<nat>)
    ensures |r| == |order|
  {
    seq(|order|, i requires 0 <= i => IndexOf(order, i))
  }

  /** The ranks invert the order: they are a permutation with rank[order[j]] == j. */
  lemma RanksInvertOrder(order: seq<nat>)
    requires IsPermutation(order)
    ensures forall j :: 0 <= j < |order| ==> Ranks(order)[order[j]] == j
    ensures forall i :: 0 <= i < |order| ==> order[Ranks(order)[i]] == i
    ensures IsPermutation(Ranks(order))
  {
    var r := Ranks(order);
    forall j | 0 <= j < |order|
      ensures r[order[j]] == j
    {
      assert IndexOf(order, order[j]) <= j;
    }
    forall i | 0 <= i < |r|
      ensures i in r
    {
      assert r[order[i]] == i;
    }
  }

  /** Smaller values get smaller ranks; for distinct values the converse holds too. */
  lemma RanksFollowValues(v: seq<real>, order: seq<nat>, i: nat, i': nat)
    requires SortsValues(v, order) && i < |v| && i' < |v|
    ensures v[i] < v[i'] ==> Ranks(order)[i] < Ranks(order)[i']
    ensures Ranks(order)[i] < Ranks(order)[i'] ==> v[i] <= v[i']
    ensures v[i] != v[i'] ==> (Ranks(order)[i] < Ranks(order)[i'] <==> v[i] < v[i'])
  {
    RanksInvertOrder(order);
    var j, j' := Ranks(order)[i], Ranks(order)[i'];
    assert order[j] == i && order[j'] == i';
    if j' < j {
      assert v[order[j']] <= v[order[j]];
    }
    if j < j' {
      assert v[order[j]] <= v[order[j']];
    }
  }

  // ---- the training loop ----

  /** Which part of a batch a backward pass covers: all of it, or one half after an out-of-memory error. */
  datatype Part = Whole | FirstHalf | SecondHalf

  datatype Event = Backward(batch: nat, part: Part) | Step

  /**
   * What memory allows for one batch: the whole batch fits, or after an out-of-memory
   * error both halves fit, or the first or the second half runs out of memory too.
   * The halves run outside the `try`, so an error there leaves the loop.
   */
  datatype Outcome = Fits | SplitFits | FirstHalfOom | SecondHalfOom

  predicate Survives(o: Outcome)
  {
    o.Fits? || o.SplitFits?
  }

  /** The parts of a batch whose backward pass completes. */
  function Parts(o: Outcome): seq<Part>
  {
    match o
    case Fits => [Whole]
    case SplitFits => [FirstHalf, SecondHalf]
    case FirstHalfOom => []
    case SecondHalfOom => [FirstHalf]
  }

  function StepAfter(i: nat, accumulate: nat): seq<Event>
    requires accumulate > 0
  {
    if (i + 1) % accumulate == 0 then [Step] else []
  }

  /** The backward passes of iteration i that complete. */
  function Passes(i: nat, o: Outcome): seq<Event>
  {
    match o
    case Fits => [Backward(i, Whole)]
    case SplitFits => [Backward(i, FirstHalf), Backward(i, SecondHalf)]
    case FirstHalfOom => []
    case SecondHalfOom => [Backward(i, FirstHalf)]
  }

  /** The events of iteration i: its completed backward passes, then, for a batch that survives, a step every accumulate-th batch. */
  function BatchEvents(i: nat, o: Outcome, accumulate: nat): seq<Event>
    requires accumulate > 0
  {
    Passes(i, o) + (if Survives(o) then StepAfter(i, accumulate) else [])
  }

  /** The events of the loop body over batches 0 .. |outs| - 1, one after the other. */
  function LoopEvents(outs: seq<Outcome>, accumulate: nat): seq<Event>
    requires accumulate > 0
  {
    if |outs| == 0 then []
    else LoopEvents(outs[..|outs| - 1], accumulate) + BatchEvents(|outs| - 1, outs[|outs| - 1], accumulate)
  }

  /** The number of batches before the first one that fails (all of them when none fails). */
  function Survived(outs: seq<Outcome>): (r: nat)
    ensures r <= |outs|
    ensures forall j :: 0 <= j < r ==> Survives(outs[j])
    ensures r < |outs| ==> !Survives(outs[r])
  {
    if |outs| == 0 || !Survives(outs[0]) then 0 else 1 + Survived(outs[1..])
  }

  /** The batches the loop reaches: all of them, or those up to and including the first that fails. */
  function Reached(outs: seq<Outcome>): (r: nat)
    ensures r <= |outs|
  {
    if Survived(outs) == |outs| then |outs| else Survived(outs) + 1
  }

  /** One epoch's events: the loop's, then the final step only when no batch failed. */
  function EpochEvents(outs: seq<Outcome>, accumulate: nat): seq<Event>
    requires accumulate > 0
  {
    LoopEvents(outs[..Reached(outs)], accumulate) + (if Survived(outs) == |outs| then [Step] else [])
  }

  lemma LoopEventsSnoc(outs: seq<Outcome>, i: nat, accumulate: nat)
    requires accumulate > 0 && i < |outs|
    ensures LoopEvents(outs[..i + 1], accumulate) == LoopEvents(outs[..i], accumulate) + BatchEvents(i, outs[i], accumulate)
  {
    assert outs[..i + 1][..i] == outs[..i];
  }

  lemma SurvivesStep(outs: seq<Outcome>, i: nat)
    requires i < |outs| && Survives(outs[i])
    requires forall j :: 0 <= j < i ==> Survives(outs[j])
    ensures forall j :: 0 <= j < i + 1 ==> Survives(outs[j])
  {
  }

  /** When batch i is the first to fail, the epoch's events end with that batch's completed passes. */
  lemma FailsAt(outs: seq<Outcome>, i: nat, accumulate: nat)
    requires accumulate > 0 && i < |outs| && !Survives(outs[i])
    requires forall j :: 0 <= j < i ==> Survives(outs[j])
    ensures EpochEvents(outs, accumulate) == LoopEvents(outs[..i], accumulate) + BatchEvents(i, outs[i], accumulate)
  {
    assert Survived(outs) == i;
    LoopEventsSnoc(outs, i, accumulate);
  }

  /** When every batch survives, the epoch's events are the loop's and the final step. */
  lemma AllSurvive(outs: seq<Outcome>, accumulate: nat)
    requires accumulate > 0
    requires forall j :: 0 <= j < |outs| ==> Survives(outs[j])
    ensures EpochEvents(outs, accumulate) == LoopEvents(outs, accumulate) + [Step]
  {
    assert Survived(outs) == |outs|;
    assert outs[..|outs|] == outs;
  }

  /**
   * One iteration of the loop: the whole batch's backward pass, or after an
   * out-of-memory error the first and then the second half's, and the step every
   * `accumulate`-th batch. survived is false when a half runs out of memory too,
   * and when accumulate is 0: `(i + 1) % 0` raises ZeroDivisionError after the
   * backward passes (the loss divided by 0 is inf and raises nothing).
   */
  method TrainBatch(i: nat, o: Outcome, accumulate: nat) returns (events: seq<Event>, survived: bool)
    ensures survived == (Survives(o) && accumulate > 0)
    ensures accumulate > 0 ==> events == BatchEvents(i, o, accumulate)
    ensures accumulate == 0 ==> events == Passes(i, o)
  {
    if o.Fits? {
      events := [Backward(i, Whole)];
    } else {
      if o.FirstHalfOom? {
        return [], false;
      }
      events := [Backward(i, FirstHalf)];
      if o.SecondHalfOom? {
        return events, false;
      }
      events := events + [Backward(i, SecondHalf)];
    }
    if accumulate == 0 {
      return events, false;
    }
    if (i + 1) % accumulate == 0 {
      events := events + [Step];
    }
    survived := true;
  }

  /**
   * One epoch of `train_finetuned_chromatin_model`: the loop over the batches, and
   * one more step after it. A half that runs out of memory ends the epoch at once,
   * without the final step. With accumulate 0 an epoch without batches completes
   * with its final step, and otherwise ends after batch 0's backward passes.
   */
  method TrainEpoch(outcomes: seq<Outcome>, accumulate: nat) returns (trace: seq<Event>, completed: bool)
    ensures accumulate > 0 ==> (completed <==> forall j :: 0 <= j < |outcomes| ==> Survives(outcomes[j]))
    ensures accumulate > 0 ==> trace == EpochEvents(outcomes, accumulate)
    ensures accumulate == 0 ==> (completed <==> |outcomes| == 0)
    ensures accumulate == 0 ==> trace == if |outcomes| == 0 then [Step] else Passes(0, outcomes[0])
  {
    if accumulate == 0 {
      if |outcomes| == 0 {
        return [Step], true;
      }
      var events, _ := TrainBatch(0, outcomes[0], accumulate);
      return events, false;
    }
    trace := [];
    var i := 0;
    while i < |outcomes|
      invariant 0 <= i <= |outcomes|
      invariant forall j :: 0 <= j < i ==> Survives(outcomes[j])
      invariant trace == LoopEvents(outcomes[..i], accumulate)
    {
      LoopEventsSnoc(outcomes, i, accumulate);
      var events, survived := TrainBatch(i, outcomes[i], accumulate);
      trace := trace + events;
      if !survived {
        FailsAt(outcomes, i, accumulate);
        return trace, false;
      }
      SurvivesStep(outcomes, i);
      i := i + 1;
    }
    AllSurvive(outcomes, accumulate);
    assert outcomes[..i] == outcomes;
    trace := trace + [Step];
    completed := true;
  }

  function Steps(trace: seq<Event>): nat
  {
    if |trace| == 0 then 0 else Steps(trace[..|trace| - 1]) + (if trace[|trace| - 1].Step? then 1 else 0)
  }

  lemma {:induction false} StepsAppend(a: seq<Event>, b: seq<Event>)
    ensures Steps(a + b) == Steps(a) + Steps(b)
    decreases |b|
  {
    if |b| > 0 {
      assert (a + b)[..|a + b| - 1] == a + b[..|b| - 1];
      StepsAppend(a, b[..|b| - 1]);
    } else {
      assert a + b == a;
    }
  }

  lemma BatchSteps(i: nat, o: Outcome, accumulate: nat)
    requires accumulate > 0
    ensures Steps(BatchEvents(i, o, accumulate)) == if Survives(o) && (i + 1) % accumulate == 0 then 1 else 0
  {
    var st := StepAfter(i, accumulate);
    assert [Step][..0] == [];
    match o {
      case Fits =>
        StepsAppend([Backward(i, Whole)], st);
        assert [Backward(i, Whole)][..0] == [];
      case SplitFits =>
        StepsAppend([Backward(i, FirstHalf), Backward(i, SecondHalf)], st);
        assert [Backward(i, FirstHalf), Backward(i, SecondHalf)][..1] == [Backward(i, FirstHalf)];
        assert [Backward(i, FirstHalf)][..0] == [];
      case FirstHalfOom =>
      case SecondHalfOom =>
        assert [Backward(i, FirstHalf)][..0] == [];
    }
  }

  lemma PrefixSurvives(outs: seq<Outcome>, i: nat)
    requires i <= |outs|
    requires forall j :: 0 <= j < |outs| ==> Survives(outs[j])
    ensures forall j :: 0 <= j < i ==> Survives(outs[..i][j])
  {
  }

  /** After k batches that all survive the optimizer has stepped k / accumulate times. */
  lemma {:induction false} StepsSoFar(outs: seq<Outcome>, accumulate: nat)
    requires accumulate > 0
    requires forall j :: 0 <= j < |outs| ==> Survives(outs[j])
    ensures Steps(LoopEvents(outs, accumulate)) == |outs| / accumulate
    decreases |outs|
  {
    if |outs| > 0 {
      var i := |outs| - 1;
      var init, last := outs[..i], outs[i];
      PrefixSurvives(outs, i);
      StepsSoFar(init, accumulate);
      var a, b := LoopEvents(init, accumulate), BatchEvents(i, last, accumulate);
      assert LoopEvents(outs, accumulate) == a + b;
      StepsAppend(a, b);
      BatchSteps(i, last, accumulate);
      assert Survives(last);
      Arith.DivStep(i, accumulate);
    }
  }

  lemma CompletedSteps(outs: seq<Outcome>, accumulate: nat)
    requires accumulate > 0
    requires forall j :: 0 <= j < |outs| ==> Survives(outs[j])
    ensures Steps(EpochEvents(outs, accumulate)) == |outs| / accumulate + 1
  {
    AllSurvive(outs, accumulate);
    StepsSoFar(outs, accumulate);
    StepsAppend(LoopEvents(outs, accumulate), [Step]);
    assert [Step][..0] == [];
  }

  lemma FailedSteps(outs: seq<Outcome>, accumulate: nat)
    requires accumulate > 0 && Survived(outs) < |outs|
    ensures Steps(EpochEvents(outs, accumulate)) == Survived(outs) / accumulate
  {
    var r := Survived(outs);
    FailsAt(outs, r, accumulate);
    StepsSoFar(outs[..r], accumulate);
    StepsAppend(LoopEvents(outs[..r], accumulate), BatchEvents(r, outs[r], accumulate));
    BatchSteps(r, outs[r], accumulate);
  }

  /** A completed epoch of n batches, n a positive multiple of accumulate, ends in two adjacent steps. */
  lemma AdjacentFinalSteps(outs: seq<Outcome>, accumulate: nat)
    requires accumulate > 0 && |outs| > 0 && |outs| % accumulate == 0
    requires forall j :: 0 <= j < |outs| ==> Survives(outs[j])
    ensures var t := EpochEvents(outs, accumulate);
      |t| >= 2 && t[|t| - 2] == Step && t[|t| - 1] == Step
  {
    var i := |outs| - 1;
    AllSurvive(outs, accumulate);
    assert outs[..i + 1] == outs;
    LoopEventsSnoc(outs, i, accumulate);
    assert Survives(outs[i]) && StepAfter(i, accumulate) == [Step];
  }

  /**
   * An epoch whose k leading batches survive steps k / accumulate times, plus the
   * final step when no batch failed; with n a positive multiple of accumulate, a
   * completed epoch ends in two adjacent steps.
   */
  lemma EpochSteps(outs: seq<Outcome>, accumulate: nat)
    requires accumulate > 0
    ensures Steps(EpochEvents(outs, accumulate)) ==
      Survived(outs) / accumulate + (if Survived(outs) == |outs| then 1 else 0)
    ensures Survived(outs) == |outs| > 0 && |outs| % accumulate == 0 ==>
      var t := EpochEvents(outs, accumulate);
      |t| >= 2 && t[|t| - 2] == Step && t[|t| - 1] == Step
  {
    if Survived(outs) == |outs| {
      CompletedSteps(outs, accumulate);
      if |outs| > 0 && |outs| % accumulate == 0 {
        AdjacentFinalSteps(outs, accumulate);
      }
    } else {
      FailedSteps(outs, accumulate);
    }
  }

  /** The backward passes of batch j in a trace, in order. */
  function PartsOf(trace: seq<Event>, j: nat): seq<Part>
  {
    if |trace| == 0 then []
    else
      var e := trace[|trace| - 1];
      PartsOf(trace[..|trace| - 1], j) + (if e.Backward? && e.batch == j then [e.part] else [])
  }

  lemma {:induction false} PartsAppend(a: seq<Event>, b: seq<Event>, j: nat)
    ensures PartsOf(a + b, j) == PartsOf(a, j) + PartsOf(b, j)
    decreases |b|
  {
    if |b| > 0 {
      assert (a + b)[..|a + b| - 1] == a + b[..|b| - 1];
      PartsAppend(a, b[..|b| - 1], j);
    } else {
      assert a + b == a;
    }
  }

  lemma BatchParts(i: nat, o: Outcome, accumulate: nat, j: nat)
    requires accumulate > 0
    ensures PartsOf(BatchEvents(i, o, accumulate), j) == if i != j then [] else Parts(o)
  {
    var st := StepAfter(i, accumulate);
    assert PartsOf(st, j) == [] by { assert [Step][..0] == []; }
    assert [Backward(i, Whole)][..0] == [] && [Backward(i, FirstHalf)][..0] == [];
    match o {
      case Fits =>
        PartsAppend([Backward(i, Whole)], st, j);
      case SplitFits =>
        PartsAppend([Backward(i, FirstHalf), Backward(i, SecondHalf)], st, j);
        assert [Backward(i, FirstHalf), Backward(i, SecondHalf)][..1] == [Backward(i, FirstHalf)];
      case FirstHalfOom =>
      case SecondHalfOom =>
    }
  }

  lemma {:induction false} LoopParts(outs: seq<Outcome>, accumulate: nat, j: nat)
    requires accumulate > 0
    ensures PartsOf(LoopEvents(outs, accumulate), j) == if j >= |outs| then [] else Parts(outs[j])
    decreases |outs|
  {
    if |outs| > 0 {
      var i := |outs| - 1;
      LoopParts(outs[..i], accumulate, j);
      PartsAppend(LoopEvents(outs[..i], accumulate), BatchEvents(i, outs[i], accumulate), j);
      BatchParts(i, outs[i], accumulate, j);
    }
  }

  /**
   * Every batch the epoch reaches gets exactly one backward pass over the whole
   * batch, or one per half that completes after it ran out of memory; the batches
   * after a failed one get none.
   */
  lemma EachBatchOnce(outs: seq<Outcome>, accumulate: nat, j: nat)
    requires accumulate > 0
    ensures PartsOf(EpochEvents(outs, accumulate), j) ==
      if j < Reached(outs) then Parts(outs[j]) else []
  {
    var reached := outs[..Reached(outs)];
    var fin: seq<Event> := if Survived(outs) == |outs| then [Step] else [];
    LoopParts(reached, accumulate, j);
    PartsAppend(LoopEvents(reached, accumulate), fin, j);
    assert PartsOf(fin, j) == [] by { assert [Step][..0] == []; }
  }

  // ---- the out-of-memory split and its loss ----

  /** `split_ind = len(seq) // 2`: the two halves of a batch. */
  function SplitBatch<T>(b: seq<T>): (halves: (seq<T>, seq<T>))
    ensures halves.0 + halves.1 == b
    ensures |halves.0| == |b| / 2 && |halves.1| == |b| - |b| / 2
  {
    (b[..|b| / 2], b[|b| / 2..])
  }

  /** `log1pMSELoss` of a batch, from its per-sequence squared errors; None is the NaN of an empty mean. */
  function MeanLoss(errs: seq<real>): Option<real>
  {
    if |errs| == 0 then None else Some(Sum(errs) / |errs| as real)
  }

  function Scale(x: Option<real>, k: real): Option<real>
    requires k > 0.0
  {
    if x.None? then None else Some(x.value / k)
  }

  /** The loss whose gradient one batch contributes when it fits in memory. */
  function WholeLoss(errs: seq<real>, accumulate: nat): Option<real>
    requires accumulate > 0
  {
    Scale(MeanLoss(errs), accumulate as real)
  }

  /**
   * The loss whose gradient one half contributes as written: its mean loss over
   * 2 * accumulate. A half with no sequences has the NaN mean as its value, but its
   * backward pass runs over no sequence and adds no gradient.
   */
  function HalfLossAsWritten(h: seq<real>, accumulate: nat): real
    requires accumulate > 0
  {
    if |h| == 0 then 0.0 else (Sum(h) / |h| as real) / (2.0 * (accumulate as real))
  }

  /**
   * As written: one backward pass per half, so the two halves' gradients add up.
   * An empty batch, which the loader never yields, keeps the NaN of its mean.
   */
  function SplitLossAsWritten(errs: seq<real>, accumulate: nat): Option<real>
    requires accumulate > 0
  {
    var halves := SplitBatch(errs);
    if |errs| == 0 then None
    else Some(HalfLossAsWritten(halves.0, accumulate) + HalfLossAsWritten(halves.1, accumulate))
  }

  /** Corrected: each half's summed loss divided by the whole batch's size, then by accumulate. */
  function SplitLoss(errs: seq<real>, accumulate: nat): Option<real>
    requires accumulate > 0
  {
    var halves := SplitBatch(errs);
    var n := |errs| as real;
    if |errs| == 0 then None else Scale(Some(Sum(halves.0) / n + Sum(halves.1) / n), accumulate as real)
  }

  /** The corrected split contributes exactly the loss of the whole batch. */
  lemma SplitLossIsWholeLoss(errs: seq<real>, accumulate: nat)
    requires accumulate > 0
    ensures SplitLoss(errs, accumulate) == WholeLoss(errs, accumulate)
  {
    if |errs| > 0 {
      var h1, h2 := SplitBatch(errs).0, SplitBatch(errs).1;
      var n := |errs| as real;
      TotalConcat(h1, h2, Id);
      Arith.AddDiv(Sum(h1), Sum(h2), Sum(errs), n);
    }
  }

  /** As written, the split agrees with the whole batch when the batch size is even. */
  lemma SplitLossAsWrittenEven(errs: seq<real>, accumulate: nat)
    requires accumulate > 0 && |errs| > 0 && |errs| % 2 == 0
    ensures SplitLossAsWritten(errs, accumulate) == WholeLoss(errs, accumulate)
  {
    var h1, h2 := SplitBatch(errs).0, SplitBatch(errs).1;
    var m, k := |h1| as real, accumulate as real;
    TotalConcat(h1, h2, Id);
    assert |h2| == |h1| > 0;
    assert HalfLossAsWritten(h1, accumulate) == (Sum(h1) / m) / (2.0 * k);
    assert HalfLossAsWritten(h2, accumulate) == (Sum(h2) / m) / (2.0 * k);
    Arith.EvenHalves(Sum(h1), Sum(h2), Sum(errs), m, |errs| as real, k);
  }

  /**
   * As written, an odd batch is not weighted evenly: errors [0, 0, 3] give 0.75
   * instead of the whole batch's 1.0, and a batch of one sequence, whose first half
   * is empty, contributes half of its gradient.
   */
  lemma SplitLossAsWrittenOdd()
    ensures SplitLossAsWritten([0.0, 0.0, 3.0], 1) == Some(0.75)
    ensures WholeLoss([0.0, 0.0, 3.0], 1) == Some(1.0)
    ensures SplitLossAsWritten([1.0], 1) == Some(0.5) && WholeLoss([1.0], 1) == Some(1.0)
  {
    var e := [0.0, 0.0, 3.0];
    assert SplitBatch(e).0 == [0.0] && SplitBatch(e).1 == [0.0, 3.0];
    assert Sum([0.0]) == 0.0 by { assert [0.0][..0] == []; }
    assert Sum([0.0, 3.0]) == 3.0 by { assert [0.0, 3.0][..1] == [0.0]; assert [0.0][..0] == []; }
    assert Sum(e) == 3.0 by { assert e[..2] == [0.0, 0.0]; assert [0.0, 0.0][..1] == [0.0]; assert [0.0][..0] == []; }
    assert SplitBatch([1.0]).0 == [] && SplitBatch([1.0]).1 == [1.0];
    assert Sum([1.0]) == 1.0 by { assert [1.0][..0] == []; }
  }

  // ---- resuming ----

  /** `start_epoch`: the epoch after the checkpoint resumed from, or 0. */
  function StartEpoch(resumeFrom: Option<nat>): nat
  {
    if resumeFrom.Some? then resumeFrom.value + 1 else 0
  }

  /** `range(start_epoch, num_epochs)` */
  function EpochsRun(resumeFrom: Option<nat>, numEpochs: nat): (r: seq<nat>)
    ensures |r| == if StartEpoch(resumeFrom) <= numEpochs then numEpochs - StartEpoch(resumeFrom) else 0
  {
    var s := StartEpoch(resumeFrom);
    if s <= numEpochs then seq(numEpochs - s, k => s + k) else []
  }

  /** Resuming from the checkpoint of epoch k runs exactly the epochs a fresh run has left after k. */
  lemma ResumeContinues(k: nat, numEpochs: nat)
    requires k < numEpochs
    ensures EpochsRun(Some(k), numEpochs) == EpochsRun(None, numEpochs)[k + 1..]
    ensures forall e :: e in EpochsRun(Some(k), numEpochs) <==> k < e < numEpochs
  {
    var r := EpochsRun(Some(k), numEpochs);
    forall e | k < e < numEpochs
      ensures e in r
    {
      assert r[e - k - 1] == e;
    }
  }
}
