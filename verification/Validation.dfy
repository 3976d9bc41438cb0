/**
 Walk-forward folds for validating a model on dated deals
 (src/scoring/validation.py, `chronological_folds`). Dates are day numbers; the
 order that sorts them is an argument, since the library's sort is not stable.
 */
module Validation {

  datatype Fold = Fold(train: seq<int>, valid: seq<int>)

  /** A permutation of the indices that puts the dates in order. */
  ghost predicate Sorts(dates: seq<int>, order: seq<int>) {
    && |order| == |dates|
    && (forall p :: 0 <= p < |order| ==> 0 <= order[p] < |dates|)
    && (forall p, q :: 0 <= p < q < |order| ==> order[p] != order[q])
    && (forall p, q :: 0 <= p < q < |order| ==> dates[order[p]] <= dates[order[q]])
  }

  function Clamp(i: nat, n: nat): nat {
    if i <= n then i else n
  }

  /** `order[lo:hi]` for nonnegative bounds: bounds past the end are cut, crossed bounds give nothing. */
  function Slice(order: seq<int>, lo: nat, hi: nat): seq<int> {
    if Clamp(lo, |order|) <= Clamp(hi, |order|) then order[Clamp(lo, |order|)..Clamp(hi, |order|)] else []
  }

  function ChunkSize(n: nat, nSplits: nat): nat {
    if n / (nSplits + 1) >= 1 then n / (nSplits + 1) else 1
  }

  function ValidStart(n: nat, nSplits: nat, s: nat): nat {
    (s + 1) * ChunkSize(n, nSplits)
  }

  function ValidEnd(n: nat, nSplits: nat, s: nat): nat {
    if s + 1 < nSplits then (s + 2) * ChunkSize(n, nSplits) else n
  }

  function ValidChunk(order: seq<int>, nSplits: nat, s: nat): seq<int> {
    Slice(order, ValidStart(|order|, nSplits, s), ValidEnd(|order|, nSplits, s))
  }

  /**
   One part in `nSplits` + 1 of the positions, rounded down, and never under
   one; each chunk but the last is that long while positions are left, and the
   last one takes the rest.
   */
  lemma ChunkIs(order: seq<int>, nSplits: nat, s: nat)
    requires s < nSplits
    ensures
      var n, size := |order|, ChunkSize(|order|, nSplits);
      && (n >= nSplits + 1 ==> size * (nSplits + 1) <= n < size * (nSplits + 1) + nSplits + 1)
      && (n < nSplits + 1 ==> size == 1)
      && ValidStart(n, nSplits, s) == size + s * size
      && ValidEnd(n, nSplits, s) == if s < nSplits - 1 then size + s * size + size else n
  {
    ChunkSizeIs(|order|, nSplits);
    hide ChunkSize;
    ChunkEdges(|order|, nSplits, s, ChunkSize(|order|, nSplits));
  }

  lemma ChunkSizeIs(n: nat, nSplits: nat)
    ensures
      var size := ChunkSize(n, nSplits);
      && (n >= nSplits + 1 ==> size * (nSplits + 1) <= n < size * (nSplits + 1) + nSplits + 1)
      && (n < nSplits + 1 ==> size == 1)
  {
    var parts := nSplits + 1;
    var q := n / parts;
    assert q * parts <= n < q * parts + parts;
  }

  lemma ChunkEdges(n: nat, nSplits: nat, s: nat, size: nat)
    requires size == ChunkSize(n, nSplits)
    ensures ValidStart(n, nSplits, s) == size + s * size
    ensures ValidEnd(n, nSplits, s) == if s + 1 < nSplits then size + s * size + size else n
  {
    hide ChunkSize;
  }

  /** The indices of `indices` dated no later than `limit`, in order. */
  function DatedBy(dates: seq<int>, indices: seq<int>, limit: int): seq<int>
    requires forall p :: 0 <= p < |indices| ==> 0 <= indices[p] < |dates|
  {
    if indices == [] then []
    else
      DatedBy(dates, indices[..|indices| - 1], limit)
      + if dates[indices[|indices| - 1]] <= limit then [indices[|indices| - 1]] else []
  }

  function MinDate(dates: seq<int>, indices: seq<int>): int
    requires indices != []
    requires forall p :: 0 <= p < |indices| ==> 0 <= indices[p] < |dates|
  {
    var last := dates[indices[|indices| - 1]];
    if |indices| == 1 then last
    else
      var earlier := MinDate(dates, indices[..|indices| - 1]);
      if last < earlier then last else earlier
  }

  lemma SliceFacts(dates: seq<int>, order: seq<int>, lo: nat, hi: nat)
    requires Sorts(dates, order)
    ensures forall p :: 0 <= p < |Slice(order, lo, hi)| ==> lo + p < |order| && Slice(order, lo, hi)[p] == order[lo + p]
  {
    var a, b := Clamp(lo, |order|), Clamp(hi, |order|);
    if a < b {
      assert a == lo && Slice(order, lo, hi) == order[a..b];
      forall p | 0 <= p < |Slice(order, lo, hi)| ensures lo + p < |order| && Slice(order, lo, hi)[p] == order[lo + p] {
        assert order[a..b][p] == order[a + p];
      }
    } else {
      assert Slice(order, lo, hi) == [];
    }
  }

  /** Training and validation indices of one split, before the empty ones are dropped. */
  function SplitAt(dates: seq<int>, order: seq<int>, nSplits: nat, gapDays: int, s: nat): Fold
    requires forall p :: 0 <= p < |order| ==> 0 <= order[p] < |dates|
  {
    var valid := ValidChunk(order, nSplits, s);
    if valid == [] then Fold([], [])
    else
      Fold(DatedBy(dates, Slice(order, 0, ValidStart(|order|, nSplits, s)), MinDate(dates, valid) - gapDays), valid)
  }

  function Kept(f: Fold): bool {
    f.train != [] && f.valid != []
  }

  function FoldsUpTo(dates: seq<int>, order: seq<int>, nSplits: nat, gapDays: int, s: nat): seq<Fold>
    requires forall p :: 0 <= p < |order| ==> 0 <= order[p] < |dates|
  {
    if s == 0 then []
    else
      var f := SplitAt(dates, order, nSplits, gapDays, s - 1);
      FoldsUpTo(dates, order, nSplits, gapDays, s - 1) + if Kept(f) then [f] else []
  }

  // ----- tiling

  function ChunksUpTo(order: seq<int>, nSplits: nat, s: nat): seq<int> {
    if s == 0 then [] else ChunksUpTo(order, nSplits, s - 1) + ValidChunk(order, nSplits, s - 1)
  }

  lemma NextStart(n: nat, nSplits: nat, s: nat)
    ensures ValidStart(n, nSplits, s + 1) == (s + 2) * ChunkSize(n, nSplits)
    ensures ValidStart(n, nSplits, s) < ValidStart(n, nSplits, s + 1)
    ensures ValidStart(n, nSplits, 0) == ChunkSize(n, nSplits)
  {
  }

  lemma {:induction false} ChunksTileBefore(order: seq<int>, nSplits: nat, s: nat)
    requires s < nSplits
    ensures ChunksUpTo(order, nSplits, s) == Slice(order, ChunkSize(|order|, nSplits), ValidStart(|order|, nSplits, s))
  {
    hide ChunkSize, ValidStart;
    var n := |order|;
    NextStart(n, nSplits, 0);
    if s > 0 {
      ChunksTileBefore(order, nSplits, s - 1);
      NextStart(n, nSplits, s - 1);
      StartsRise(n, nSplits, 0, s - 1);
      SliceJoin(order, ChunkSize(n, nSplits), ValidStart(n, nSplits, s - 1), ValidStart(n, nSplits, s));
    }
  }

  lemma {:induction false} StartsRise(n: nat, nSplits: nat, s: nat, t: nat)
    requires s <= t
    ensures ValidStart(n, nSplits, s) <= ValidStart(n, nSplits, t)
  {
    hide ValidStart;
    if s < t {
      StartsRise(n, nSplits, s, t - 1);
      NextStart(n, nSplits, t - 1);
    }
  }

  lemma SliceJoin(order: seq<int>, a: nat, b: nat, c: nat)
    requires a <= b && (b <= c || c == |order|)
    ensures Slice(order, a, b) + Slice(order, b, c) == Slice(order, a, c)
  {
    var x, y, z := Clamp(a, |order|), Clamp(b, |order|), Clamp(c, |order|);
    assert Slice(order, a, b) == order[x..y];
    assert Slice(order, b, c) == order[y..z];
    assert order[x..y] + order[y..z] == order[x..z];
  }

  /**
   The validation chunks, before any fold is dropped, go through the deals from
   position chunk_size on in date order, each exactly once.
   */
  lemma ChunksTile(order: seq<int>, nSplits: nat)
    requires nSplits >= 1
    ensures ChunksUpTo(order, nSplits, nSplits) == Slice(order, ChunkSize(|order|, nSplits), |order|)
  {
    hide ChunkSize, ValidStart;
    var n := |order|;
    ChunksTileBefore(order, nSplits, nSplits - 1);
    NextStart(n, nSplits, 0);
    StartsRise(n, nSplits, 0, nSplits - 1);
    SliceJoin(order, ChunkSize(n, nSplits), ValidStart(n, nSplits, nSplits - 1), n);
  }

  // ----- no future data

  lemma {:induction false} DatedByFacts(dates: seq<int>, indices: seq<int>, limit: int, i: int)
    requires forall p :: 0 <= p < |indices| ==> 0 <= indices[p] < |dates|
    ensures i in DatedBy(dates, indices, limit) <==> i in indices && dates[i] <= limit
  {
    if indices != [] {
      DatedByFacts(dates, indices[..|indices| - 1], limit, i);
      assert indices == indices[..|indices| - 1] + [indices[|indices| - 1]];
    }
  }

  lemma {:induction false} MinDateFacts(dates: seq<int>, indices: seq<int>)
    requires indices != []
    requires forall p :: 0 <= p < |indices| ==> 0 <= indices[p] < |dates|
    ensures forall p :: 0 <= p < |indices| ==> MinDate(dates, indices) <= dates[indices[p]]
    ensures exists p :: 0 <= p < |indices| && MinDate(dates, indices) == dates[indices[p]]
  {
    if |indices| == 1 {
      assert MinDate(dates, indices) == dates[indices[0]];
    } else {
      MinDateFacts(dates, indices[..|indices| - 1]);
      assert forall p :: 0 <= p < |indices| - 1 ==> indices[..|indices| - 1][p] == indices[p];
    }
  }

  /** In date order the earliest date of a chunk is the date of its first position. */
  lemma ChunkMin(dates: seq<int>, order: seq<int>, nSplits: nat, s: nat)
    requires Sorts(dates, order) && ValidChunk(order, nSplits, s) != []
    ensures
      var start := ValidStart(|order|, nSplits, s);
      start < |order| && MinDate(dates, ValidChunk(order, nSplits, s)) == dates[order[start]]
  {
    hide ValidStart, ValidEnd;
    var start := ValidStart(|order|, nSplits, s);
    var chunk := ValidChunk(order, nSplits, s);
    SliceFacts(dates, order, start, ValidEnd(|order|, nSplits, s));
    MinDateFacts(dates, chunk);
    assert chunk[0] == order[start];
    var p :| 0 <= p < |chunk| && MinDate(dates, chunk) == dates[chunk[p]];
    assert chunk[p] == order[start + p];
  }

  /**
   No leak: whatever the gap, training indices lie strictly before the chunk in
   date order, and they are exactly those at least `gapDays` before every date
   of the chunk.
   */
  lemma NoFutureData(dates: seq<int>, order: seq<int>, nSplits: nat, gapDays: int, s: nat, p: nat)
    requires Sorts(dates, order) && ValidChunk(order, nSplits, s) != [] && p < |order|
    ensures
      var f, start := SplitAt(dates, order, nSplits, gapDays, s), ValidStart(|order|, nSplits, s);
      && (order[p] in f.train <==> p < start && forall j :: j in f.valid ==>
          0 <= j < |dates| && dates[order[p]] + gapDays <= dates[j])
      && (order[p] in f.train ==> order[p] !in f.valid)
  {
    hide ValidStart, ValidEnd, DatedBy, MinDate, Slice;
    var start := ValidStart(|order|, nSplits, s);
    var chunk := ValidChunk(order, nSplits, s);
    var head := Slice(order, 0, start);
    ChunkMin(dates, order, nSplits, s);
    SliceFacts(dates, order, start, ValidEnd(|order|, nSplits, s));
    SliceFacts(dates, order, 0, start);
    DatedByFacts(dates, head, MinDate(dates, chunk) - gapDays, order[p]);
    MinDateFacts(dates, chunk);
    InHead(dates, order, start, p);
    assert chunk[0] in chunk;
    if order[p] in chunk {
      var q :| 0 <= q < |chunk| && chunk[q] == order[p];
      assert order[start + q] == order[p];
    }
  }

  lemma InHead(dates: seq<int>, order: seq<int>, start: nat, p: nat)
    requires Sorts(dates, order) && start < |order| && p < |order|
    ensures order[p] in Slice(order, 0, start) <==> p < start
  {
    var head := Slice(order, 0, start);
    if p < start {
      assert head[p] == order[p];
    }
    if order[p] in head {
      var q :| 0 <= q < |head| && head[q] == order[p];
      assert order[q] == order[p];
    }
  }

  // ----- nesting

  lemma DatedBySnoc(dates: seq<int>, order: seq<int>, m: nat, limit: int)
    requires Sorts(dates, order) && 0 < m <= |order|
    ensures DatedBy(dates, order[..m], limit) ==
            DatedBy(dates, order[..m - 1], limit) + if dates[order[m - 1]] <= limit then [order[m - 1]] else []
  {
    assert order[..m][..m - 1] == order[..m - 1];
  }

  lemma InRange(dates: seq<int>, order: seq<int>)
    requires Sorts(dates, order)
    ensures |order| == |dates| && forall p :: 0 <= p < |order| ==> 0 <= order[p] < |dates|
  {
  }

  lemma DatedByNothing(dates: seq<int>, limit: int)
    ensures DatedBy(dates, [], limit) == []
  {
  }

  /** What is dated by a limit, in date order, is a first part. */
  lemma {:induction false} DatedByIsPrefix(dates: seq<int>, order: seq<int>, m: nat, limit: int) returns (k: nat)
    requires Sorts(dates, order) && m <= |order|
    ensures k <= m && DatedBy(dates, order[..m], limit) == order[..k]
    ensures forall p :: 0 <= p < m ==> (p < k <==> dates[order[p]] <= limit)
  {
    InRange(dates, order);
    hide DatedBy, Sorts;
    if m == 0 {
      DatedByNothing(dates, limit);
      assert order[..0] == [];
      k := 0;
    } else {
      k := DatedByIsPrefix(dates, order, m - 1, limit);
      DatedBySnoc(dates, order, m, limit);
      if dates[order[m - 1]] <= limit {
        DatedByAll(dates, order, m - 1, k, limit);
        assert order[..m - 1] + [order[m - 1]] == order[..m];
        k := m;
      } else {
        assert order[..k] + [] == order[..k];
      }
    }
  }

  /** Nothing after a late date is early: if the next date is within the limit, so are all before it. */
  lemma DatedByAll(dates: seq<int>, order: seq<int>, m: nat, k: nat, limit: int)
    requires Sorts(dates, order) && k <= m < |order| && dates[order[m]] <= limit
    requires forall p :: 0 <= p < m ==> (p < k <==> dates[order[p]] <= limit)
    ensures k == m
    ensures forall p :: 0 <= p < m + 1 ==> dates[order[p]] <= limit
  {
    assert forall p :: 0 <= p < m ==> dates[order[p]] <= dates[order[m]];
    if m > 0 {
      assert dates[order[m - 1]] <= limit;
    }
  }

  lemma PrefixLengths(dates: seq<int>, order: seq<int>, a: nat, b: nat, k: nat, l: nat, limit: int, limit': int)
    requires Sorts(dates, order) && a <= b <= |order| && k <= a && l <= b && limit <= limit'
    requires forall p :: 0 <= p < a ==> (p < k <==> dates[order[p]] <= limit)
    requires forall p :: 0 <= p < b ==> (p < l <==> dates[order[p]] <= limit')
    ensures k <= l
  {
    if k > 0 {
      assert dates[order[k - 1]] <= limit;
    }
  }

  /** Later splits train on everything earlier splits trained on, in the same order, and more. */
  lemma TrainingGrows(dates: seq<int>, order: seq<int>, nSplits: nat, gapDays: int, s: nat, t: nat)
    requires Sorts(dates, order) && s <= t
    requires ValidChunk(order, nSplits, s) != [] && ValidChunk(order, nSplits, t) != []
    ensures SplitAt(dates, order, nSplits, gapDays, s).train <= SplitAt(dates, order, nSplits, gapDays, t).train
  {
    hide SplitAt, ValidStart, ValidChunk, DatedBy;
    var a, b := ValidStart(|order|, nSplits, s), ValidStart(|order|, nSplits, t);
    StartsRise(|order|, nSplits, s, t);
    TrainingIs(dates, order, nSplits, gapDays, s);
    TrainingIs(dates, order, nSplits, gapDays, t);
    assert dates[order[a]] <= dates[order[b]];
    var k := DatedByIsPrefix(dates, order, a, dates[order[a]] - gapDays);
    var l := DatedByIsPrefix(dates, order, b, dates[order[b]] - gapDays);
    PrefixLengths(dates, order, a, b, k, l, dates[order[a]] - gapDays, dates[order[b]] - gapDays);
  }

  lemma TrainingIs(dates: seq<int>, order: seq<int>, nSplits: nat, gapDays: int, s: nat)
    requires Sorts(dates, order) && ValidChunk(order, nSplits, s) != []
    ensures
      var start := ValidStart(|order|, nSplits, s);
      && start < |order|
      && SplitAt(dates, order, nSplits, gapDays, s).train ==
         DatedBy(dates, order[..start], dates[order[start]] - gapDays)
  {
    hide ValidStart, ValidChunk, DatedBy, MinDate;
    ChunkMin(dates, order, nSplits, s);
    var start := ValidStart(|order|, nSplits, s);
    assert Slice(order, 0, start) == order[..start];
  }

  lemma {:induction false} FoldOrigin(dates: seq<int>, order: seq<int>, nSplits: nat, gapDays: int, s: nat, i: nat)
    returns (t: nat)
    requires Sorts(dates, order) && i < |FoldsUpTo(dates, order, nSplits, gapDays, s)|
    ensures t < s && FoldsUpTo(dates, order, nSplits, gapDays, s)[i] == SplitAt(dates, order, nSplits, gapDays, t)
    ensures Kept(SplitAt(dates, order, nSplits, gapDays, t))
    ensures i < |FoldsUpTo(dates, order, nSplits, gapDays, t + 1)|
    ensures |FoldsUpTo(dates, order, nSplits, gapDays, t)| == i
  {
    hide SplitAt;
    if i < |FoldsUpTo(dates, order, nSplits, gapDays, s - 1)| {
      t := FoldOrigin(dates, order, nSplits, gapDays, s - 1, i);
    } else {
      t := s - 1;
    }
  }

  lemma {:induction false} FoldCountRises(dates: seq<int>, order: seq<int>, nSplits: nat, gapDays: int, s: nat, t: nat)
    requires Sorts(dates, order) && s <= t
    ensures |FoldsUpTo(dates, order, nSplits, gapDays, s)| <= |FoldsUpTo(dates, order, nSplits, gapDays, t)|
  {
    hide SplitAt;
    if s < t {
      FoldCountRises(dates, order, nSplits, gapDays, s, t - 1);
    }
  }

  /** Every fold that is kept is a real one, and training sets of successive kept folds are nested. */
  lemma KeptFoldsAreNested(dates: seq<int>, order: seq<int>, nSplits: nat, gapDays: int, i: nat, j: nat)
    requires Sorts(dates, order) && i <= j < |FoldsUpTo(dates, order, nSplits, gapDays, nSplits)|
    ensures
      var folds := FoldsUpTo(dates, order, nSplits, gapDays, nSplits);
      folds[i].train != [] && folds[i].valid != [] && folds[i].train <= folds[j].train
  {
    hide SplitAt, FoldsUpTo;
    var s := FoldOrigin(dates, order, nSplits, gapDays, nSplits, i);
    var t := FoldOrigin(dates, order, nSplits, gapDays, nSplits, j);
    if t < s {
      FoldCountRises(dates, order, nSplits, gapDays, t + 1, s);
    }
    ChunkOf(dates, order, nSplits, gapDays, s);
    ChunkOf(dates, order, nSplits, gapDays, t);
    TrainingGrows(dates, order, nSplits, gapDays, s, t);
  }

  lemma ChunkOf(dates: seq<int>, order: seq<int>, nSplits: nat, gapDays: int, s: nat)
    requires Sorts(dates, order)
    ensures Kept(SplitAt(dates, order, nSplits, gapDays, s)) ==> ValidChunk(order, nSplits, s) != []
  {
  }

  // ----- the loop

  method EarliestDate(dates: seq<int>, indices: seq<int>) returns (date: int)
    requires indices != []
    requires forall p :: 0 <= p < |indices| ==> 0 <= indices[p] < |dates|
    ensures date == MinDate(dates, indices)
  {
    date := dates[indices[0]];
    var k := 1;
    assert indices[..1] == [indices[0]];
    while k < |indices|
      invariant 1 <= k <= |indices|
      invariant date == MinDate(dates, indices[..k])
    {
      assert indices[..k + 1][..k] == indices[..k];
      date := if dates[indices[k]] < date then dates[indices[k]] else date;
      k := k + 1;
    }
    assert indices[..k] == indices;
  }

  method TrainingIndices(dates: seq<int>, head: seq<int>, limit: int) returns (train: seq<int>)
    requires forall p :: 0 <= p < |head| ==> 0 <= head[p] < |dates|
    ensures train == DatedBy(dates, head, limit)
  {
    train := [];
    var p := 0;
    while p < |head|
      invariant 0 <= p <= |head|
      invariant train == DatedBy(dates, head[..p], limit)
    {
      assert head[..p + 1][..p] == head[..p];
      if dates[head[p]] <= limit {
        train := train + [head[p]];
      }
      p := p + 1;
    }
    assert head[..p] == head;
  }

  method ChronologicalFolds(dates: seq<int>, order: seq<int>, nSplits: nat, gapDays: int) returns (folds: seq<Fold>)
    requires Sorts(dates, order)
    ensures folds == FoldsUpTo(dates, order, nSplits, gapDays, nSplits)
  {
    hide ValidStart, ValidEnd, DatedBy, MinDate;
    folds := [];
    for s := 0 to nSplits
      invariant folds == FoldsUpTo(dates, order, nSplits, gapDays, s)
    {
      var start := ValidStart(|order|, nSplits, s);
      var valid := Slice(order, start, ValidEnd(|order|, nSplits, s));
      if valid != [] {
        var validMin := EarliestDate(dates, valid);
        var train := TrainingIndices(dates, Slice(order, 0, start), validMin - gapDays);
        if train != [] {
          folds := folds + [Fold(train, valid)];
        }
      }
    }
  }
}
