/**
 * The request planner `generate_date_chunks`: it walks the inclusive range
 * `[start, end]` in windows of at most `chunk_size` days, and, when
 * `max_total_days` is set and the range is longer than that, first cuts the
 * range into batches of `max_total_days` days counted from `start` and walks
 * each batch afresh. Dates are day ordinals (`date.toordinal()`), so adding
 * `timedelta(days=k)` is adding `k`.
 */
module DateChunks {
  import opened Wrappers
  import Calendar

  /** One yielded triple `(chunk_start, chunk_end, day_range)`. */
  datatype Chunk = Chunk(start: int, end: int, dayRange: int)

  /** The default `chunk_size`, the upstream limit of ten days per request. */
  const DefaultChunkSize := 10

  /** The `max_total_days` that `fetch_fire_data` passes. */
  const FetchBatchDays := 365

  function Min(a: int, b: int): int {
    if a <= b then a else b
  }

  /** The plain walk from `current` to `end` in steps of `size` days. */
  function Window(current: int, end: int, size: int): seq<Chunk>
    requires size >= 1
    decreases end - current
  {
    if current > end then []
    else
      var chunkEnd := Min(current + size - 1, end);
      [Chunk(current, chunkEnd, chunkEnd - current + 1)] + Window(chunkEnd + 1, end, size)
  }

  /** Each batch walked afresh from its own first day, the results concatenated. */
  function Rechunk(batches: seq<Chunk>, size: int): seq<Chunk>
    requires size >= 1
  {
    if batches == [] then []
    else Window(batches[0].start, batches[0].end, size) + Rechunk(batches[1..], size)
  }

  /**
   * The test of line 201: `max_total_days` is truthy (neither `None` nor 0)
   * and the day difference exceeds it, strictly.
   */
  predicate Batched(start: int, end: int, maxTotalDays: Option<nat>) {
    maxTotalDays.Some? && maxTotalDays.value != 0 && end - start > maxTotalDays.value
  }

  /** Everything the generator yields, in order. */
  function DateChunks(start: int, end: int, size: int, maxTotalDays: Option<nat>): seq<Chunk>
    requires size >= 1
  {
    if Batched(start, end, maxTotalDays) then Rechunk(Window(start, end, maxTotalDays.value), size)
    else Window(start, end, size)
  }

  /**
   * `list(generate_date_chunks(start, end, chunk_size, max_total_days))`.
   * A `chunk_size` of 0 makes the Python loop run forever on a non-empty
   * range; a negative `chunk_size` or `max_total_days` walks backwards from
   * the start until `datetime` overflows below year 1. Both are excluded.
   */
  method GenerateDateChunks(start: int, end: int, chunkSize: int, maxTotalDays: Option<nat>)
    returns (chunks: seq<Chunk>)
    requires chunkSize >= 1
    ensures chunks == DateChunks(start, end, chunkSize, maxTotalDays)
    decreases if maxTotalDays.Some? then 1 else 0
  {
    if maxTotalDays.Some? && maxTotalDays.value != 0 && end - start > maxTotalDays.value {
      var maxDays := maxTotalDays.value;
      chunks := [];
      var batchStart := start;
      while batchStart <= end
        invariant chunks + Rechunk(Window(batchStart, end, maxDays), chunkSize)
               == Rechunk(Window(start, end, maxDays), chunkSize)
        decreases end - batchStart
      {
        var batchEnd := Min(batchStart + maxDays - 1, end);
        var batch := GenerateDateChunks(batchStart, batchEnd, chunkSize, None);
        chunks := chunks + batch;
        batchStart := batchEnd + 1;
      }
      return;
    }
    chunks := [];
    var current := start;
    while current <= end
      invariant chunks + Window(current, end, chunkSize) == Window(start, end, chunkSize)
      decreases end - current
    {
      var chunkEnd := Min(current + chunkSize - 1, end);
      var dayRange := chunkEnd - current + 1;
      chunks := chunks + [Chunk(current, chunkEnd, dayRange)];
      current := chunkEnd + 1;
    }
  }

  // ---- What the planner promises ------------------------------------------

  /** A chunk is a non-empty range of at most `size` days whose `day_range` is its length. */
  predicate WellFormed(c: Chunk, size: int) {
    c.start <= c.end && c.dayRange == c.end - c.start + 1 && 1 <= c.dayRange <= size
  }

  predicate AllWellFormed(cs: seq<Chunk>, size: int) {
    forall i :: 0 <= i < |cs| ==> WellFormed(cs[i], size)
  }

  predicate Within(c: Chunk, lo: int, hi: int) {
    lo <= c.start && c.end <= hi
  }

  /**
   * The chunks lie end to end from `lo` to `hi`: each is a non-empty range
   * inside `[lo, hi]`, the first starts at `lo`, the last ends at `hi`, each
   * next one starts the day after the previous one ends (so they are in
   * increasing order and do not overlap), and there are none exactly when the
   * range is empty.
   */
  predicate Tiling(cs: seq<Chunk>, lo: int, hi: int) {
    && (cs == [] <==> lo > hi)
    && (cs != [] ==> cs[0].start == lo && cs[|cs| - 1].end == hi)
    && (forall i :: 0 <= i < |cs| ==> lo <= cs[i].start <= cs[i].end <= hi)
    && (forall i :: 0 < i < |cs| ==> cs[i].start == cs[i - 1].end + 1)
    && (forall i, j :: 0 <= i < j < |cs| ==> cs[i].end < cs[j].start)
  }

  /** How many of the chunks contain day `d`. */
  function Coverage(cs: seq<Chunk>, d: int): nat {
    if cs == [] then 0
    else (if cs[0].start <= d <= cs[0].end then 1 else 0) + Coverage(cs[1..], d)
  }

  /** The sum of the `day_range` fields, the days requested in all. */
  function TotalDays(cs: seq<Chunk>): int {
    if cs == [] then 0 else cs[0].dayRange + TotalDays(cs[1..])
  }

  lemma TilingRest(cs: seq<Chunk>, lo: int, hi: int)
    requires Tiling(cs, lo, hi) && cs != []
    ensures Tiling(cs[1..], cs[0].end + 1, hi)
  {
  }

  /** The plain walk tiles its range with well-formed chunks. */
  lemma {:induction false} WindowShape(current: int, end: int, size: int)
    requires size >= 1
    ensures Tiling(Window(current, end, size), current, end)
    ensures AllWellFormed(Window(current, end, size), size)
    decreases end - current
  {
    if current <= end {
      var chunkEnd := Min(current + size - 1, end);
      WindowShape(chunkEnd + 1, end, size);
    }
  }

  lemma TilingConcat(a: seq<Chunk>, b: seq<Chunk>, lo: int, mid: int, hi: int)
    requires Tiling(a, lo, mid) && Tiling(b, mid + 1, hi) && lo <= mid
    requires b == [] ==> mid == hi
    ensures Tiling(a + b, lo, hi)
  {
    var ab := a + b;
    forall i | 0 < i < |ab|
      ensures ab[i].start == ab[i - 1].end + 1
    {
      if i < |a| {
      } else if i == |a| {
      } else {
        assert ab[i] == b[i - |a|] && ab[i - 1] == b[i - 1 - |a|];
      }
    }
  }

  /** Walking each batch of a tiling afresh tiles the same range. */
  lemma {:induction false} RechunkShape(batches: seq<Chunk>, lo: int, hi: int, size: int)
    requires size >= 1 && Tiling(batches, lo, hi)
    ensures Tiling(Rechunk(batches, size), lo, hi)
    ensures AllWellFormed(Rechunk(batches, size), size)
    decreases |batches|
  {
    if batches != [] {
      var b := batches[0];
      TilingRest(batches, lo, hi);
      WindowShape(b.start, b.end, size);
      RechunkShape(batches[1..], b.end + 1, hi, size);
      TilingConcat(Window(b.start, b.end, size), Rechunk(batches[1..], size), lo, b.end, hi);
    }
  }

  /** No chunk of a rechunked tiling crosses the edge of the batch it came from. */
  lemma {:induction false} RechunkWithinBatches(batches: seq<Chunk>, size: int, k: int)
    requires size >= 1 && 0 <= k < |Rechunk(batches, size)|
    ensures exists j :: 0 <= j < |batches| && Within(Rechunk(batches, size)[k], batches[j].start, batches[j].end)
    decreases |batches|
  {
    var b := batches[0];
    var w := Window(b.start, b.end, size);
    WindowShape(b.start, b.end, size);
    if k < |w| {
      assert Rechunk(batches, size)[k] == w[k];
      WithinTiling(w, b.start, b.end, k);
      assert Within(Rechunk(batches, size)[k], batches[0].start, batches[0].end);
    } else {
      assert Rechunk(batches, size)[k] == Rechunk(batches[1..], size)[k - |w|];
      RechunkWithinBatches(batches[1..], size, k - |w|);
      var j :| 0 <= j < |batches[1..]| && Within(Rechunk(batches[1..], size)[k - |w|], batches[1..][j].start, batches[1..][j].end);
      assert batches[1..][j] == batches[j + 1];
    }
  }

  /** Every chunk of a tiling of `[lo, hi]` lies inside `[lo, hi]`. */
  lemma {:induction false} WithinTiling(cs: seq<Chunk>, lo: int, hi: int, k: int)
    requires Tiling(cs, lo, hi) && 0 <= k < |cs|
    ensures Within(cs[k], lo, hi)
    decreases |cs|
  {
    if k > 0 {
      TilingRest(cs, lo, hi);
      WithinTiling(cs[1..], cs[0].end + 1, hi, k - 1);
    } else if |cs| > 1 {
      TilingRest(cs, lo, hi);
      WithinTiling(cs[1..], cs[0].end + 1, hi, |cs| - 2);
    }
  }

  /**
   * The planner's chunks start at `start`, end at `end`, lie end to end, and
   * each is a non-empty range of at most `size` days inside `[start, end]`
   * whose `day_range` is its length; `start > end` yields no chunks.
   */
  lemma DateChunksShape(start: int, end: int, size: int, maxTotalDays: Option<nat>)
    requires size >= 1
    ensures Tiling(DateChunks(start, end, size, maxTotalDays), start, end)
    ensures AllWellFormed(DateChunks(start, end, size, maxTotalDays), size)
    ensures start > end ==> DateChunks(start, end, size, maxTotalDays) == []
    ensures forall k :: 0 <= k < |DateChunks(start, end, size, maxTotalDays)| ==>
              Within(DateChunks(start, end, size, maxTotalDays)[k], start, end)
  {
    var cs := DateChunks(start, end, size, maxTotalDays);
    if Batched(start, end, maxTotalDays) {
      WindowShape(start, end, maxTotalDays.value);
      RechunkShape(Window(start, end, maxTotalDays.value), start, end, size);
    } else {
      WindowShape(start, end, size);
    }
    forall k | 0 <= k < |cs|
      ensures Within(cs[k], start, end)
    {
      WithinTiling(cs, start, end, k);
    }
  }

  /** A tiling of `[lo, hi]` covers each day of the range exactly once and no other day. */
  lemma {:induction false} TilingCoversOnce(cs: seq<Chunk>, lo: int, hi: int, d: int)
    requires Tiling(cs, lo, hi)
    ensures Coverage(cs, d) == if lo <= d <= hi then 1 else 0
    decreases |cs|
  {
    if cs != [] {
      TilingRest(cs, lo, hi);
      TilingCoversOnce(cs[1..], cs[0].end + 1, hi, d);
    }
  }

  /** The requested day ranges add up to the length of the range. */
  lemma {:induction false} TilingTotalDays(cs: seq<Chunk>, lo: int, hi: int, size: int)
    requires Tiling(cs, lo, hi) && AllWellFormed(cs, size)
    ensures TotalDays(cs) == if lo <= hi then hi - lo + 1 else 0
    decreases |cs|
  {
    if cs != [] {
      TilingRest(cs, lo, hi);
      TilingTotalDays(cs[1..], cs[0].end + 1, hi, size);
    }
  }

  /** Every day of `[start, end]` is requested exactly once, and no day outside it. */
  lemma DateChunksCoverEachDayOnce(start: int, end: int, size: int, maxTotalDays: Option<nat>, d: int)
    requires size >= 1
    ensures Coverage(DateChunks(start, end, size, maxTotalDays), d) == if start <= d <= end then 1 else 0
    ensures TotalDays(DateChunks(start, end, size, maxTotalDays)) == if start <= end then end - start + 1 else 0
  {
    DateChunksShape(start, end, size, maxTotalDays);
    TilingCoversOnce(DateChunks(start, end, size, maxTotalDays), start, end, d);
    TilingTotalDays(DateChunks(start, end, size, maxTotalDays), start, end, size);
  }

  // ---- Batches --------------------------------------------------------------

  /**
   * The closed form of the plain walk: window `i` starts `i * size` days after
   * `current` and ends `size - 1` days later or at `end`; there are
   * `n` windows for the `n` with `(n - 1) * size <= end - current < n * size`,
   * that is, `(end - current) / size + 1` of them.
   */
  lemma {:induction false} WindowAt(current: int, end: int, size: int, i: int)
    requires size >= 1 && current <= end
    ensures var n := |Window(current, end, size)|; (n - 1) * size <= end - current < n * size
    ensures 0 <= i < |Window(current, end, size)| ==>
      var s := current + i * size;
      Window(current, end, size)[i] == Chunk(s, Min(s + size - 1, end), Min(s + size - 1, end) - s + 1)
    decreases end - current
  {
    if current + size - 1 < end {
      var next := current + size;
      WindowAt(next, end, size, i - 1);
      var n' := |Window(next, end, size)|;
      assert (n' + 1) * size == n' * size + size;
      if 0 < i {
        assert next + (i - 1) * size == current + i * size;
      }
    }
  }

  /**
   * When batching happens, batch `k` is the range of `max_total_days` days
   * starting `k * max_total_days` days after `start` (the last cut at `end`),
   * and every chunk lies inside one batch.
   */
  lemma BatchesAnchoredAtStart(start: int, end: int, size: int, maxTotalDays: Option<nat>, k: int)
    requires size >= 1 && Batched(start, end, maxTotalDays)
    ensures var batches := Window(start, end, maxTotalDays.value);
      && DateChunks(start, end, size, maxTotalDays) == Rechunk(batches, size)
      && (|batches| - 1) * maxTotalDays.value <= end - start < |batches| * maxTotalDays.value
      && (0 <= k < |batches| ==>
            batches[k].start == start + k * maxTotalDays.value
            && batches[k].end == Min(start + k * maxTotalDays.value + maxTotalDays.value - 1, end))
      && (0 <= k < |DateChunks(start, end, size, maxTotalDays)| ==>
            exists j :: 0 <= j < |batches|
              && Within(DateChunks(start, end, size, maxTotalDays)[k], batches[j].start, batches[j].end))
  {
    var batches := Window(start, end, maxTotalDays.value);
    WindowAt(start, end, maxTotalDays.value, k);
    if 0 <= k < |DateChunks(start, end, size, maxTotalDays)| {
      RechunkWithinBatches(batches, size, k);
    }
  }

  /**
   * Without batching the chunks are the plain walk: chunk `i` starts
   * `i * size` days after `start` and ends `size - 1` days later or at `end`.
   */
  lemma UnbatchedChunks(start: int, end: int, size: int, maxTotalDays: Option<nat>, i: int)
    requires size >= 1 && !Batched(start, end, maxTotalDays) && start <= end
    ensures var n := |DateChunks(start, end, size, maxTotalDays)|; (n - 1) * size <= end - start < n * size
    ensures 0 <= i < |DateChunks(start, end, size, maxTotalDays)| ==>
      var s := start + i * size;
      DateChunks(start, end, size, maxTotalDays)[i] == Chunk(s, Min(s + size - 1, end), Min(s + size - 1, end) - s + 1)
  {
    WindowAt(start, end, size, i);
  }

  // ---- Worked cases ---------------------------------------------------------

  /** Twenty-five days (say 2023-01-01 to 2023-01-25) give days 1-10, 11-20 and 21-25. */
  lemma TwentyFiveDays(s: int)
    ensures DateChunks(s, s + 24, DefaultChunkSize, Some(FetchBatchDays))
         == [Chunk(s, s + 9, 10), Chunk(s + 10, s + 19, 10), Chunk(s + 20, s + 24, 5)]
  {
    assert Window(s + 20, s + 24, 10) == [Chunk(s + 20, s + 24, 5)];
    assert Window(s + 10, s + 24, 10) == [Chunk(s + 10, s + 19, 10)] + Window(s + 20, s + 24, 10);
  }

  /**
   * 2022-12-27 to 2023-01-05 straddles New Year and is still one request of
   * ten days: batches are 365-day spans counted from the start, not calendar
   * years, and a range of at most 365 days is not batched at all.
   */
  lemma TenDaysAcrossNewYear()
    ensures var s := Calendar.Ordinal(Calendar.Date(2022, 12, 27));
      var e := Calendar.Ordinal(Calendar.Date(2023, 1, 5));
      && e == s + 9
      && DateChunks(s, e, DefaultChunkSize, Some(FetchBatchDays)) == [Chunk(s, e, 10)]
  {
    var s := Calendar.Ordinal(Calendar.Date(2022, 12, 27));
    assert Window(s + 10, s + 9, 10) == [];
  }
}
