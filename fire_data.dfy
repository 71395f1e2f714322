/**
 * `fetch_fire_data`: the date range is cut into ten-day chunks in yearly
 * batches, the chunks are fetched one after another, and the tables that
 * came back are concatenated and freed of duplicate rows. The failed chunk
 * ranges and the cache and API counters are collected alongside; what the
 * function prints of them at the end is the `Report`.
 */
module FireData {
  import opened Wrappers
  import opened Fires
  import opened Sequences
  import opened DateChunks
  import opened ChunkFetch

  /** An entry of `errors`: the chunk's first and last day and its message. */
  datatype FailedRange = FailedRange(start: int, end: int, error: string)

  /** The combined table and what the function reports about the run. */
  datatype FetchSummary = FetchSummary(rows: seq<Detection>, errors: seq<FailedRange>, cacheHits: nat, apiCalls: nat)

  /** Python's truth value of an `error` that is `None` or a string. */
  predicate Truthy(e: Option<string>) {
    e.Some? && e.value != ""
  }

  /** The chunks `fetch_fire_data` requests for the range. */
  function FetchChunks(start: int, end: int): seq<Chunk> {
    DateChunks.DateChunks(start, end, DefaultChunkSize, Some(FetchBatchDays))
  }

  /** The chunk results, given each chunk's cache file and attempt outcomes. */
  function Results(useCache: bool, cache: seq<Option<CacheFile>>, outcomes: seq<seq<Attempt>>): (rs: seq<ChunkResult>)
    requires |cache| == |outcomes| && forall i :: 0 <= i < |outcomes| ==> |outcomes[i]| == MaxRetries
    ensures |rs| == |outcomes|
  {
    seq(|outcomes|, i requires 0 <= i < |outcomes| => FetchSpec(useCache, cache[i], outcomes[i]).result)
  }

  /** `all_data`: the tables of the chunks whose `df` is not `None`, in chunk order. */
  function Tables(results: seq<ChunkResult>): seq<seq<Detection>> {
    if results == [] then []
    else
      var last := results[|results| - 1];
      Tables(results[..|results| - 1]) + (if last.df.Some? then [last.df.value] else [])
  }

  /** `errors`: one entry per chunk whose error is truthy, in chunk order. */
  function Failures(chunks: seq<Chunk>, results: seq<ChunkResult>): seq<FailedRange>
    requires |chunks| == |results|
  {
    if results == [] then []
    else
      var n := |results| - 1;
      Failures(chunks[..n], results[..n])
        + (if Truthy(results[n].error) then [FailedRange(chunks[n].start, chunks[n].end, results[n].error.value)] else [])
  }

  function CacheHits(results: seq<ChunkResult>): nat {
    if results == [] then 0
    else CacheHits(results[..|results| - 1]) + (if results[|results| - 1].fromCache then 1 else 0)
  }

  function ApiCalls(results: seq<ChunkResult>): nat {
    if results == [] then 0
    else ApiCalls(results[..|results| - 1]) + (if results[|results| - 1].apiCalled then 1 else 0)
  }

  /** An empty `all_data` gives an empty frame; otherwise concatenation and `drop_duplicates()`. */
  function Combine(tables: seq<seq<Detection>>): seq<Detection> {
    if tables == [] then [] else DropDuplicates(Concat(tables))
  }

  function Summarize(chunks: seq<Chunk>, results: seq<ChunkResult>): FetchSummary
    requires |chunks| == |results|
  {
    FetchSummary(Combine(Tables(results)), Failures(chunks, results), CacheHits(results), ApiCalls(results))
  }

  /**
   * What the function prints after the loop: the warning that no fire data was
   * found, or the cache statistics, the number of failed chunks with the first
   * ten of their ranges (the rest only counted), and the number of detections.
   */
  datatype Report =
    | NoDataWarning
    | Statistics(cacheHits: nat, apiCalls: nat, failedCount: nat, shown: seq<FailedRange>, detections: nat)

  /** How many failed ranges are printed one by one. */
  const ShownFailures := 10

  /** The end-of-run statistics of a summary. */
  function FullReport(s: FetchSummary): Report {
    Statistics(s.cacheHits, s.apiCalls, |s.errors|, s.errors[..Min(ShownFailures, |s.errors|)], |s.rows|)
  }

  /**
   * What `fetch_fire_data` prints as written: without any table it warns and
   * returns before the statistics, so the failed ranges are not printed.
   */
  function Printed(chunks: seq<Chunk>, results: seq<ChunkResult>): Report
    requires |chunks| == |results|
  {
    if Tables(results) == [] then NoDataWarning else FullReport(Summarize(chunks, results))
  }

  /** The report with the statistics and the failed ranges printed whether or not a table came back. */
  function SurfacedReport(chunks: seq<Chunk>, results: seq<ChunkResult>): Report
    requires |chunks| == |results|
  {
    FullReport(Summarize(chunks, results))
  }

  /**
   * `fetch_fire_data(map_key, bbox, start_date, end_date, use_cache)`, with
   * `cache[i]` and `outcomes[i]` standing for the cache file and the attempt
   * outcomes of the `i`-th chunk. Dates are day ordinals.
   */
  method FetchFireData(start: int, end: int, useCache: bool, cache: seq<Option<CacheFile>>, outcomes: seq<seq<Attempt>>)
    returns (summary: FetchSummary, report: Report)
    requires |cache| == |outcomes| == |FetchChunks(start, end)|
    requires forall i :: 0 <= i < |outcomes| ==> |outcomes[i]| == MaxRetries
    ensures summary == Summarize(FetchChunks(start, end), Results(useCache, cache, outcomes))
    ensures report == Printed(FetchChunks(start, end), Results(useCache, cache, outcomes))
  {
    var chunks := GenerateDateChunks(start, end, DefaultChunkSize, Some(FetchBatchDays));
    ghost var results := Results(useCache, cache, outcomes);
    var allData: seq<seq<Detection>> := [];
    var errors: seq<FailedRange> := [];
    var cacheHits, apiCalls := 0, 0;
    for i := 0 to |chunks|
      invariant allData == Tables(results[..i])
      invariant errors == Failures(chunks[..i], results[..i])
      invariant cacheHits == CacheHits(results[..i])
      invariant apiCalls == ApiCalls(results[..i])
    {
      var df, fromCache, apiCalled, error;
      var r, sleeps, requests, written := FetchSingleChunk(useCache, cache[i], outcomes[i]);
      df, fromCache, apiCalled, error := r.df, r.fromCache, r.apiCalled, r.error;
      assert r == results[i];
      assert results[..i + 1][..i] == results[..i];
      assert chunks[..i + 1][..i] == chunks[..i];
      if df.Some? {
        allData := allData + [df.value];
      }
      if error.Some? && error.value != "" {
        errors := errors + [FailedRange(chunks[i].start, chunks[i].end, error.value)];
      }
      if fromCache {
        cacheHits := cacheHits + 1;
      }
      if apiCalled {
        apiCalls := apiCalls + 1;
      }
    }
    assert results[..|chunks|] == results;
    assert chunks[..|chunks|] == chunks;
    var rows: seq<Detection>;
    if allData == [] {
      rows := [];
      report := NoDataWarning;
    } else {
      rows := DropDuplicates(Concat(allData));
      report := Statistics(cacheHits, apiCalls, |errors|, errors[..Min(ShownFailures, |errors|)], |rows|);
    }
    summary := FetchSummary(rows, errors, cacheHits, apiCalls);
  }

  // ---- Properties --------------------------------------------------------------

  /** A table is in `all_data` exactly when some chunk returned it. */
  lemma {:induction false} InTables(results: seq<ChunkResult>, t: seq<Detection>)
    ensures t in Tables(results) <==> exists i :: 0 <= i < |results| && results[i].df == Some(t)
    decreases |results|
  {
    if results != [] {
      var n := |results| - 1;
      InTables(results[..n], t);
      if exists i :: 0 <= i < |results| && results[i].df == Some(t) {
        var i :| 0 <= i < |results| && results[i].df == Some(t);
        if i < n {
          assert results[..n][i] == results[i];
        }
      }
      if exists i :: 0 <= i < n && results[..n][i].df == Some(t) {
        var i :| 0 <= i < n && results[..n][i].df == Some(t);
        assert results[i].df == Some(t);
      }
    }
  }

  /**
   * The combined table holds exactly the rows of the returned tables, each
   * once, in the order in which they first appear.
   */
  lemma CombinedRows(results: seq<ChunkResult>)
    ensures var rows := Combine(Tables(results));
      && NoDuplicates(rows)
      && (forall x :: x in rows ==> exists i :: 0 <= i < |results| && results[i].df.Some? && x in results[i].df.value)
      && (forall i, x :: 0 <= i < |results| && results[i].df.Some? && x in results[i].df.value ==> x in rows)
      && forall i, j :: 0 <= i < j < |rows| ==>
           var all := Concat(Tables(results));
           rows[i] in all && rows[j] in all && FirstIndex(all, rows[i]) < FirstIndex(all, rows[j])
  {
    var tables := Tables(results);
    var rows := Combine(tables);
    DropDuplicatesSpec(Concat(tables));
    forall x | x in rows
      ensures exists i :: 0 <= i < |results| && results[i].df.Some? && x in results[i].df.value
    {
      InConcat(tables, x);
      var k :| 0 <= k < |tables| && x in tables[k];
      InTables(results, tables[k]);
    }
    forall i, x | 0 <= i < |results| && results[i].df.Some? && x in results[i].df.value
      ensures x in rows
    {
      var t := results[i].df.value;
      InTables(results, t);
      var k :| 0 <= k < |tables| && tables[k] == t;
      InConcat(tables, x);
    }
  }

  /** Every chunk with an error is reported with its range, and nothing else is. */
  lemma {:induction false} FailuresExact(chunks: seq<Chunk>, results: seq<ChunkResult>, e: FailedRange)
    requires |chunks| == |results|
    ensures e in Failures(chunks, results) <==>
      exists i :: 0 <= i < |results| && Truthy(results[i].error)
        && e == FailedRange(chunks[i].start, chunks[i].end, results[i].error.value)
    decreases |results|
  {
    if results != [] {
      var n := |results| - 1;
      FailuresExact(chunks[..n], results[..n], e);
      if exists i :: 0 <= i < |results| && Truthy(results[i].error)
           && e == FailedRange(chunks[i].start, chunks[i].end, results[i].error.value) {
        var i :| 0 <= i < |results| && Truthy(results[i].error)
           && e == FailedRange(chunks[i].start, chunks[i].end, results[i].error.value);
        if i < n {
          assert results[..n][i] == results[i] && chunks[..n][i] == chunks[i];
        }
      }
      if exists i :: 0 <= i < n && Truthy(results[..n][i].error)
           && e == FailedRange(chunks[..n][i].start, chunks[..n][i].end, results[..n][i].error.value) {
        var i :| 0 <= i < n && Truthy(results[..n][i].error)
           && e == FailedRange(chunks[..n][i].start, chunks[..n][i].end, results[..n][i].error.value);
        assert results[..n][i] == results[i] && chunks[..n][i] == chunks[i];
      }
    }
  }

  /** Every reported range starts no earlier than the first chunk's and ends no later than the last chunk's. */
  lemma {:induction false} FailuresWithin(chunks: seq<Chunk>, results: seq<ChunkResult>, lo: int, hi: int)
    requires |chunks| == |results|
    requires forall i :: 0 <= i < |chunks| ==> lo <= chunks[i].start && chunks[i].end <= hi
    ensures forall k :: 0 <= k < |Failures(chunks, results)| ==>
      lo <= Failures(chunks, results)[k].start && Failures(chunks, results)[k].end <= hi
    decreases |results|
  {
    if results != [] {
      var n := |results| - 1;
      FailuresWithin(chunks[..n], results[..n], lo, hi);
    }
  }

  /** The failed ranges come out in chronological order, when the chunks do. */
  lemma {:induction false} FailuresInOrder(chunks: seq<Chunk>, results: seq<ChunkResult>)
    requires |chunks| == |results|
    requires forall i :: 0 <= i < |chunks| ==> chunks[i].start <= chunks[i].end
    requires forall i, j :: 0 <= i < j < |chunks| ==> chunks[i].end < chunks[j].start
    ensures forall k, l :: 0 <= k < l < |Failures(chunks, results)| ==>
      Failures(chunks, results)[k].end < Failures(chunks, results)[l].start
    decreases |results|
  {
    if results != [] {
      var n := |results| - 1;
      FailuresInOrder(chunks[..n], results[..n]);
      if n > 0 {
        FailuresWithin(chunks[..n], results[..n], chunks[0].start, chunks[n - 1].end);
      }
      var prev := Failures(chunks[..n], results[..n]);
      var errs := Failures(chunks, results);
      forall k, l | 0 <= k < l < |errs|
        ensures errs[k].end < errs[l].start
      {
        if l >= |prev| {
          assert errs[l].start == chunks[n].start;
          assert errs[k] == prev[k];
          assert prev[k].end <= chunks[n - 1].end;
          assert chunks[n - 1].end < chunks[n].start;
        } else {
          assert errs[k] == prev[k] && errs[l] == prev[l];
          assert prev[k].end < prev[l].start;
        }
      }
    }
  }

  /** Each chunk counts once, as a cache hit or as an API call; without the cache there are no hits. */
  lemma {:induction false} CountsAddUp(useCache: bool, cache: seq<Option<CacheFile>>, outcomes: seq<seq<Attempt>>)
    requires |cache| == |outcomes| && forall i :: 0 <= i < |outcomes| ==> |outcomes[i]| == MaxRetries
    ensures var rs := Results(useCache, cache, outcomes);
      && CacheHits(rs) + ApiCalls(rs) == |outcomes|
      && (!useCache ==> CacheHits(rs) == 0 && ApiCalls(rs) == |outcomes|)
    decreases |outcomes|
  {
    if outcomes != [] {
      var n := |outcomes| - 1;
      var rs := Results(useCache, cache, outcomes);
      CountsAddUp(useCache, cache[..n], outcomes[..n]);
      assert rs[..n] == Results(useCache, cache[..n], outcomes[..n]);
      CacheAnswersWithoutRequests(useCache, cache[n], outcomes[n]);
    }
  }

  /** Over a real date range, the reported failures come in chronological order and within the range. */
  lemma FetchReportsInOrder(start: int, end: int, useCache: bool, cache: seq<Option<CacheFile>>, outcomes: seq<seq<Attempt>>)
    requires |cache| == |outcomes| == |FetchChunks(start, end)|
    requires forall i :: 0 <= i < |outcomes| ==> |outcomes[i]| == MaxRetries
    ensures var errs := Summarize(FetchChunks(start, end), Results(useCache, cache, outcomes)).errors;
      && (forall k, l :: 0 <= k < l < |errs| ==> errs[k].end < errs[l].start)
      && (forall k :: 0 <= k < |errs| ==> start <= errs[k].start && errs[k].end <= end)
  {
    var chunks := FetchChunks(start, end);
    var rs := Results(useCache, cache, outcomes);
    DateChunksShape(start, end, DefaultChunkSize, Some(FetchBatchDays));
    FailuresInOrder(chunks, rs);
    FailuresWithin(chunks, rs, start, end);
  }

  /** A chunk is reported as failed exactly when all three of its attempts failed and no cache file answered. */
  lemma FailedChunks(useCache: bool, cache: seq<Option<CacheFile>>, outcomes: seq<seq<Attempt>>, i: nat)
    requires |cache| == |outcomes| && forall j :: 0 <= j < |outcomes| ==> |outcomes[j]| == MaxRetries
    requires i < |outcomes|
    ensures var r := Results(useCache, cache, outcomes)[i];
      && (Truthy(r.error) <==>
            CacheLookup(useCache, cache[i]).None? && forall a :: 0 <= a < MaxRetries ==> outcomes[i][a].RequestFailure?)
      && (Truthy(r.error) ==> r.df.None?)
  {
    ErrorOnlyWithoutTable(useCache, cache[i], outcomes[i]);
    if CacheLookup(useCache, cache[i]).None? && forall a :: 0 <= a < MaxRetries ==> outcomes[i][a].RequestFailure? {
      ExhaustsRetries(useCache, outcomes[i]);
    }
  }

  // ---- What is printed ---------------------------------------------------------

  lemma {:induction false} NoTables(results: seq<ChunkResult>)
    requires forall i :: 0 <= i < |results| ==> results[i].df.None?
    ensures Tables(results) == []
    decreases |results|
  {
    if results != [] {
      NoTables(results[..|results| - 1]);
    }
  }

  lemma {:induction false} AllFailures(chunks: seq<Chunk>, results: seq<ChunkResult>)
    requires |chunks| == |results|
    requires forall i :: 0 <= i < |results| ==> Truthy(results[i].error)
    ensures |Failures(chunks, results)| == |results|
    decreases |results|
  {
    if results != [] {
      var n := |results| - 1;
      AllFailures(chunks[..n], results[..n]);
    }
  }

  /**
   * When every chunk misses the cache and fails all three attempts, every
   * chunk is a failed range, yet the function prints only the no-data
   * warning: none of the failures is reported.
   */
  lemma TotalFailureIsSilent(start: int, end: int, useCache: bool, cache: seq<Option<CacheFile>>, outcomes: seq<seq<Attempt>>)
    requires |cache| == |outcomes| == |FetchChunks(start, end)|
    requires forall i :: 0 <= i < |outcomes| ==> |outcomes[i]| == MaxRetries
    requires forall i :: 0 <= i < |outcomes| ==> CacheLookup(useCache, cache[i]).None?
    requires forall i, a :: 0 <= i < |outcomes| && 0 <= a < MaxRetries ==> outcomes[i][a].RequestFailure?
    ensures var chunks, rs := FetchChunks(start, end), Results(useCache, cache, outcomes);
      |Failures(chunks, rs)| == |chunks| && Printed(chunks, rs) == NoDataWarning
  {
    var chunks, rs := FetchChunks(start, end), Results(useCache, cache, outcomes);
    forall i | 0 <= i < |rs|
      ensures Truthy(rs[i].error) && rs[i].df.None?
    {
      FailedChunks(useCache, cache, outcomes, i);
    }
    NoTables(rs);
    AllFailures(chunks, rs);
  }

  /** Twenty-five days whose three chunks all fail with `403 Forbidden`: three failures, none printed. */
  lemma ThreeSilentFailures(s: int)
    ensures var o := [RequestFailure("403 Forbidden"), RequestFailure("403 Forbidden"), RequestFailure("403 Forbidden")];
      var chunks, rs := FetchChunks(s, s + 24), Results(false, [None, None, None], [o, o, o]);
      |chunks| == 3 && |Failures(chunks, rs)| == 3 && Printed(chunks, rs) == NoDataWarning
  {
    var o := [RequestFailure("403 Forbidden"), RequestFailure("403 Forbidden"), RequestFailure("403 Forbidden")];
    TwentyFiveDays(s);
    TotalFailureIsSilent(s, s + 24, false, [None, None, None], [o, o, o]);
  }

  /**
   * The surfaced report counts every failed chunk, is non-zero exactly when
   * some chunk failed, and lists the first ten failed ranges in chunk order;
   * it differs from what is printed exactly when no table came back.
   */
  lemma SurfacedReportCountsGaps(chunks: seq<Chunk>, results: seq<ChunkResult>)
    requires |chunks| == |results|
    ensures var rep, errs := SurfacedReport(chunks, results), Failures(chunks, results);
      && rep.Statistics?
      && rep.failedCount == |errs|
      && (rep.failedCount > 0 <==> exists i :: 0 <= i < |results| && Truthy(results[i].error))
      && |rep.shown| == Min(ShownFailures, |errs|)
      && (forall k :: 0 <= k < |rep.shown| ==> rep.shown[k] == errs[k])
      && (Printed(chunks, results) == rep <==> Tables(results) != [])
  {
    var errs := Failures(chunks, results);
    if errs != [] {
      FailuresExact(chunks, results, errs[0]);
    }
    if exists i :: 0 <= i < |results| && Truthy(results[i].error) {
      var i :| 0 <= i < |results| && Truthy(results[i].error);
      FailuresExact(chunks, results, FailedRange(chunks[i].start, chunks[i].end, results[i].error.value));
    }
  }
}
