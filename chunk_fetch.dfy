/**
 * `fetch_single_chunk`: one chunk of detections, read from the response cache
 * when allowed and present, otherwise requested from the API with up to three
 * attempts. The network is abstracted to the outcome each attempt would have;
 * the model records what the function decides: its result tuple, the
 * backoff and retry sleeps it requests (in seconds), how many requests it
 * makes, and what it writes to the cache.
 */
module ChunkFetch {
  import opened Wrappers
  import opened Fires

  /** `max_retries`. */
  const MaxRetries := 3

  /**
   * What one `requests.get(url, timeout=30)` followed by `raise_for_status()`
   * comes to: a response (its text, and the rows `pd.read_csv` reads from it),
   * or a `RequestException` (HTTP errors included), given by `str(e)`.
   */
  datatype Attempt = Reply(text: string, rows: seq<Detection>) | RequestFailure(message: string)

  /**
   * An existing cache file: one whose text or table cannot be read (the
   * `except Exception: pass` fall-through), or its text and, unless
   * `pd.read_csv` fails on it, its rows.
   */
  datatype CacheFile = Unreadable | Cached(content: string, rows: Option<seq<Detection>>)

  /** What is written to the cache file: the `"No data"` marker or the table. */
  datatype CacheWrite = NoDataMarker | CsvTable(rows: seq<Detection>)

  /** The tuple `(df, from_cache, api_called, error)`. */
  datatype ChunkResult = ChunkResult(df: Option<seq<Detection>>, fromCache: bool, apiCalled: bool, error: Option<string>)

  /** Everything one call decides. */
  datatype Fetch = Fetch(result: ChunkResult, sleeps: seq<nat>, requests: nat, written: Option<CacheWrite>)

  // ---- Text tests ------------------------------------------------------------

  /** Python's `str.isspace` for one character. */
  predicate IsSpace(c: char) {
    ('\t' <= c <= '\r') || ('\U{1c}' <= c <= ' ') || c == '\U{85}' || c == '\U{a0}'
    || c == '\U{1680}' || ('\U{2000}' <= c <= '\U{200a}') || c == '\U{2028}' || c == '\U{2029}'
    || c == '\U{202f}' || c == '\U{205f}' || c == '\U{3000}'
  }

  function StripLeft(s: string): (r: string)
    ensures |r| <= |s|
  {
    if s != [] && IsSpace(s[0]) then StripLeft(s[1..]) else s
  }

  function StripRight(s: string): (r: string)
    ensures |r| <= |s|
  {
    if s != [] && IsSpace(s[|s| - 1]) then StripRight(s[..|s| - 1]) else s
  }

  /** `str.strip()`: the text without its leading and trailing whitespace. */
  function Strip(s: string): string {
    StripRight(StripLeft(s))
  }

  lemma {:induction false} StripLeftShape(s: string)
    ensures var r := StripLeft(s);
      && r == s[|s| - |r|..]
      && (r != [] ==> !IsSpace(r[0]))
      && forall i :: 0 <= i < |s| - |r| ==> IsSpace(s[i])
    decreases |s|
  {
    if s != [] && IsSpace(s[0]) {
      StripLeftShape(s[1..]);
    }
  }

  lemma {:induction false} StripRightShape(s: string)
    ensures var r := StripRight(s);
      && r == s[..|r|]
      && (r != [] ==> !IsSpace(r[|r| - 1]))
      && forall i :: |r| <= i < |s| ==> IsSpace(s[i])
    decreases |s|
  {
    if s != [] && IsSpace(s[|s| - 1]) {
      StripRightShape(s[..|s| - 1]);
    }
  }

  /**
   * `strip()` keeps a contiguous part of the text that neither starts nor ends
   * with whitespace, and removes only whitespace around it.
   */
  lemma StripShape(s: string)
    ensures var r, i := Strip(s), |s| - |StripLeft(s)|;
      && i + |r| <= |s| && r == s[i..i + |r|]
      && (forall k :: 0 <= k < i ==> IsSpace(s[k]))
      && (forall k :: i + |r| <= k < |s| ==> IsSpace(s[k]))
      && (r != [] ==> !IsSpace(r[0]) && !IsSpace(r[|r| - 1]))
  {
    var l := StripLeft(s);
    StripLeftShape(s);
    StripRightShape(l);
    var r := Strip(s);
    var i := |s| - |l|;
    assert r == l[..|r|];
    assert r == s[i..i + |r|];
    forall k | i + |r| <= k < |s|
      ensures IsSpace(s[k])
    {
      assert s[k] == l[k - i];
    }
  }

  function LowerChar(c: char): char {
    if 'A' <= c <= 'Z' then (c as int + 32) as char else c
  }

  /**
   * `str.lower()` on ASCII letters. No other character lower-cases to one of
   * the characters of "no data", so for the comparison below this is exact.
   */
  function Lower(s: string): (r: string)
    ensures |r| == |s| && forall i :: 0 <= i < |s| ==> r[i] == LowerChar(s[i])
  {
    seq(|s|, i requires 0 <= i < |s| => LowerChar(s[i]))
  }

  /** `response.text.strip().lower() == "no data"`. */
  predicate IsNoData(text: string) {
    Lower(Strip(text)) == "no data"
  }

  predicate OccursAt(s: string, sub: string, i: int) {
    0 <= i && i + |sub| <= |s| && s[i..i + |sub|] == sub
  }

  /** Python's substring test `sub in s`. */
  predicate Contains(s: string, sub: string) {
    exists i :: 0 <= i <= |s| && OccursAt(s, sub, i)
  }

  /** An error that the server's rate limiting caused. */
  predicate IsRateLimited(message: string) {
    Contains(message, "403") || Contains(message, "Forbidden")
  }

  // ---- The retry schedule ----------------------------------------------------

  function Pow2(n: nat): (r: nat)
    ensures r >= 1
  {
    if n == 0 then 1 else 2 * Pow2(n - 1)
  }

  /** The backoff after failed attempt `attempt` (counted from 0). */
  function BackoffDelay(message: string, attempt: nat): nat {
    if IsRateLimited(message) then 5 * Pow2(attempt) else Pow2(attempt)
  }

  function FailedAfterRetries(message: string): string {
    "Failed after 3 attempts: " + message
  }

  /** The result of a file found in the cache, or `None` when the API must be asked. */
  function CacheLookup(useCache: bool, cached: Option<CacheFile>): Option<ChunkResult> {
    if !useCache || cached.None? then None
    else match cached.value
      case Unreadable => None
      case Cached(content, rows) =>
        if content == "No data" then Some(ChunkResult(None, true, false, None))
        else if rows.Some? then Some(ChunkResult(rows, true, false, None))
        else None
  }

  /** Attempts `attempt`, `attempt + 1`, … up to the last. */
  function RetryFrom(useCache: bool, outcomes: seq<Attempt>, attempt: nat): Fetch
    requires |outcomes| == MaxRetries && attempt < MaxRetries
    decreases MaxRetries - attempt
  {
    var pre := if attempt > 0 then [1 + attempt] else [];
    match outcomes[attempt]
    case Reply(text, rows) =>
      if IsNoData(text) then
        Fetch(ChunkResult(None, false, true, None), pre, attempt + 1, if useCache then Some(NoDataMarker) else None)
      else if rows != [] then
        Fetch(ChunkResult(Some(rows), false, true, None), pre, attempt + 1, if useCache then Some(CsvTable(rows)) else None)
      else
        Fetch(ChunkResult(None, false, true, None), pre, attempt + 1, None)
    case RequestFailure(message) =>
      if attempt < MaxRetries - 1 then
        var rest := RetryFrom(useCache, outcomes, attempt + 1);
        rest.(sleeps := pre + [BackoffDelay(message, attempt)] + rest.sleeps)
      else
        Fetch(ChunkResult(None, false, true, Some(FailedAfterRetries(message))), pre, attempt + 1, None)
  }

  /** What `fetch_single_chunk` decides, given the cache file and the attempts' outcomes. */
  function FetchSpec(useCache: bool, cached: Option<CacheFile>, outcomes: seq<Attempt>): Fetch
    requires |outcomes| == MaxRetries
  {
    match CacheLookup(useCache, cached)
    case Some(r) => Fetch(r, [], 0, None)
    case None => RetryFrom(useCache, outcomes, 0)
  }

  /** `fetch_single_chunk`, step by step. */
  method FetchSingleChunk(useCache: bool, cached: Option<CacheFile>, outcomes: seq<Attempt>)
    returns (result: ChunkResult, sleeps: seq<nat>, requests: nat, written: Option<CacheWrite>)
    requires |outcomes| == MaxRetries
    ensures Fetch(result, sleeps, requests, written) == FetchSpec(useCache, cached, outcomes)
  {
    sleeps, requests, written := [], 0, None;
    if useCache && cached.Some? {
      match cached.value
      case Unreadable =>
      case Cached(content, rows) =>
        if content == "No data" {
          result := ChunkResult(None, true, false, None);
          return;
        }
        if rows.Some? {
          result := ChunkResult(rows, true, false, None);
          return;
        }
    }
    var attempt: nat := 0;
    while true
      invariant attempt < MaxRetries && requests == attempt && written == None
      invariant CacheLookup(useCache, cached) == None
      invariant var rest, all := RetryFrom(useCache, outcomes, attempt), RetryFrom(useCache, outcomes, 0);
        rest.result == all.result && rest.requests == all.requests && rest.written == all.written
        && sleeps + rest.sleeps == all.sleeps
      decreases MaxRetries - attempt
    {
      ghost var before := sleeps;
      if attempt > 0 {
        sleeps := sleeps + [1 + attempt];
      }
      requests := requests + 1;
      match outcomes[attempt]
      case Reply(text, rows) =>
        if IsNoData(text) {
          if useCache {
            written := Some(NoDataMarker);
          }
          result := ChunkResult(None, false, true, None);
          return;
        }
        if rows != [] {
          if useCache {
            written := Some(CsvTable(rows));
          }
          result := ChunkResult(Some(rows), false, true, None);
          return;
        }
        result := ChunkResult(None, false, true, None);
        return;
      case RequestFailure(message) =>
        if attempt < MaxRetries - 1 {
          var delay: nat;
          if IsRateLimited(message) {
            delay := 5 * Pow2(attempt);
          } else {
            delay := Pow2(attempt);
          }
          assert delay == BackoffDelay(message, attempt);
          sleeps := sleeps + [delay];
          RetryFailureStep(useCache, outcomes, attempt);
          ghost var pre: seq<nat> := if attempt > 0 then [1 + attempt] else [];
          ghost var later := RetryFrom(useCache, outcomes, attempt + 1).sleeps;
          assert sleeps == before + pre + [delay];
          Regroup(before, pre, [delay], later);
          attempt := attempt + 1;
        } else {
          result := ChunkResult(None, false, true, Some(FailedAfterRetries(message)));
          return;
        }
    }
  }

  /** A failed attempt that is not the last passes on to the next one, after its two sleeps. */
  lemma RetryFailureStep(useCache: bool, outcomes: seq<Attempt>, attempt: nat)
    requires |outcomes| == MaxRetries && attempt < MaxRetries - 1 && outcomes[attempt].RequestFailure?
    ensures var f, g := RetryFrom(useCache, outcomes, attempt), RetryFrom(useCache, outcomes, attempt + 1);
      && f.result == g.result && f.requests == g.requests && f.written == g.written
      && f.sleeps == (if attempt > 0 then [1 + attempt] else []) + [BackoffDelay(outcomes[attempt].message, attempt)] + g.sleeps
  {
  }

  lemma Regroup(a: seq<nat>, b: seq<nat>, c: seq<nat>, d: seq<nat>)
    ensures a + (b + c + d) == a + b + c + d
  {
  }

  // ---- Properties --------------------------------------------------------------

  function Sum(s: seq<nat>): nat {
    if s == [] then 0 else Sum(s[..|s| - 1]) + s[|s| - 1]
  }

  lemma SumShort(s: seq<nat>)
    ensures |s| == 2 ==> Sum(s) == s[0] + s[1]
    ensures |s| == 4 ==> Sum(s) == s[0] + s[1] + s[2] + s[3]
  {
    if |s| == 2 {
      assert s[..1][..0] == [];
      assert Sum(s[..1]) == s[0];
    } else if |s| == 4 {
      assert s[..3][..2][..1][..0] == [];
      assert Sum(s[..3][..2][..1]) == s[0];
      assert Sum(s[..3][..2]) == s[0] + s[1];
      assert Sum(s[..3]) == s[0] + s[1] + s[2];
    }
  }

  /** The first reply ends the retries: its text or table decides the result, with no error. */
  lemma StopsAtFirstReply(useCache: bool, outcomes: seq<Attempt>, k: nat)
    requires |outcomes| == MaxRetries && k < MaxRetries && outcomes[k].Reply?
    requires forall j :: 0 <= j < k ==> outcomes[j].RequestFailure?
    ensures var f := RetryFrom(useCache, outcomes, 0);
      var text, rows := outcomes[k].text, outcomes[k].rows;
      && f.requests == k + 1
      && f.result.apiCalled && !f.result.fromCache && f.result.error == None
      && f.result.df == (if IsNoData(text) || rows == [] then None else Some(rows))
      && f.written == (if !useCache then None
                       else if IsNoData(text) then Some(NoDataMarker)
                       else if rows != [] then Some(CsvTable(rows))
                       else None)
      && f.sleeps == (if k == 0 then []
                      else if k == 1 then [BackoffDelay(outcomes[0].message, 0), 2]
                      else [BackoffDelay(outcomes[0].message, 0), 2, BackoffDelay(outcomes[1].message, 1), 3])
  {
    if k == 1 {
      RetryFailureStep(useCache, outcomes, 0);
    } else if k == 2 {
      RetryFailureStep(useCache, outcomes, 1);
      RetryFailureStep(useCache, outcomes, 0);
    }
  }

  /** Three failed attempts give the error of the last one, after sleeps of backoff, 2, backoff, 3 seconds. */
  lemma ExhaustsRetries(useCache: bool, outcomes: seq<Attempt>)
    requires |outcomes| == MaxRetries
    requires forall j :: 0 <= j < MaxRetries ==> outcomes[j].RequestFailure?
    ensures var f := RetryFrom(useCache, outcomes, 0);
      && f.result == ChunkResult(None, false, true, Some(FailedAfterRetries(outcomes[2].message)))
      && f.requests == MaxRetries && f.written == None
      && f.sleeps == [BackoffDelay(outcomes[0].message, 0), 2, BackoffDelay(outcomes[1].message, 1), 3]
  {
    assert RetryFrom(useCache, outcomes, 2).sleeps == [3];
  }

  /** Backoffs are 1 and 2 seconds, or 5 and 10 after rate limiting. */
  lemma BackoffSchedule(message: string)
    ensures BackoffDelay(message, 0) == (if IsRateLimited(message) then 5 else 1)
    ensures BackoffDelay(message, 1) == (if IsRateLimited(message) then 10 else 2)
  {
    assert Pow2(1) == 2;
  }

  lemma OccursByCharacters(s: string, sub: string, i: nat)
    requires i + |sub| <= |s| && forall k :: 0 <= k < |sub| ==> s[i + k] == sub[k]
    ensures OccursAt(s, sub, i) && Contains(s, sub)
  {
    assert s[i..i + |sub|] == sub;
    assert 0 <= i <= |s| && OccursAt(s, sub, i);
  }

  /**
   * `raise_for_status` words an HTTP error as its status line followed by the
   * request URL, and the URL holds the bounding box, so the text test also
   * matches digits of a coordinate: a server error for a box whose west edge
   * is -119.403 gets the rate-limit backoff of 5 and 10 seconds.
   */
  lemma CoordinateLooksRateLimited()
    ensures var url := "https://firms.modaps.eosdis.nasa.gov/api/area/csv/KEY/MODIS_SP/-119.403,34.1,-118.9,34.5/10/2023-01-01";
      var message := "500 Server Error: Internal Server Error for url: " + url;
      && IsRateLimited(message)
      && BackoffDelay(message, 0) == 5 && BackoffDelay(message, 1) == 10
  {
    var url := "https://firms.modaps.eosdis.nasa.gov/api/area/csv/KEY/MODIS_SP/-119.403,34.1,-118.9,34.5/10/2023-01-01";
    var message := "500 Server Error: Internal Server Error for url: " + url;
    assert message[117] == '4' && message[118] == '0' && message[119] == '3';
    OccursByCharacters(message, "403", 117);
    assert Pow2(1) == 2;
  }

  /** The backoff keyed on the response's status code rather than on the error text. */
  function StatusBackoffDelay(status: Option<nat>, attempt: nat): nat {
    if status == Some(403) then 5 * Pow2(attempt) else Pow2(attempt)
  }

  /**
   * Keyed on the status, the long backoff comes exactly after a 403 response,
   * whatever the URL; on a 403 it agrees with the text test for every URL,
   * and the server error above gets the ordinary 1 and 2 seconds.
   */
  lemma StatusBackoffOnlyOn403(status: Option<nat>, attempt: nat, url: string)
    ensures StatusBackoffDelay(status, attempt) == 5 * Pow2(attempt) <==> status == Some(403)
    ensures status == Some(403) ==>
      StatusBackoffDelay(status, attempt) == BackoffDelay("403 Client Error: Forbidden for url: " + url, attempt)
    ensures StatusBackoffDelay(Some(500), 0) == 1 && StatusBackoffDelay(Some(500), 1) == 2
  {
    var line := "403 Client Error: Forbidden for url: ";
    assert (line + url)[0] == '4' && (line + url)[1] == '0' && (line + url)[2] == '3';
    OccursByCharacters(line + url, "403", 0);
    assert Pow2(1) == 2;
  }

  /** With those backoffs and the 2 and 3 second retry delays, a chunk sleeps at most 20 seconds. */
  lemma SleepBound(useCache: bool, cached: Option<CacheFile>, outcomes: seq<Attempt>)
    requires |outcomes| == MaxRetries
    ensures Sum(FetchSpec(useCache, cached, outcomes).sleeps) <= 20
  {
    var f := FetchSpec(useCache, cached, outcomes);
    if CacheLookup(useCache, cached).None? {
      if outcomes[0].Reply? {
        StopsAtFirstReply(useCache, outcomes, 0);
      } else if outcomes[1].Reply? {
        StopsAtFirstReply(useCache, outcomes, 1);
        SumShort(f.sleeps);
      } else if outcomes[2].Reply? {
        StopsAtFirstReply(useCache, outcomes, 2);
        SumShort(f.sleeps);
      } else {
        ExhaustsRetries(useCache, outcomes);
        SumShort(f.sleeps);
      }
    }
  }

  /** A usable cache file answers without any request; otherwise the API is called. */
  lemma CacheAnswersWithoutRequests(useCache: bool, cached: Option<CacheFile>, outcomes: seq<Attempt>)
    requires |outcomes| == MaxRetries
    ensures var f := FetchSpec(useCache, cached, outcomes);
      && (f.result.fromCache <==> CacheLookup(useCache, cached).Some?)
      && (f.result.fromCache ==> f.requests == 0 && f.sleeps == [] && f.written == None && !f.result.apiCalled)
      && (!f.result.fromCache ==> 1 <= f.requests <= MaxRetries && f.result.apiCalled)
      && (!useCache ==> f.written == None && !f.result.fromCache)
  {
    if CacheLookup(useCache, cached).None? {
      if outcomes[0].Reply? {
        StopsAtFirstReply(useCache, outcomes, 0);
      } else if outcomes[1].Reply? {
        StopsAtFirstReply(useCache, outcomes, 1);
      } else if outcomes[2].Reply? {
        StopsAtFirstReply(useCache, outcomes, 2);
      } else {
        ExhaustsRetries(useCache, outcomes);
      }
    }
  }

  /** Only an exhausted retry loop reports an error, and it never comes with a table. */
  lemma ErrorOnlyWithoutTable(useCache: bool, cached: Option<CacheFile>, outcomes: seq<Attempt>)
    requires |outcomes| == MaxRetries
    ensures var f := FetchSpec(useCache, cached, outcomes);
      && (f.result.error.Some? ==> f.result.df.None? && f.requests == MaxRetries)
      && (f.result.error.Some? <==>
            CacheLookup(useCache, cached).None? && forall j :: 0 <= j < MaxRetries ==> outcomes[j].RequestFailure?)
      && (f.result.df.Some? && !f.result.fromCache ==> f.result.df.value != [])
  {
    if CacheLookup(useCache, cached).None? {
      if outcomes[0].Reply? {
        StopsAtFirstReply(useCache, outcomes, 0);
      } else if outcomes[1].Reply? {
        StopsAtFirstReply(useCache, outcomes, 1);
      } else if outcomes[2].Reply? {
        StopsAtFirstReply(useCache, outcomes, 2);
      } else {
        ExhaustsRetries(useCache, outcomes);
      }
    }
  }

  /** The "no data" test ignores surrounding whitespace and case, but not other text. */
  lemma NoDataExamples()
    ensures IsNoData("No data")
    ensures IsNoData("  NO DATA\n")
    ensures !IsNoData("No data found")
    ensures !IsNoData("")
  {
    assert Strip("No data") == "No data";
    assert Strip("  NO DATA\n") == "NO DATA";
    assert Strip("No data found") == "No data found";
  }

  /**
   * The "no data" test, character by character: after stripping, the reply is
   * seven characters long, each one the letter of "no data" in either case
   * (the blank a blank). Mixed case such as "No DaTa" passes.
   */
  lemma NoDataCharacters(text: string)
    ensures IsNoData(text) <==>
      var t := Strip(text);
      |t| == 7 && forall i :: 0 <= i < 7 ==> t[i] == "no data"[i] || t[i] == "NO DATA"[i]
  {
    var t := Strip(text);
    var l := Lower(t);
    if |t| == 7 {
      forall i | 0 <= i < 7
        ensures l[i] == "no data"[i] <==> t[i] == "no data"[i] || t[i] == "NO DATA"[i]
      {
        assert l[i] == LowerChar(t[i]);
      }
      if forall i :: 0 <= i < 7 ==> t[i] == "no data"[i] || t[i] == "NO DATA"[i] {
        assert l == "no data";
      }
    }
  }

  /** Only a cache file holding exactly "No data" is the marker; a padded one is read as a table. */
  lemma CacheMarkerIsExact(rows: Option<seq<Detection>>)
    ensures CacheLookup(true, Some(Cached("No data", rows))) == Some(ChunkResult(None, true, false, None))
    ensures CacheLookup(true, Some(Cached("No data\n", rows))) == (if rows.Some? then Some(ChunkResult(rows, true, false, None)) else None)
  {
    assert "No data\n" != "No data";
  }
}
