# FIRMS fire timelapse: a Dafny model of its date, retry and aggregation logic

The fire timelapse generator downloads NASA FIRMS fire detections for a date range and renders one map per month or per day. It then compiles the maps into an MP4 video. This project models the deterministic core of `src/fire_timelapse.py`:

- **Date chunking** (`generate_date_chunks`). A date range is cut into requests of at most ten days. Ranges whose last day is more than 365 days after the first (367 days or more) are first cut into 365-day batches counted from the start date. Dates are day ordinals here.
- **Fetching one chunk** (`fetch_single_chunk`):
  - the cache lookup;
  - up to three attempts, with the retry delay before each later attempt;
  - the backoff after a failure, longer when the server rate-limited (`403` or `Forbidden` in the message);
  - the "no data" reply, the cache writes, and the error after the last failure.

  Each attempt's outcome and the cache file are inputs. The requested sleeps, the number of requests and the cache write are outputs.
- **Accumulation** (`fetch_fire_data`). Walks the chunks in order and collects the tables, the failed ranges, the cache hits and the API calls. At the end it concatenates the tables and drops duplicate rows, keeping the first occurrence. What it then prints is the `Report`: the no-data warning alone when no table came back, otherwise the statistics and the first ten failed ranges.
- **Periods** (`generate_daily_frames`). One period per calendar month, clamped to the end date and labelled `YYYY-MM`. Or one period per day, labelled `YYYY-MM-DD`. This rests on a proleptic Gregorian calendar (`Calendar`) and on zero-padded decimal labels (`Labels`).
- **The monthly bar chart**. `monthly_counts` is an insertion-ordered dict from labels to detection counts or FRP sums. The chart highlights the frame's own bar (`months.index(label)`) and picks a step between tick labels.
- **Frames**. Each frame is padded to even dimensions. `compile_video` loads the frames and holds the last one for extra frames. It reports a frame total computed as the number of files plus the hold.

Loops in the source are methods with loop invariants, each proved equal to a specification function. The properties are lemmas about those functions. Modules:

| module | file | models |
|---|---|---|
| `Wrappers` | wrappers.dfy | `Option` |
| `Calendar` | calendar.dfy | dates, date order, next/previous day, month ends, ordinals |
| `Labels` | labels.dfy | `strftime` labels and their injectivity |
| `DateChunks` | date_chunks.dfy | `generate_date_chunks` |
| `Fires` | fires.dfy | a detection row and the date filter |
| `ChunkFetch` | chunk_fetch.dfy | `fetch_single_chunk` |
| `Sequences` | sequences.dfy | `pd.concat`, `drop_duplicates`, `list.index` |
| `FireData` | fire_data.dfy | the loop of `fetch_fire_data` |
| `Periods` | periods.dfy | the monthly and daily period loops |
| `BarChart` | bar_chart.dfy | `monthly_counts`, the highlight index, the tick step |
| `Frames` | frames.dfy | even padding, the frame hold of `compile_video` |

Where the documentation and the code differ, the model follows the code. The program's comments speak of "yearly batches" (lines 200, 307 and 319), which could be read as calendar years. The code cuts 365-day batches anchored at the start date, and batches only when the day difference exceeds 365. `TenDaysAcrossNewYear` shows a range across New Year, 2022-12-27 to 2023-01-05, that stays one chunk.

## Model

| member | source | states |
|---|---|---|
| `DateChunks.GenerateDateChunks` | src/fire_timelapse.py:187-218 | the generator's while-loops (batches, recursion, windows) yield exactly `DateChunks` |
| `DateChunks.DateChunksShape` | src/fire_timelapse.py:201-218 | the chunks tile `[start, end]`: the first one starts at `start`, the last one ends at `end`, and each next one starts the day after the previous end; each has `1 <= day_range <= chunk_size` and `day_range == end - start + 1`; `start > end` yields nothing |
| `DateChunks.DateChunksCoverEachDayOnce` | src/fire_timelapse.py:211-218 | every day of the range is in exactly one chunk, no day outside it is in any, and the requested day ranges add up to the range's length |
| `DateChunks.BatchesAnchoredAtStart` | src/fire_timelapse.py:201-209 | when `max_total_days` is set and the range is longer, batch `k` is `[start + k*max, min(start + k*max + max - 1, end)]`; each batch is chunked afresh and no chunk crosses a batch edge |
| `DateChunks.UnbatchedChunks` | src/fire_timelapse.py:211-218 | without batching, chunk `i` is `[start + i*size, min(start + i*size + size - 1, end)]` and there are `ceil((end - start + 1) / size)` chunks |
| `DateChunks.TwentyFiveDays` | src/fire_timelapse.py:211-218 | a 25-day range gives chunks of 10, 10 and 5 days |
| `DateChunks.TenDaysAcrossNewYear` | src/fire_timelapse.py:201-209 | the batching is not a calendar-year split: 2022-12-27 to 2023-01-05 is ten days apart by the calendar's ordinals and is one ten-day chunk |
| `ChunkFetch.FetchSingleChunk` | src/fire_timelapse.py:243-301 | the cache check and the retry loop, with its early returns, produce exactly the result, sleeps, request count and cache write of `FetchSpec` |
| `ChunkFetch.StopsAtFirstReply` | src/fire_timelapse.py:266-288 | the first reply after `k` failures ends the loop after `k + 1` requests with no error: `df` is `None` for "no data" or an empty table, otherwise the table, which is cached when caching is on; the sleeps before it are `[]`, `[b0, 2]` or `[b0, 2, b1, 3]` |
| `ChunkFetch.ExhaustsRetries` | src/fire_timelapse.py:290-301 | three failures give `(None, False, True, "Failed after 3 attempts: " + last message)` after the sleeps `[b0, 2, b1, 3]`, with no backoff after the last attempt |
| `ChunkFetch.BackoffSchedule` | src/fire_timelapse.py:293-296 | the backoffs after attempts 0 and 1 are 5 and 10 seconds after rate limiting, 1 and 2 otherwise |
| `ChunkFetch.CoordinateLooksRateLimited` | src/fire_timelapse.py:293-296 | a 500 error whose URL holds the bounding-box coordinate -119.403 passes the text test for rate limiting and gets the 5 and 10 second backoffs |
| `ChunkFetch.StatusBackoffOnlyOn403` | src/fire_timelapse.py:293-296 | a backoff keyed on the status code is long exactly after a 403, agrees with the text test on a 403 for every URL, and gives the 500 error 1 and 2 seconds |
| `ChunkFetch.SleepBound` | src/fire_timelapse.py:266-297 | one chunk requests at most 20 seconds of retry and backoff sleep |
| `ChunkFetch.CacheAnswersWithoutRequests` | src/fire_timelapse.py:243-252 | a usable cache file answers without a request, a sleep or a write; otherwise between one and three requests are made; without the cache, nothing is read or written |
| `ChunkFetch.ErrorOnlyWithoutTable` | src/fire_timelapse.py:273-301 | an error comes only after three failed requests and never with a table; an error occurs exactly when all three attempts fail and the cache does not answer; a table from the API is never empty |
| `ChunkFetch.CacheMarkerIsExact` | src/fire_timelapse.py:247-250 | only a cache file holding exactly `No data` is the marker; a padded one is read as a table |
| `ChunkFetch.NoDataExamples` | src/fire_timelapse.py:274 | the "no data" test ignores case and surrounding whitespace, but not extra text |
| `ChunkFetch.StripShape` | src/fire_timelapse.py:274 | `strip()` removes only whitespace and only at the two ends, and leaves no whitespace at either end |
| `ChunkFetch.NoDataCharacters` | src/fire_timelapse.py:274 | a reply is "no data" exactly when, stripped, it has seven characters, each the letter of `no data` in either case, the blank a blank |
| `FireData.FetchFireData` | src/fire_timelapse.py:321-375 | the per-chunk loop with its counters, lists and final combination gives exactly `Summarize` of the chunks and their results, and what it prints is `Printed`: the warning alone without a table, otherwise the statistics |
| `FireData.TotalFailureIsSilent` | src/fire_timelapse.py:349-359 | when every chunk misses the cache and fails all three attempts, every chunk is a failed range, yet only the no-data warning is printed |
| `FireData.ThreeSilentFailures` | src/fire_timelapse.py:349-359 | a 25-day range whose three chunks fail with `403 Forbidden` collects three failed ranges and prints none of them |
| `FireData.SurfacedReportCountsGaps` | src/fire_timelapse.py:367-374 | the statistics count every failed chunk, are non-zero exactly when some chunk failed, and list the first ten failed ranges in chunk order; they match what is printed exactly when some table came back |
| `FireData.InTables` | src/fire_timelapse.py:346-347 | a table is in `all_data` exactly when some chunk returned it |
| `FireData.CombinedRows` | src/fire_timelapse.py:357-365 | the combined table has no duplicate rows, holds exactly the rows of the returned tables, and keeps them in order of first occurrence |
| `FireData.FailuresExact` | src/fire_timelapse.py:349-350 | a failed range is reported exactly when it is some chunk's range with that chunk's error |
| `FireData.FailuresWithin` | src/fire_timelapse.py:349-350 | every reported range lies within the bounds of the chunks |
| `FireData.FailuresInOrder` | src/fire_timelapse.py:343-350 | with chunks in order, the reported ranges come in chronological order |
| `FireData.FetchReportsInOrder` | src/fire_timelapse.py:321-350 | over a date range, the failures come out in order and inside the range |
| `FireData.CountsAddUp` | src/fire_timelapse.py:352-355 | each chunk counts once, as a cache hit or as an API call; without the cache there are no hits |
| `FireData.FailedChunks` | src/fire_timelapse.py:344-350 | a chunk is reported as failed exactly when its cache did not answer and all three attempts failed; such a chunk adds no table |
| `Sequences.DropDuplicatesSpec` | src/fire_timelapse.py:365 | `drop_duplicates()` leaves no two equal rows, loses no row value, adds none, and keeps the survivors in order of first occurrence |
| `Sequences.DropDuplicatesOfDistinct` | src/fire_timelapse.py:365 | a table without duplicates is unchanged |
| `Sequences.DropDuplicatesIdempotent` | src/fire_timelapse.py:365 | dropping duplicates twice is the same as once |
| `Sequences.InConcat` | src/fire_timelapse.py:362 | a row is in the concatenation exactly when it is in one of the tables |
| `Sequences.FirstIndex` | src/fire_timelapse.py:722 | `list.index` finds the first position holding the value |
| `Periods.MonthlyPeriods` | src/fire_timelapse.py:484-499 | the monthly while-loop builds exactly `MonthlySpec`, one period per month from the start date's month |
| `Periods.MonthStep` | src/fire_timelapse.py:486-499 | one turn of the loop appends the current month's clamped period and advances the month index by one |
| `Periods.MonthlyEnds` | src/fire_timelapse.py:486-499 | there are periods exactly when the start month is not after the end month; the first starts on day 1 of the start month, the last is the end month's and ends on the end date |
| `Periods.MonthlyEach` | src/fire_timelapse.py:493-497 | every period starts on a first of the month, is not empty, ends at `min(last day of its month, end_date)`, and carries its month's label |
| `Periods.MonthlyConsecutive` | src/fire_timelapse.py:489-499 | the next period starts on the first of the following month, December going to January of the next year; every period but the last ends on its month's last day |
| `Periods.MonthlyLabelsDistinct` | src/fire_timelapse.py:497 | no two monthly periods share a label |
| `Periods.MonthlyPartition` | src/fire_timelapse.py:484-499 | a day from the first of the start month to the end date lies in exactly one monthly period, the one of its own month |
| `Periods.MonthOrder` | src/fire_timelapse.py:487 | for a first of the month, date order and month order agree |
| `Periods.DailyPeriods` | src/fire_timelapse.py:500-504 | the daily while-loop builds exactly `DailySpec` |
| `Periods.DailyShape` | src/fire_timelapse.py:500-504 | there are `end - start + 1` daily periods, none when start is after end; period `i` is the single day `start + i` with its `YYYY-MM-DD` label; each next period is the next day |
| `Periods.DailyLabelsDistinct` | src/fire_timelapse.py:503 | no two daily periods share a label |
| `Calendar.MinDate` | src/fire_timelapse.py:496 | `min` of two dates is one of them and not after either |
| `Calendar.FirstOfNextMonth` | src/fire_timelapse.py:489-492 | the next month's first is a valid later date, in the same year unless the month is December, when it is January of the next year |
| `Calendar.NextDay` | src/fire_timelapse.py:504 | adding a day gives a valid later date |
| `Calendar.PrevDay` | src/fire_timelapse.py:493 | subtracting a day gives a valid earlier date |
| `Calendar.NextPrevRoundTrip` | src/fire_timelapse.py:493 | adding and subtracting a day cancel out, in both orders |
| `Calendar.MonthEnd` | src/fire_timelapse.py:488-493 | the day before the next month's first is the last day of the month |
| `Calendar.OrdinalNextDay` | src/fire_timelapse.py:504 | the next day's ordinal is one more |
| `Calendar.OrdinalOrder` | src/fire_timelapse.py:502 | date comparison agrees with ordinal comparison, for both `<` and `==` |
| `Labels.ZeroPadRoundTrip` | src/fire_timelapse.py:497 | a zero-padded field reads back as its number |
| `Labels.MonthLabelFields` | src/fire_timelapse.py:497 | a `YYYY-MM` label splits back into its year and its two-digit month |
| `Labels.MonthLabelInjective` | src/fire_timelapse.py:497 | two month labels are equal exactly when the year and month are |
| `Labels.DayLabelFields` | src/fire_timelapse.py:503 | a `YYYY-MM-DD` label is its month label, a `-` and the two-digit day |
| `Labels.DayLabelInjective` | src/fire_timelapse.py:503 | two day labels are equal exactly when the dates are |
| `BarChart.MonthlyCounts` | src/fire_timelapse.py:507-525 | the dict-filling loops (per-period count or FRP sum, or zeros without data) give exactly `MonthlyCountsSpec`, an empty dict in daily mode |
| `BarChart.FillKeys` | src/fire_timelapse.py:510-519 | whatever the labels, the dict keys are listed once each, they are the mapped keys, and every period label is a key |
| `BarChart.FillDistinct` | src/fire_timelapse.py:510-519 | with distinct labels, the keys are the labels in period order and each label maps to its own period's count or FRP sum |
| `BarChart.MonthlyChart` | src/fire_timelapse.py:507-523 | in monthly mode every month's label is a key, in order, mapping to the number or FRP sum of the detections dated within the period; every value is 0 without detections; daily mode leaves the dict empty |
| `BarChart.MonthlyHits` | src/fire_timelapse.py:510-514 | a detection counts in the monthly bars once when it is dated from the first of the start month to the end date, and not at all otherwise |
| `BarChart.MonthlyTotal` | src/fire_timelapse.py:510-519 | the monthly bar heights add up to the count or FRP sum over the whole charted range |
| `BarChart.ChartTotal` | src/fire_timelapse.py:507-519 | the dict's values, in key order, add up to the count or FRP sum of the charted range |
| `BarChart.HighlightIndex` | src/fire_timelapse.py:717-723 | `months.index(label)` finds the bar of the frame's own month: it is that period's position |
| `BarChart.TickStep` | src/fire_timelapse.py:753-760 | the tick step is 1, 2, 3 or 6 |
| `BarChart.TickRangeShape` | src/fire_timelapse.py:762 | `range(from, n, step)` holds `from + k*step` below `n`, as many as fit |
| `BarChart.TickPositions` | src/fire_timelapse.py:753-763 | ticks go on bars `0, step, 2*step, …` up to the last step before the end, and there are at most twelve up to 72 months |
| `Frames.EvenDimension` | src/fire_timelapse.py:795-796 | the padded side is the least even size not below the original side, and equal to it exactly when the side is even |
| `Frames.EvenDimensionIdempotent` | src/fire_timelapse.py:795-796 | padding an even side changes nothing |
| `Frames.PadToEvenSpec` | src/fire_timelapse.py:795-800 | the padded frame has even sides, keeps every original pixel in place, fills the rest with white, and is the frame itself when both sides are even |
| `Frames.PadToEvenIdempotent` | src/fire_timelapse.py:795-800 | a padded frame needs no more padding |
| `Frames.CompileVideo` | src/fire_timelapse.py:824-848 | the loading loop and the hold loop hand the encoder exactly `VideoFrames`, `FrameCount` frames in all, and the reported total is the source's `ReportedTotal`, the files plus the hold |
| `Frames.VideoShape` | src/fire_timelapse.py:829-833 | the video starts with the loaded frames unchanged and ends on the last one; exactly `hold_last_frame` copies of it are added when there is a frame and the hold is positive, none otherwise; an empty list stays empty |
| `Frames.FrameCount` | src/fire_timelapse.py:829-833 | the length of the held video for any `files` loaded frames: none without files, the files plus the hold when it is positive, otherwise the files |
| `Frames.VideoLength` | src/fire_timelapse.py:829-833 | the video holds `FrameCount` frames |
| `Frames.ReportedTotalAgrees` | src/fire_timelapse.py:847-848 | the reported total equals the written one exactly when there is a frame and the hold is positive, or the hold is zero |
| `Frames.ReportedTotalMiscounts` | src/fire_timelapse.py:847-848 | two frames with a hold of -1: two frames are written, one is reported |

## Left out

- HTTP, `raise_for_status` and CSV parsing are not modelled. Each attempt is an outcome given as input: a reply with its text and parsed rows, or a request exception with its message. Exceptions `read_csv` might raise on a reply are not modelled.
- The on-disk cache and its md5-keyed path are not modelled. The cache file is an input (absent, unreadable, or content with the rows it parses to), and the write is an output.
- The global rate limiter (the 0.3-second minimum gap measured with `time.time`) is not modelled: it is wall-clock timing with float seconds. Only the retry delay and the backoff sleeps are recorded.
- `get_map_key`, `load_aoi`, `get_bounding_box` and `clip_fires_to_aoi` are not modelled. They are environment and file lookups and floating-point geometry. The detections the bar chart counts (the clipped table) are an input.
- `validate_dates` is not modelled: it does string parsing and compares against the clock. The dates are inputs, valid by precondition, and the chunker takes day ordinals.
- Rendering is not modelled: matplotlib, KDE, basemaps, colours, axis geometry, and the `%b '%y` text of the tick labels.
- Video encoding, `cleanup_frames` and `main` are not modelled: they are foreign libraries and the filesystem. `CompileVideo` takes `imread` as a function.
- The printed text is not modelled. Progress messages are left out. The end-of-run summary of `fetch_fire_data` is the output `FireData.Report`: the warning alone, or the counters, the failure count, the first ten failed ranges and the detection count. The frame total of `compile_video` is the output `totalFrames`.
- `Calendar.ValidDate`: the `datetime` upper bound of year 9999 is not modelled. `Labels` writes `%Y` zero-padded to four digits.
- `DateChunks.GenerateDateChunks`: the chunker's day ordinals are unbounded. Near 9999-12-31 the source raises `OverflowError` when it adds `chunk_size - 1` days (line 213) or `max_total_days - 1` days (line 204), before `min` clamps the sum to the end date. The model has no such error.
- `ChunkFetch.Lower`: only ASCII letters are lowered. For the comparison with `no data` this is exact. Outside ASCII, only the Kelvin sign and U+0130 lower to ASCII letters (`k`, and `i` with a combining dot), and neither letter occurs in `no data`.
- `BarChart.MonthlyCounts`: the test for an `frp` column is taken as always true, as it is for FIRMS tables. Counts, FRP sums and the integer 0 are all `real`.
- `BarChart.MonthlyCounts`: detection dates are whole days, so comparing them with the period limits is comparing dates. The source compares `datetime`s at midnight.
- `Frames.PadToEven`: the conversion of a non-RGB frame with even sides (source lines 802-804) is not modelled; an image is rows of RGB pixels.
- `DateChunks.GenerateDateChunks` requires a chunk size of at least 1 and a non-negative `max_total_days`. On a non-empty range (`start <= end`), a chunk size of 0 loops forever (lines 213 and 218 leave `current` where it was). A negative chunk size or `max_total_days` walks backwards from the start and ends in `OverflowError` below year 1. On an empty range the loops stop at once, for any values, but the model still requires them. The only caller passes 10 and 365.
- `ChunkFetch.FetchSingleChunk` requires exactly three outcomes, one per possible attempt. Outcomes after the first reply are ignored.

## Findings

| source | as written | input that shows it | evidently intended | confidence | as-written member | corrected member |
|---|---|---|---|---|---|---|
| src/fire_timelapse.py:848 | the reported total is the number of frame files plus `hold_last_frame`, whatever the hold loop did | two frame files with `hold_last_frame = -1`: two frames are written, one is reported (an empty list with the default hold reports 3 frames for none) | the number of frames handed to the encoder | not executed; `main` always passes the default hold and at least one frame, so only other callers see it | `Frames.ReportedTotalMiscounts` | `Frames.FrameCount` |
| src/fire_timelapse.py:357-359 | without any table the function prints the no-data warning and returns before the cache statistics and the failed ranges are printed | a 25-day range whose three chunks fail every attempt with `403 Forbidden`: three failed ranges are collected, none is printed, and the run looks like an area without fires | failed ranges and the failure count printed whenever chunks failed, so that an outage is told apart from an absence of fires | not executed; the early return is deliberate for the empty table, but skipping the failure report with it looks unintended | `FireData.ThreeSilentFailures` | `FireData.SurfacedReportCountsGaps` |
| src/fire_timelapse.py:293 | an error counts as rate limiting when `403` or `Forbidden` occurs anywhere in its text, and an HTTP error's text ends with the request URL, which holds the map key, the bounding box and the date | a 500 error for a box whose west edge is -119.403: the text contains `403`, so the retries back off 5 and 10 seconds instead of 1 and 2 | the long backoff only when the server answered 403 | not executed; it costs only extra waiting | `ChunkFetch.CoordinateLooksRateLimited` | `ChunkFetch.StatusBackoffOnlyOn403` |
