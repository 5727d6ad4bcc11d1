# search-benchmark-game: a Dafny model of the result tooling and the query drivers

This project models the parts of turbopuffer's search-benchmark-game that decide what a benchmark
run produces and how its results are read back, and proves properties of that model.

- **The history page** (`make_html_index.py`) has several parts:
  - It reads run directories named after the instant of the run (`YYYY-MM-DDThh-mm-ss`).
  - It finds the latest run that has a `results.json`, with the result types and query order
    taken from that run.
  - It walks the build tree in name order. Along the way it collects, per result type and query,
    the minimum latency of every run, and records the dated annotations.
  - It sorts each series by date, then prepares the chart data, the default result type and the
    order in which the charts are shown.
- **The comparison script** (`diff_results.py`) prints, category by category, a header and one
  row per contender query. Each row gives the two means and the percent change, coloured green
  when the change is not positive.
- **The corpus filter** (`corpus_transform.py`) turns each JSON line into a record.
  - The record carries the url as its id and the lower-cased body with every run of non-letters
    replaced by one space.
  - It carries the filter buckets that the url's hash selects (80%, 20% and 5%), in a `filter`
    field only when there is one.
- **The turbopuffer driver** (`engines/turbopuffer/src/bin/do_query.rs`) does three things:
  - It splits each input line into a command and a query.
  - It looks the command up in its table of seventeen commands.
  - It builds the request body: a count aggregate or a BM25 ranking, with the bucket's filter
    and a token filter.
- **The two Lucene drivers** (`engines/lucene-10.3.0/.../DoQuery.java` and
  `engines/lucene-10.3.0-bp/.../DoQuery.java`) trim and split each line. The standard driver
  alone strips one `_FILTER_<bucket>` suffix into a filter clause. Both then dispatch on the
  command and print one count per line.

Module by module:

| file | module | models |
|---|---|---|
| `wrappers.dfy` | `Wrappers` | `Option` |
| `sorting.dfy` | `Sorting` | Python's stable `sort(key=...)` as insertion sort under a total preorder |
| `text.dfy` | `Text` | Python's string order, `sorted()` of a set of strings, `split` on one character, decimal formatting |
| `run_dates.dfy` | `RunDates` | `parse_date_from_dirname`, `isoformat()`, the order of instants |
| `artifact.dfy` | `Artifact` | the `results.json` document |
| `html_index_runs.dfy` | `HtmlIndexRuns` | `extract_min_latency`, latest-run selection, `get_available_result_types`, `get_query_order_from_latest` |
| `html_index_collect.dfy` | `HtmlIndexCollect` | `collect_data_from_build_dir` |
| `html_index_display.dfy` | `HtmlIndexDisplay` | the top of `generate_html`: chart data, default result type, display order |
| `diff_results.dfy` | `DiffResults` | `print_diff`, `print_diff_engine` |
| `corpus_transform.dfy` | `CorpusTransform` | `transform` and the per-line loop |
| `turbopuffer_query.dfy` | `TurbopufferQuery` | the turbopuffer `do_query` driver |
| `lucene_query.dfy` | `LuceneQuery` | the standard Lucene `DoQuery` driver |
| `lucene_bp_query.dfy` | `LuceneBpQuery` | the block-partitioned Lucene `DoQuery` driver |

Loops in the source are methods with loop invariants. Each method is proved equal to a function
that specifies it, and the properties are proved about those functions.

The build tree is a sequence of directory entries. Each entry has a name, whether it is a
directory, and its `results.json`: missing, unreadable, or loaded.

Things the model takes as parameters:

- The url hash of the corpus filter.
- Whether the Lucene parser accepts a query.
- The hit counts the Lucene searcher returns.
- Whether Java assertions are enabled.

## Behaviour worth noting

- **Query order keeps repeats.** `get_query_order_from_latest` appends every non-empty query
  it meets, duplicates included (make_html_index.py:158-162). A query listed twice is shown
  twice (`HtmlIndexDisplay.RepeatedQueryShownTwice`).
- **A contender query missing from the baseline ends the run.** `print_diff_engine` prints a
  warning for it, then fails with `KeyError` at diff_results.py:32. The report ends with the
  warning line and the raised key (`DiffResults.MissingQueryStops`).
- **A JSON `null` is not an absent key.** A baseline entry whose `query` or `duration` is
  `null` is stored under the key `None` or with the value `None` (diff_results.py:25). A
  contender entry whose `query` is `null` looks up `None`: when no baseline entry had a `null`
  query, the warning shows `[None]` and the `KeyError` names `None` (diff_results.py:30-32);
  when one did, `len(None)` at diff_results.py:35 raises `TypeError`. A `null` duration on
  either side reaches `np.mean` and raises `TypeError` (`DiffResults.NullValueStops`,
  `DiffResults.NullQueries`).
- **The latest run is the dated directory with the greatest date whose `results.json`
  exists**, whether or not that file loads (make_html_index.py:132-146). When it does not load,
  the query order is empty, and no older run is tried (make_html_index.py:148-167).
- **An annotation is recorded for every dated directory the walk sees**, even one without a
  `results.json` (make_html_index.py:204-219).
- **With no runs, the result types fall back to `['TOP_10']`** (make_html_index.py:186-187).
- **Series are sorted by date after the walk** (make_html_index.py:238-240).
- **The display order comes from the latest run overall.** It is that run's order for the first
  result type (make_html_index.py:243), filtered against the charts of the default result type,
  with the remaining queries after it in sorted order (make_html_index.py:282-292).
- **Java `assert` only checks when assertions are enabled.** The JVM disables them by default.
  With assertions off, a line with fewer than two fields fails at `fields[1]`, and extra fields
  are ignored (engines/lucene-10.3.0/src/main/java/DoQuery.java:39-42).

## Model

| member | source | states |
|---|---|---|
| RunDates.Valid | make_html_index.py:25-30 | defines what `datetime` accepts: years 1 to 9999, months 1 to 12, days within the month with Gregorian leap years, hours, minutes and seconds in range; every parsed name gives such an instant (`RunDates.ParseDirName`) |
| RunDates.WellFormedName | make_html_index.py:25-30 | defines the zero-padded shape of `%Y-%m-%dT%H-%M-%S`, `T` in either case; parsing succeeds exactly on these names when the instant is valid (`RunDates.ParseDirNameExactly`) |
| RunDates.DateLe | make_html_index.py:81 | defines `datetime` comparison, lexicographic on the six fields; a total preorder (`RunDates.DateOrderIsTotalPreorder`) |
| RunDates.DirName | make_html_index.py:25-30 | defines the directory name of an instant; parsing and naming are inverse (`RunDates.ParsedNameIsDirName`, `RunDates.DirNameParses`) |
| RunDates.Format | make_html_index.py:209 | defines the fixed-width rendering behind directory names and ISO strings; it compares as the instants do (`RunDates.FormatKeepsOrder`) |
| RunDates.IsoFormat | make_html_index.py:209 | defines `date.isoformat()` without microseconds or time zone; ISO strings compare as the instants do (`RunDates.FormatKeepsOrder`) |
| RunDates.ParseDirName | make_html_index.py:25-30 | a name that parses gives a valid calendar instant |
| RunDates.ParseDirNameExactly | make_html_index.py:25-30 | a name parses to `d` exactly when `d` is valid and the name is `d` written as `%Y-%m-%dT%H-%M-%S` (the `T` in either case) |
| RunDates.ParsedNameIsDirName | make_html_index.py:25-30 | a parsed name is the directory name of the instant it parses to |
| RunDates.DirNameParses | make_html_index.py:25-30 | the directory name of a valid instant parses back to it |
| RunDates.DateOrderIsTotalPreorder | make_html_index.py:81 | comparing instants is a total preorder, so `max(..., key=date)` and the date sort are well defined |
| RunDates.FormatKeepsOrder | make_html_index.py:195-209 | for valid instants, the fixed-width directory name or ISO string compares as a string exactly as the instants compare in time |
| HtmlIndexRuns.EngineResults | make_html_index.py:41-43 | defines the turbopuffer entries of a category, none when a level is missing; `HtmlIndexRuns.ExtractMinLatency` reads them |
| HtmlIndexRuns.MinLatencies | make_html_index.py:46-52 | defines the dictionary the loop builds; its keys are exactly the measured queries (`HtmlIndexRuns.MinLatenciesKeys`) and the last entry wins (`HtmlIndexRuns.MinLatenciesLastWins`) |
| HtmlIndexRuns.QueryOrder | make_html_index.py:158-162 | defines the non-empty queries in artifact order, repeats kept (`HtmlIndexRuns.QueryOrderMembers`, `HtmlIndexRuns.MeasuredQueriesAreOrdered`) |
| HtmlIndexRuns.CandidateDate | make_html_index.py:68-75 | defines the date of a dated directory whose `results.json` exists, none otherwise (`HtmlIndexRuns.CandidateDatesAt`) |
| HtmlIndexRuns.IsLatest | make_html_index.py:77-81 | defines the latest run: a candidate with the greatest date, the first listed among equals (`HtmlIndexRuns.LatestIsUnique`, `HtmlIndexRuns.MaxIsLatest`, `HtmlIndexRuns.FindLatest`) |
| HtmlIndexRuns.CategoriesOf | make_html_index.py:83-91 | defines the sorted category names of a loaded artifact, none for an unreadable one (`HtmlIndexRuns.AvailableResultTypes`) |
| HtmlIndexRuns.OrderOf | make_html_index.py:148-167 | defines the query order of a loaded artifact's category, none for an unreadable one (`HtmlIndexRuns.QueryOrderFromLatest`) |
| HtmlIndexRuns.Min | make_html_index.py:51 | `min(durations)` is one of the samples and is at most every sample |
| HtmlIndexRuns.ExtractMinLatency | make_html_index.py:33-54 | the loop builds the latency dictionary of the turbopuffer entries of the category (an absent or `null` query or duration gives nothing) |
| HtmlIndexRuns.MinLatenciesKeys | make_html_index.py:46-52 | a query gets a latency exactly when some entry has it as a non-empty query with at least one sample |
| HtmlIndexRuns.MinLatenciesLastWins | make_html_index.py:46-52 | the latency of a query is the minimum of the last entry that measured it |
| HtmlIndexRuns.QueryOrderMembers | make_html_index.py:158-164 | the query order lists exactly the non-empty query strings of the entries |
| HtmlIndexRuns.MeasuredQueriesAreOrdered | make_html_index.py:158-164 | every query that gets a latency appears in the run's query order |
| HtmlIndexRuns.CandidateDates | make_html_index.py:68-75 | one candidate date per directory entry |
| HtmlIndexRuns.CandidateDatesAt | make_html_index.py:68-75 | the candidate at a position is the date of a dated directory whose `results.json` exists, else none |
| HtmlIndexRuns.DateDirs | make_html_index.py:67-75 | `date_dirs` holds only candidates, with their dates, in listing order |
| HtmlIndexRuns.DateDirsComplete | make_html_index.py:67-75 | every candidate is in `date_dirs` |
| HtmlIndexRuns.ListDateDirs | make_html_index.py:66-75 | the listing loop builds `date_dirs` |
| HtmlIndexRuns.MaxByDate | make_html_index.py:81 | `max` by date: a greatest date, the first among equals |
| HtmlIndexRuns.LatestIsUnique | make_html_index.py:81 | at most one entry is the latest run |
| HtmlIndexRuns.MaxIsLatest | make_html_index.py:77-81 | the maximum of `date_dirs` is the latest run |
| HtmlIndexRuns.FindLatest | make_html_index.py:66-81 | no latest run exactly when no entry is a dated directory with `results.json`; otherwise it returns the latest |
| HtmlIndexRuns.NoLatest | make_html_index.py:77-78 | without candidates there is no latest run |
| HtmlIndexRuns.LatestHasArtifact | make_html_index.py:69-75 | the latest run is a directory whose `results.json` exists |
| HtmlIndexRuns.AvailableResultTypes | make_html_index.py:57-91 | the sorted, distinct category names of the latest run; empty without runs or when its file cannot be read |
| HtmlIndexRuns.QueryOrderFromLatest | make_html_index.py:122-167 | the query order of the latest run's category; empty without runs or when its file cannot be read |
| Text.SortedElements | make_html_index.py:88 | `sorted()` of a set of strings: increasing, each element once, exactly the set's elements |
| Text.StringOrderIsTotalPreorder | make_html_index.py:289 | Python's string comparison is a total preorder |
| Sorting.InsertionSort | make_html_index.py:240 | the sort yields a sorted permutation of its input, and elements ranked equal keep their relative order (`Sorting.SortIsStable`) |
| Sorting.Insert | make_html_index.py:240 | inserting into a sorted list keeps it sorted and adds exactly the element |
| Sorting.Equivalents | make_html_index.py:240 | defines the elements ranked equal to a given one, in order; the sort keeps them in that order (`Sorting.SortIsStable`) |
| Sorting.InsertStable | make_html_index.py:240 | inserting an element puts it before every element ranked equal to it, and keeps their order |
| Sorting.SortIsStable | make_html_index.py:240 | the sort is stable: the elements ranked equal to any given one appear in the same order before and after |
| Sorting.SortedIsFixed | make_html_index.py:240 | sorting an already sorted list changes nothing (the sort is stable) |
| HtmlIndexCollect.Normalise | make_html_index.py:206-214 | defines the stored annotation: a string becomes `{'text': ...}`, a dict is kept, anything else its printed text (`HtmlIndexCollect.NoteLastWins`) |
| HtmlIndexCollect.ByName | make_html_index.py:195 | defines the name comparison of `sorted(iterdir())`; a total preorder (`HtmlIndexCollect.ByNameIsTotalPreorder`) |
| HtmlIndexCollect.ByDate | make_html_index.py:240 | defines the sort key `x[0]`; a total preorder (`HtmlIndexCollect.ByDateIsTotalPreorder`) |
| HtmlIndexCollect.Start | make_html_index.py:190 | defines `{rt: defaultdict(list) for rt in result_types}` (`HtmlIndexCollect.GatherData`) |
| HtmlIndexCollect.AddPoints | make_html_index.py:230-231 | defines the appends of one run for one result type (`HtmlIndexCollect.AddPointsPointwise`, `HtmlIndexCollect.AppendLatencies`) |
| HtmlIndexCollect.VisitData | make_html_index.py:196-235 | defines what one directory of the walk adds to the data (`HtmlIndexCollect.Visit`) |
| HtmlIndexCollect.VisitNotes | make_html_index.py:204-214 | defines what one directory of the walk adds to the annotations (`HtmlIndexCollect.VisitNotesKeys`, `HtmlIndexCollect.Visit`) |
| HtmlIndexCollect.GatherNotes | make_html_index.py:195-214 | defines `date_annotations` after the walk (`HtmlIndexCollect.NoteKeys`, `HtmlIndexCollect.NoteLastWins`) |
| HtmlIndexCollect.SortQueries | make_html_index.py:239-240 | defines the sort of every series of one result type (`HtmlIndexCollect.SortEachQuery`, `HtmlIndexCollect.SortQueriesTwice`) |
| HtmlIndexCollect.SortAll | make_html_index.py:238-240 | defines the sort pass over every result type (`HtmlIndexCollect.SortPass`) |
| HtmlIndexCollect.FirstType | make_html_index.py:243 | defines `result_types[0] if result_types else 'TOP_10'` (`HtmlIndexCollect.CollectData`) |
| HtmlIndexCollect.SeriesOf | make_html_index.py:194-240 | defines a query's points run by run, independently of the walk's state; the collected series are these points sorted (`HtmlIndexCollect.GatheredSeries`, `HtmlIndexCollect.CollectedSeries`) |
| HtmlIndexCollect.ByNameIsTotalPreorder | make_html_index.py:195 | ordering entries by name is a total preorder |
| HtmlIndexCollect.SortedEntries | make_html_index.py:195 | `sorted(iterdir())`: the entries in name order, a permutation of the listing |
| HtmlIndexCollect.ByDateIsTotalPreorder | make_html_index.py:240 | ordering points by date is a total preorder |
| HtmlIndexCollect.RunDate | make_html_index.py:196-202 | a run directory's date is a valid instant |
| HtmlIndexCollect.AddRun | make_html_index.py:226-231 | one run adds to existing result types only, and never leaves a query with an empty series |
| HtmlIndexCollect.AddRunAt | make_html_index.py:226-231 | with distinct result types, a run adds to each listed type exactly its own latencies, dated by the run, and nothing to other types |
| HtmlIndexCollect.GatherData | make_html_index.py:190-235 | the gathered data has exactly the result types asked for, and no empty series |
| HtmlIndexCollect.GatheredSeries | make_html_index.py:194-235 | a query's points are one per loaded dated run that measured it, in walk order |
| HtmlIndexCollect.SortSeries | make_html_index.py:240 | one series, sorted by date, a permutation of the points; equal dates keep their order (`HtmlIndexCollect.SortSeriesStable`) |
| HtmlIndexCollect.SortSeriesStable | make_html_index.py:240 | points with equal dates keep the order the walk added them in |
| HtmlIndexCollect.CollectedSeries | make_html_index.py:194-240 | a query has a series exactly when some run measured it; the series is sorted by date and holds exactly those runs' points |
| HtmlIndexCollect.VisitNotesKeys | make_html_index.py:204-214 | one directory adds the ISO date it annotates and keeps the others |
| HtmlIndexCollect.NoteKeyFrom | make_html_index.py:204-214 | an annotated date was annotated by some directory of the walk |
| HtmlIndexCollect.NoteKeyKept | make_html_index.py:204-214 | a date some directory annotates is annotated at the end of the walk |
| HtmlIndexCollect.NoteKeys | make_html_index.py:204-214 | a date is annotated exactly when some dated directory has an annotation for it |
| HtmlIndexCollect.NoteLastWins | make_html_index.py:204-214 | of several directories annotating one date, the last one walked wins, with a string turned into `{'text': ...}` |
| HtmlIndexCollect.AddPointsPointwise | make_html_index.py:230-231 | a series with exactly one new dated point per measured query is the series after the run |
| HtmlIndexCollect.AppendLatencies | make_html_index.py:230-231 | the loop appends one dated point per query of the run |
| HtmlIndexCollect.RecordRun | make_html_index.py:226-231 | the loop over result types records the run in every one |
| HtmlIndexCollect.AddRunStep | make_html_index.py:226-231 | one more result type of that loop adds that type's latencies |
| HtmlIndexCollect.SortEachQuery | make_html_index.py:239-240 | every query's points sorted by date |
| HtmlIndexCollect.SortQueriesTwice | make_html_index.py:238-240 | sorting twice (a repeated result type) is sorting once |
| HtmlIndexCollect.SortPass | make_html_index.py:238-240 | the sorting pass sorts every series of every result type |
| HtmlIndexCollect.ChooseResultTypes | make_html_index.py:183-187 | the given result types; else the latest run's categories, or `['TOP_10']` when there are none |
| HtmlIndexCollect.Visit | make_html_index.py:195-235 | one walked entry: a dated directory records its annotation, and its run when `results.json` loads |
| HtmlIndexCollect.Walk | make_html_index.py:194-235 | the walk's data and annotations are the folds over the entries in order |
| HtmlIndexCollect.CollectData | make_html_index.py:170-245 | the chosen result types, the sorted data of the walk in name order, its annotations, and the latest run's order for the first result type |
| HtmlIndexDisplay.DefaultCategory | make_html_index.py:264 | `TOP_10` when listed, else the first result type, else `TOP_10` |
| HtmlIndexDisplay.ChartSeriesOf | make_html_index.py:272-273 | dates as ISO strings and latencies, position by position |
| HtmlIndexDisplay.ChartDatesSorted | make_html_index.py:272 | the chart's date strings are increasing exactly when the points are in date order |
| HtmlIndexDisplay.ChartOf | make_html_index.py:269-277 | defines the chart data of one result type (`HtmlIndexDisplay.ChartEachQuery`) |
| HtmlIndexDisplay.ChartEachQuery | make_html_index.py:269-277 | the loop builds one chart series per query |
| HtmlIndexDisplay.AllChartData | make_html_index.py:267-278 | a chart for exactly the result types, or `KeyError` exactly when one has no data |
| HtmlIndexDisplay.Filtered | make_html_index.py:287 | defines `[q for q in query_order if q in chart_data]` (`HtmlIndexDisplay.FilteredMembers`, `HtmlIndexDisplay.FilteredNoDuplicates`) |
| HtmlIndexDisplay.DisplayOrder | make_html_index.py:283-292 | defines the display order (`HtmlIndexDisplay.DisplayOrderCovers`, `HtmlIndexDisplay.DisplayOrderShape`, `HtmlIndexDisplay.DisplayOrderDistinct`) |
| HtmlIndexDisplay.FilteredMembers | make_html_index.py:287 | the filtered order holds exactly the ordered queries that have a chart |
| HtmlIndexDisplay.FilteredNoDuplicates | make_html_index.py:287 | filtering keeps an order free of repeats |
| HtmlIndexDisplay.DisplayOrderCovers | make_html_index.py:285-292 | a chart is shown for exactly the queries that have data |
| HtmlIndexDisplay.DisplayOrderShape | make_html_index.py:285-292 | ordered queries come before the others, and the others are in increasing order |
| HtmlIndexDisplay.DisplayOrderDistinct | make_html_index.py:285-292 | with an order free of repeats, each query is shown exactly once |
| HtmlIndexDisplay.RepeatedQueryShownTwice | make_html_index.py:285-290 | a query listed twice in the order is shown twice |
| HtmlIndexDisplay.PrepareView | make_html_index.py:264-292 | `KeyError` exactly when there is no result type or one has no data; otherwise the default type, every chart and the display order |
| DiffResults.Mean | diff_results.py:38-41 | defines `np.mean` over exact reals, NaN for no samples (`DiffResults.IdenticalSamples`, `DiffResults.HalvedLatencies`) |
| DiffResults.Div | diff_results.py:42 | defines float64 division with infinities and NaN (`DiffResults.ZeroBaseline`) |
| DiffResults.Change | diff_results.py:42 | defines `100 * (contender_mean - baseline_mean) / baseline_mean` (`DiffResults.ChangeSign`, `DiffResults.ZeroBaseline`, `DiffResults.IdenticalSamples`) |
| DiffResults.IsGreen | diff_results.py:44 | defines `change <= 0`, false for NaN (`DiffResults.ChangeSign`, `DiffResults.ZeroBaseline`) |
| DiffResults.RowFor | diff_results.py:35-44 | defines a row: truncated query, both means, the change and its colour (`DiffResults.RowsMatchContender`) |
| DiffResults.IndexOf | diff_results.py:23-25 | defines the baseline dictionary or the missing key (`DiffResults.IndexFails`, `DiffResults.IndexKeys`, `DiffResults.IndexLastWins`, `DiffResults.BaselineIndex`) |
| DiffResults.EntryReport | diff_results.py:28-44 | defines what one contender entry prints and raises (`DiffResults.ReadEntry`, `DiffResults.MissingQueryStops`, `DiffResults.NullValueStops`) |
| DiffResults.EngineRows | diff_results.py:27-44 | defines the contender loop's output (`DiffResults.RowsMatchContender`, `DiffResults.EngineRowsPlain`) |
| DiffResults.EngineDiff | diff_results.py:22-44 | defines `print_diff_engine` (`DiffResults.DiffEngine`, `DiffResults.NullQueries`) |
| DiffResults.HeadLines | diff_results.py:14-19 | defines the blank line, header and column titles of a category (`DiffResults.PrintHead`) |
| DiffResults.Categories | diff_results.py:11-20 | defines the walk over the categories still to visit (`DiffResults.DiffSkip`, `DiffResults.DiffNoEngine`, `DiffResults.DiffRows`) |
| DiffResults.DiffReport | diff_results.py:9-20 | defines `print_diff` (`DiffResults.Diff`, `DiffResults.HeadersAreSharedCategories`) |
| DiffResults.Shared | diff_results.py:11-13 | defines the baseline categories the contender also has, in order (`DiffResults.HeadersAreSharedCategories`) |
| DiffResults.Truncate | diff_results.py:35-36 | a query longer than 64 characters is cut to 63 followed by `…`; shorter ones are kept |
| DiffResults.MissingPersists | diff_results.py:23-25 | once a baseline entry lacks a key, indexing fails with that key |
| DiffResults.BaselineIndex | diff_results.py:23-25 | the loop builds the baseline dictionary, a `null` query or duration stored as `None`, or fails with `KeyError` on the first missing key (`duration` checked before `query`) |
| DiffResults.IndexFails | diff_results.py:23-25 | indexing fails exactly when some baseline entry lacks the key `query` or `duration`; a `null` value does not make it fail |
| DiffResults.IndexKeys | diff_results.py:23-25 | the dictionary's keys are exactly the baseline queries, `None` for a `null` one |
| DiffResults.IndexLastWins | diff_results.py:23-25 | a query listed twice keeps the samples (or `None`) of its last entry |
| DiffResults.RowsMatchContender | diff_results.py:27-44 | without a raise, one row per contender entry, in order, from the baseline samples of its query |
| DiffResults.MissingQueryStops | diff_results.py:27-32 | a contender query missing from the baseline, `null` included, prints its warning last and raises `KeyError` naming it (`None` for `null`) |
| DiffResults.NullValueStops | diff_results.py:31-40 | a found query whose query, baseline duration or own duration is `null` raises `TypeError` after the rows before it |
| DiffResults.NullQueries | diff_results.py:25-35 | a `null` baseline query is stored, so a `null` contender query finds it and raises `TypeError`; without it the warning shows `[None]` and the `KeyError` names `None` |
| DiffResults.ReadEntry | diff_results.py:28-44 | the loop body for one contender entry yields its row, or its warning and `KeyError`, or the `KeyError` of a missing key, or the `TypeError` of a `null` |
| DiffResults.EngineRowsPlain | diff_results.py:27-44 | the engine rows hold no header and no blank line |
| DiffResults.DiffEngine | diff_results.py:22-44 | the engine loop computes the rows, the warning and the exception (`KeyError` with its key, or `TypeError`) of `print_diff_engine` |
| DiffResults.HeadersAreSharedCategories | diff_results.py:9-20 | headers are printed for exactly the shared categories, in baseline order, with a blank line between consecutive ones |
| DiffResults.DiffSkip | diff_results.py:11-13 | a category the contender lacks is passed over |
| DiffResults.DiffNoEngine | diff_results.py:14-20 | a shared category without the turbopuffer engine on both sides ends the report with `KeyError` after its header |
| DiffResults.DiffRows | diff_results.py:14-20 | a shared category adds its header and rows, and ends the report if they raise |
| DiffResults.PrintHead | diff_results.py:14-19 | the separating blank line (not before the first), the bold header and the column titles |
| DiffResults.Diff | diff_results.py:9-20 | the walk over the baseline's categories produces the whole report |
| DiffResults.IdenticalSamples | diff_results.py:38-44 | identical samples with a non-zero mean show a change of 0, in green |
| DiffResults.ChangeSign | diff_results.py:42-44 | with a positive baseline mean the change is negative exactly when the contender is faster, and green exactly when it is not slower |
| DiffResults.ZeroBaseline | diff_results.py:42-44 | a zero baseline mean gives an infinite change, or NaN shown red when both means are zero |
| DiffResults.HalvedLatencies | diff_results.py:38-42 | baseline samples averaging 100 against ones averaging 50 show a change of -50% |
| CorpusTransform.Lower | corpus_transform.py:8 | lower-casing keeps letters letters and gives lower-case ones |
| CorpusTransform.LowerAll | corpus_transform.py:8 | `text.lower()` character by character |
| CorpusTransform.Collapse | corpus_transform.py:5-8 | defines `re.sub("[^a-zA-Z]+", " ", s)` (`CorpusTransform.CollapseAlphabet`, `CorpusTransform.CollapseHead`, `CorpusTransform.CollapseNoDoubleSpaces`, `CorpusTransform.CollapseKeepsLetters`, `CorpusTransform.CollapseFixed`) |
| CorpusTransform.Transform | corpus_transform.py:7-8 | defines `transform(text)` (`CorpusTransform.TransformShape`, `CorpusTransform.TransformIdempotent`, `CorpusTransform.TransformKeepsLetters`) |
| CorpusTransform.DropNonLetters | corpus_transform.py:5 | the leading run of non-letters removed, and no more |
| CorpusTransform.CollapseAlphabet | corpus_transform.py:5-8 | the substitution leaves only letters and spaces |
| CorpusTransform.CollapseNoUpper | corpus_transform.py:5-8 | the substitution adds no upper-case letter |
| CorpusTransform.CollapseHead | corpus_transform.py:5-8 | the output starts with a space only where the input starts with a non-letter |
| CorpusTransform.CollapseNoDoubleSpaces | corpus_transform.py:5-8 | every run of non-letters becomes one space, so no two spaces are adjacent |
| CorpusTransform.TransformShape | corpus_transform.py:7-8 | the transformed text holds only lower-case letters and single spaces |
| CorpusTransform.CollapseFixed | corpus_transform.py:5-8 | a text already in that shape is left unchanged by the substitution |
| CorpusTransform.LowerFixed | corpus_transform.py:8 | lower-casing a lower-case text changes nothing |
| CorpusTransform.TransformIdempotent | corpus_transform.py:7-8 | transforming twice is transforming once |
| CorpusTransform.DropKeepsLetters | corpus_transform.py:5 | dropping non-letters keeps every letter |
| CorpusTransform.CollapseKeepsLetters | corpus_transform.py:5-8 | the substitution keeps the letters, in order |
| CorpusTransform.TransformKeepsLetters | corpus_transform.py:7-8 | the letters of the output are the lower-cased letters of the input, in order |
| CorpusTransform.Buckets | corpus_transform.py:21-29 | 80% exactly when `h % 100 < 80`, 20% exactly when `h % 5 == 3`, 5% exactly when `h % 20 == 13`, in that order |
| CorpusTransform.FiveInTwenty | corpus_transform.py:26-29 | every document in the 5% bucket is in the 20% bucket |
| CorpusTransform.BucketsPeriodic | corpus_transform.py:24-29 | the buckets depend only on the hash modulo 100 |
| CorpusTransform.TagBuckets | corpus_transform.py:21-29 | the appending sequence builds the bucket list |
| CorpusTransform.Outcome | corpus_transform.py:10-38 | a malformed line or empty url is skipped; a missing url or body raises `KeyError`; otherwise the record has the url as id, the transformed body, and `filter` exactly when some bucket applies |
| CorpusTransform.TransformLine | corpus_transform.py:11-38 | the per-line body builds that outcome |
| CorpusTransform.CorpusOutput | corpus_transform.py:10-38 | defines the records the script prints, up to a `KeyError` (`CorpusTransform.TransformCorpus`, `CorpusTransform.RecordsFollowUrls`) |
| CorpusTransform.CorpusOutputStep | corpus_transform.py:10-38 | a skipped line adds nothing, a raising line ends the output, an emitted record comes first |
| CorpusTransform.CorpusAdvance | corpus_transform.py:10-38 | a skipped or emitting line moves the loop on |
| CorpusTransform.CorpusStops | corpus_transform.py:17 | a `KeyError` ends the run with the records printed before it |
| CorpusTransform.TransformCorpus | corpus_transform.py:10-38 | the loop prints the records of the input in order, up to the first `KeyError` |
| CorpusTransform.RecordsFollowUrls | corpus_transform.py:10-38 | without errors, one record per line with a non-empty url, in order, each with that url as its id |
| Text.Split | engines/turbopuffer/src/bin/do_query.rs:22 | `split("\t")` gives at least one field, none containing a tab |
| Text.SplitJoin | engines/turbopuffer/src/bin/do_query.rs:22 | joining the fields with tabs gives the line back |
| Text.SplitCount | engines/turbopuffer/src/bin/do_query.rs:22-27 | there is one field more than there are tabs |
| Text.SplitTwo | engines/turbopuffer/src/bin/do_query.rs:22-29 | a command and a query without tabs, joined by one tab, split into exactly those two |
| Text.SplitNone | engines/turbopuffer/src/bin/do_query.rs:22 | a line without a tab is one field |
| TurbopufferQuery.Supported | engines/turbopuffer/src/bin/do_query.rs:31-47 | defines, independently of the table, the seventeen supported entries (`TurbopufferQuery.CommandTableExactly`) |
| TurbopufferQuery.CommandName | engines/turbopuffer/src/bin/do_query.rs:31-47 | defines, independently of the table, the command naming an entry (`TurbopufferQuery.CommandTableExactly`) |
| TurbopufferQuery.CommandTable | engines/turbopuffer/src/bin/do_query.rs:30-52 | defines the `match command` table (`TurbopufferQuery.TableDomain`, `TurbopufferQuery.CommandTableExactly`, `TurbopufferQuery.UnsupportedCommand`) |
| TurbopufferQuery.TableDomain | engines/turbopuffer/src/bin/do_query.rs:30-52 | the table has a row for the seventeen listed commands only |
| TurbopufferQuery.TableEntryNamed | engines/turbopuffer/src/bin/do_query.rs:30-47 | every row is a supported entry, and the command selecting it is its name |
| TurbopufferQuery.NameInTable | engines/turbopuffer/src/bin/do_query.rs:30-47 | the name of every supported entry selects that entry |
| TurbopufferQuery.CommandTableExactly | engines/turbopuffer/src/bin/do_query.rs:30-52 | a command selects an entry exactly when the entry is supported and the command is its name |
| TurbopufferQuery.UnsupportedCommand | engines/turbopuffer/src/bin/do_query.rs:48-51 | a command is reported unsupported exactly when it names no supported entry |
| TurbopufferQuery.IsIntersection | engines/turbopuffer/src/bin/do_query.rs:55 | defines `query.contains("+")` (`TurbopufferQuery.FilterList`) |
| TurbopufferQuery.FilterList | engines/turbopuffer/src/bin/do_query.rs:55-66 | the bucket filter first when there is one, then all tokens for an intersection or any token for a count; so at most two, never none for a count |
| TurbopufferQuery.BuildFilters | engines/turbopuffer/src/bin/do_query.rs:55-66 | the `filters.push` sequence builds that list |
| TurbopufferQuery.RequestBody | engines/turbopuffer/src/bin/do_query.rs:67-118 | a count aggregate for `top_k == 0`, otherwise a ranking with the query and `top_k`; one filter goes bare, several under `And`, none leaves the ranking unfiltered |
| TurbopufferQuery.BodyCarriesFilters | engines/turbopuffer/src/bin/do_query.rs:67-118 | the body sends exactly the filter list, and wraps it only when it does not hold exactly one filter |
| TurbopufferQuery.PlainTopKIsUnfiltered | engines/turbopuffer/src/bin/do_query.rs:100-105 | a top-k request without bucket over a plain query has no filters |
| TurbopufferQuery.LineEvent | engines/turbopuffer/src/bin/do_query.rs:22-52 | the assertion fails exactly when the line does not split into two fields; an unknown command is reported by name |
| TurbopufferQuery.LineSends | engines/turbopuffer/src/bin/do_query.rs:22-118 | a well-formed line sends the body built from its command's entry and its query |
| TurbopufferQuery.Events | engines/turbopuffer/src/bin/do_query.rs:20-52 | defines the driver's events up to a panic (`TurbopufferQuery.Run`, `TurbopufferQuery.EventsPerLine`) |
| TurbopufferQuery.EventsAdvance | engines/turbopuffer/src/bin/do_query.rs:20-52 | a line with an event moves the loop on |
| TurbopufferQuery.EventsStop | engines/turbopuffer/src/bin/do_query.rs:23-27 | a malformed line ends the run with the events before it |
| TurbopufferQuery.HandleLine | engines/turbopuffer/src/bin/do_query.rs:21-119 | the loop body computes the line's event |
| TurbopufferQuery.Run | engines/turbopuffer/src/bin/do_query.rs:20-136 | the loop computes the events of the input, up to a failed assertion |
| TurbopufferQuery.EventsPerLine | engines/turbopuffer/src/bin/do_query.rs:20-27 | the driver stops exactly when some line does not split into two fields; otherwise one event per line |
| LuceneQuery.TrimStart | engines/lucene-10.3.0/src/main/java/DoQuery.java:39 | the leading characters up to U+0020 are removed, and no more |
| LuceneQuery.TrimEnd | engines/lucene-10.3.0/src/main/java/DoQuery.java:39 | the trailing characters up to U+0020 are removed, and no more |
| LuceneQuery.Trim | engines/lucene-10.3.0/src/main/java/DoQuery.java:39 | `trim()` leaves neither end trimmable |
| LuceneQuery.TrimIdempotent | engines/lucene-10.3.0/src/main/java/DoQuery.java:39 | trimming twice is trimming once |
| LuceneQuery.JavaSplit | engines/lucene-10.3.0/src/main/java/DoQuery.java:39 | defines `split("\t")` with the trailing empty fields dropped (`LuceneQuery.DropTrailingEmpty`, `LuceneQuery.JavaSplitTwo`, `LuceneQuery.EmptyQueryIsOneField`) |
| LuceneQuery.DropTrailingEmpty | engines/lucene-10.3.0/src/main/java/DoQuery.java:39 | `split` drops the empty fields at the end, and no more |
| LuceneQuery.JavaSplitTwo | engines/lucene-10.3.0/src/main/java/DoQuery.java:39 | a command and a non-empty query around one tab split into those two |
| LuceneQuery.EmptyQueryIsOneField | engines/lucene-10.3.0/src/main/java/DoQuery.java:39-42 | a line with an empty query reads as one field |
| LuceneQuery.ReadFields | engines/lucene-10.3.0/src/main/java/DoQuery.java:39-42 | the assertion fails exactly when it is enabled and there are not two fields; with it off, fewer than two fields fail at `fields[1]` and more are accepted; the fields read are the first two |
| LuceneQuery.ReadsTwoFields | engines/lucene-10.3.0/src/main/java/DoQuery.java:39-42 | a line of a command and a query with nothing to trim reads as those two |
| LuceneQuery.StripFilterSuffix | engines/lucene-10.3.0/src/main/java/DoQuery.java:44-56 | defines the suffix chain's command and bucket (`LuceneQuery.StripRoundTrip`, `LuceneQuery.StripFindsSuffix`, `LuceneQuery.StripEnding`, `LuceneQuery.StripAppended`, `LuceneQuery.SuffixChain`) |
| LuceneQuery.WithBucket | engines/lucene-10.3.0/src/main/java/DoQuery.java:45-55 | defines the query with the bucket's `FILTER` clause (`LuceneQuery.SuffixChain`, `LuceneQuery.FilteredLine`) |
| LuceneQuery.SuffixesExclusive | engines/lucene-10.3.0/src/main/java/DoQuery.java:25-27 | a command ends with at most one of the three filter suffixes |
| LuceneQuery.StripRoundTrip | engines/lucene-10.3.0/src/main/java/DoQuery.java:44-56 | the stripped command, with the found bucket's suffix put back, is the command; with no bucket found it is unchanged |
| LuceneQuery.StripFindsSuffix | engines/lucene-10.3.0/src/main/java/DoQuery.java:44-56 | a bucket is found exactly when the command ends with its suffix |
| LuceneQuery.StripEnding | engines/lucene-10.3.0/src/main/java/DoQuery.java:44-56 | a command ending with a bucket's suffix loses exactly that suffix |
| LuceneQuery.StripAppended | engines/lucene-10.3.0/src/main/java/DoQuery.java:44-56 | appending a filter suffix is undone by the chain |
| LuceneQuery.StripsOnce | engines/lucene-10.3.0/src/main/java/DoQuery.java:44-56 | only the last suffix is stripped from a doubly filtered command |
| LuceneQuery.SuffixChain | engines/lucene-10.3.0/src/main/java/DoQuery.java:44-56 | the chain cuts the suffix and adds the bucket's filter clause to the query |
| LuceneQuery.DispatchOf | engines/lucene-10.3.0/src/main/java/DoQuery.java:58-100 | defines the `switch (command)` (`LuceneQuery.DispatchCounted`, `LuceneQuery.DispatchTopOnly`, `LuceneQuery.DispatchTopCounted`, `LuceneQuery.DispatchUnsupported`) |
| LuceneQuery.DispatchCounted | engines/lucene-10.3.0/src/main/java/DoQuery.java:59-62 | `COUNT` and `UNOPTIMIZED_COUNT`, and only they, count the hits |
| LuceneQuery.DispatchTopOnly | engines/lucene-10.3.0/src/main/java/DoQuery.java:63-80 | `TOP_<k>` for 10, 100 and 1000, and only they, collect the top `k` with threshold `k` |
| LuceneQuery.DispatchTopCounted | engines/lucene-10.3.0/src/main/java/DoQuery.java:81-95 | `TOP_<k>_COUNT`, and only they, collect the top `k` and count every hit |
| LuceneQuery.DispatchUnsupported | engines/lucene-10.3.0/src/main/java/DoQuery.java:96-99 | every other command is unsupported |
| LuceneQuery.Report | engines/lucene-10.3.0/src/main/java/DoQuery.java:57-101 | the output of a dispatch: the notice and 0 exactly when unsupported, 1 for a plain top-k, the searcher's count for `COUNT`/`UNOPTIMIZED_COUNT` and `TOP_k_COUNT`, always one count line last |
| LuceneQuery.ReportOneCount | engines/lucene-10.3.0/src/main/java/DoQuery.java:96-101 | each dispatch prints exactly one count |
| LuceneQuery.OneCountPerLine | engines/lucene-10.3.0/src/main/java/DoQuery.java:38-102 | without a crash, one count per input line |
| LuceneQuery.LineOutput | engines/lucene-10.3.0/src/main/java/DoQuery.java:39-101 | defines what one line prints or the failure it raises (`LuceneQuery.HandleLine`, `LuceneQuery.SwitchLine`, `LuceneQuery.UnfilteredLine`, `LuceneQuery.FilteredLine`) |
| LuceneQuery.RunOutput | engines/lucene-10.3.0/src/main/java/DoQuery.java:38-102 | defines the driver's output up to a failure (`LuceneQuery.Run`, `LuceneQuery.OneCountPerLine`) |
| LuceneQuery.SwitchLine | engines/lucene-10.3.0/src/main/java/DoQuery.java:39-101 | a line with a command of the switch and a query prints the report of that command's dispatch on the parsed query |
| LuceneQuery.CountLinePrintsHits | engines/lucene-10.3.0/src/main/java/DoQuery.java:59-62 | a `COUNT` or `UNOPTIMIZED_COUNT` line prints the searcher's count of the parsed query |
| LuceneQuery.TopLinePrintsOne | engines/lucene-10.3.0/src/main/java/DoQuery.java:63-80 | a `TOP_<k>` line prints 1, whatever the searcher finds |
| LuceneQuery.TopCountLinePrintsHits | engines/lucene-10.3.0/src/main/java/DoQuery.java:81-95 | a `TOP_<k>_COUNT` line prints the total hits of the top-`k` search that counts up to `Integer.MAX_VALUE` |
| LuceneQuery.UnfilteredLine | engines/lucene-10.3.0/src/main/java/DoQuery.java:39-101 | a command without filter suffix is dispatched as read, on the parsed query |
| LuceneQuery.FilteredLine | engines/lucene-10.3.0/src/main/java/DoQuery.java:44-101 | a filtered command runs its base command on the query with the bucket's filter clause |
| LuceneQuery.HandleLine | engines/lucene-10.3.0/src/main/java/DoQuery.java:39-101 | the loop body computes the line's output or crash |
| LuceneQuery.RunAdvance | engines/lucene-10.3.0/src/main/java/DoQuery.java:38-102 | a printed line moves the loop on |
| LuceneQuery.RunStops | engines/lucene-10.3.0/src/main/java/DoQuery.java:38-102 | a crashing line ends the run with what was printed before it |
| LuceneQuery.Run | engines/lucene-10.3.0/src/main/java/DoQuery.java:38-102 | the read loop computes the output of the input, up to the first crash |
| LuceneBpQuery.BpDriver | engines/lucene-10.3.0-bp/src/main/java/DoQuery.java:29-80 | defines the bp driver, the standard one without the suffix chain (`LuceneBpQuery.RunBp`, `LuceneBpQuery.FilteredCountUnsupported`) |
| LuceneBpQuery.FilteredCommandUnsupported | engines/lucene-10.3.0-bp/src/main/java/DoQuery.java:36-78 | a command ending with a filter suffix matches no case of the switch |
| LuceneBpQuery.FilteredLineUnsupported | engines/lucene-10.3.0-bp/src/main/java/DoQuery.java:30-79 | a readable, parsable filtered line prints `UNSUPPORTED` and 0 |
| LuceneBpQuery.DriversAgreeWithoutSuffix | engines/lucene-10.3.0-bp/src/main/java/DoQuery.java:30-79 | on a command without filter suffix the two drivers print the same |
| LuceneBpQuery.FilteredCountCounted | engines/lucene-10.3.0/src/main/java/DoQuery.java:52-62 | the standard driver counts `COUNT_FILTER_5%` on the query with the 5% filter clause |
| LuceneBpQuery.FilteredCountUnsupported | engines/lucene-10.3.0-bp/src/main/java/DoQuery.java:30-79 | the bp driver reports `COUNT_FILTER_5%` unsupported |
| LuceneBpQuery.RunBp | engines/lucene-10.3.0-bp/src/main/java/DoQuery.java:29-80 | the bp read loop is the standard one without the suffix chain, one count per line when nothing crashes |

## Left out

- File system access, `json.load`, the HTML and JavaScript templates, the ANSI colour codes, the
  column layout of the printed rows and the command-line handling are not modelled. The build
  tree is given as a list of entries, and a JSON document as a value.
- `get_latest_comparison_index_path` and the link at the top of `generate_html`
  (make_html_index.py:94-119, 248-262) are not modelled: they only build a path for the page.
- RunDates.ParseDirName: accepts only the zero-padded form with ASCII digits. `strptime` also
  accepts one-digit fields and leading spaces, and its `\d` matches any Unicode decimal digit, so
  a name such as `٢٠٢٥-11-30T10-52-49` (Arabic-Indic digits for the year) parses in Python but not
  in the model. No run directory uses these forms.
- HtmlIndexRuns.ExtractMinLatency: a JSON value of the wrong type (a list where an object is
  expected, a number as a query) is not modelled; a `results` object that is `null` is treated
  as absent. For `query` and `duration`, `.get` gives `None` for both an absent key and `null`,
  and the model treats both alike there.
- HtmlIndexCollect.Visit: an exception part-way through one run's result types keeps the points
  already added. The model treats a `results.json` as either loading whole or not at all.
- HtmlIndexCollect.CollectData: the missing build directory (`FileNotFoundError`) is not
  modelled.
- An annotation that is neither a string nor a dict is kept as its printed text, which the
  model is given; `str()` of an arbitrary value is not modelled.
- Latencies and durations are exact reals. Float rounding and the two-decimal formatting are not
  modelled.
- DiffResults.RowFor: the standard deviations and the t-test p-value are not modelled (numpy and
  scipy statistics); a row holds the two means, the change and its colour.
- DiffResults.Div: the sign of a zero divisor is taken as positive (a mean of `-0.0` is not
  modelled).
- CorpusTransform.Outcome: Python's `hash()` is a parameter (it is salted per process). A JSON
  line that is valid but not an object, or whose `url` or `body` is not a string, is not
  modelled.
- CorpusTransform.LowerAll: lower-casing is modelled for ASCII letters only, one character to
  one character. Python's `str.lower()` also maps some non-ASCII characters to ASCII letters:
  `İ` (U+0130) becomes `i` followed by U+0307, and the Kelvin sign (U+212A) becomes `k`, so
  Python's `transform("\u212a")` is `"k"` where the model gives `" "`. `lower()` can also change
  the length of the text. CorpusTransform.Transform and CorpusTransform.TransformKeepsLetters
  describe the ASCII model only.
- TurbopufferQuery.Run: the HTTP request, the response, the `exhaustive_search_count` assertion
  and the printed counts are not modelled. The model stops at the body each line sends.
- TurbopufferQuery.RequestBody: the fixed fields (`aggregate_by`, `consistency`, `rank_by`'s
  `BM25`) are implied by the body's kind, not spelt out.
- LuceneQuery.Run: query parsing and searching are parameters (the Lucene library). A parse
  failure is a crash, and the hit counts are given by a function of the search.
- `build_index.rs` and the other engines are not part of this model.
