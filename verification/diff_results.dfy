/**
 * `diff_results.py`: the comparison of two benchmark artifacts, category by category and query
 * by query, as the lines it prints. Sample means and the percent change follow the value rules
 * of numpy's float64 (infinities and NaN), computed over exact reals.
 */
module DiffResults {
  import opened Wrappers
  import opened Artifact

  /** A float64 value: finite, an infinity, or NaN. */
  datatype Num = Finite(r: real) | PosInf | NegInf | NaN

  function Sum(xs: seq<real>): real {
    if xs == [] then 0.0 else Sum(xs[..|xs| - 1]) + xs[|xs| - 1]
  }

  /** `np.mean`: NaN for no samples. */
  function Mean(xs: seq<real>): Num {
    if xs == [] then NaN else Finite(Sum(xs) / (|xs| as real))
  }

  /** `a - b` */
  function Sub(a: Num, b: Num): Num {
    match (a, b)
    case (Finite(x), Finite(y)) => Finite(x - y)
    case (NaN, _) => NaN
    case (_, NaN) => NaN
    case (PosInf, PosInf) => NaN
    case (NegInf, NegInf) => NaN
    case (PosInf, _) => PosInf
    case (NegInf, _) => NegInf
    case (_, PosInf) => NegInf
    case (_, NegInf) => PosInf
  }

  /** `100 * a` */
  function Times100(a: Num): Num {
    match a
    case Finite(x) => Finite(100.0 * x)
    case _ => a
  }

  /** `a / b`, with the divisor's zero taken as positive. */
  function Div(a: Num, b: Num): Num {
    match (a, b)
    case (NaN, _) => NaN
    case (_, NaN) => NaN
    case (Finite(x), Finite(y)) =>
      if y != 0.0 then Finite(x / y)
      else if x > 0.0 then PosInf
      else if x < 0.0 then NegInf
      else NaN
    case (Finite(_), _) => Finite(0.0)
    case (PosInf, Finite(y)) => if y < 0.0 then NegInf else PosInf
    case (NegInf, Finite(y)) => if y < 0.0 then PosInf else NegInf
    case (_, _) => NaN
  }

  /** `100 * (contender_mean - baseline_mean) / baseline_mean` */
  function Change(baseline: Num, contender: Num): Num {
    Div(Times100(Sub(contender, baseline)), baseline)
  }

  /** `change <= 0`, false for NaN: the change is shown in green, otherwise in red. */
  predicate IsGreen(change: Num) {
    match change
    case Finite(x) => x <= 0.0
    case NegInf => true
    case _ => false
  }

  /** The longest query text a row shows. */
  const Width: nat := 64

  /** `query_str[:63] + "…"` for a query longer than 64 characters. */
  function Truncate(s: string): (t: string)
    ensures |t| <= Width
    ensures |s| <= Width ==> t == s
    ensures |s| > Width ==> |t| == Width && t[..Width - 1] == s[..Width - 1] && t[Width - 1] == '…'
  {
    if |s| > Width then s[..Width - 1] + "…" else s
  }

  /** One printed line; a warning about a `null` query shows `[None]`. */
  datatype Line =
    | Blank
    | Header(category: string)
    | ColumnTitles
    | Warning(query: Option<string>)
    | Row(shown: string, baselineMean: Num, contenderMean: Num, change: Num, green: bool)

  /**
   * The Python exception that ended a run: a `KeyError` with its key, which is `None` for a
   * `null` query, or the `TypeError` of handing `None` to `len` or `np.mean`.
   */
  datatype Raised = KeyError(key: Option<string>) | TypeError

  /** What a run prints, and the exception that ended it, if one did. */
  datatype Report = Report(lines: seq<Line>, raised: Option<Raised>)

  /** The row of one query. */
  function RowFor(query: string, baseline: seq<real>, contender: seq<real>): Line {
    var change := Change(Mean(baseline), Mean(contender));
    Row(Truncate(query), Mean(baseline), Mean(contender), change, IsGreen(change))
  }

  /**
   * The dictionary `baseline_query_to_latencies`, or the key an entry lacks. A `null` query is
   * stored under the key `None`, and a `null` duration as the value `None`.
   */
  datatype Index = Built(latencies: map<Option<string>, Option<seq<real>>>) | Missing(key: string)

  /**
   * The indexing loop over the baseline entries. Python evaluates `query["duration"]` before
   * `query["query"]`, so an entry lacking both fails on `duration`.
   */
  function IndexOf(entries: seq<QueryResult>): Index {
    if entries == [] then Built(map[])
    else
      var n := |entries| - 1;
      var e := entries[n];
      match IndexOf(entries[..n])
      case Missing(key) => Missing(key)
      case Built(m) =>
        if e.duration.Absent? then Missing("duration")
        else if e.query.Absent? then Missing("query")
        else Built(m[ValueOf(e.query) := ValueOf(e.duration)])
  }

  /** Once an entry lacks a field, the whole index fails with that key. */
  lemma {:induction false} MissingPersists(entries: seq<QueryResult>, i: nat)
    requires i <= |entries| && IndexOf(entries[..i]).Missing?
    ensures IndexOf(entries) == IndexOf(entries[..i])
    decreases |entries| - i
  {
    if i < |entries| {
      var n := |entries| - 1;
      assert entries[..n][..i] == entries[..i];
      MissingPersists(entries[..n], i);
    } else {
      assert entries[..i] == entries;
    }
  }

  /** `baseline_query_to_latencies[query["query"]] = query["duration"]` for every baseline entry. */
  method BaselineIndex(entries: seq<QueryResult>) returns (index: Index)
    ensures index == IndexOf(entries)
  {
    var m: map<Option<string>, Option<seq<real>>> := map[];
    var i := 0;
    while i < |entries|
      invariant 0 <= i <= |entries|
      invariant IndexOf(entries[..i]) == Built(m)
    {
      var e := entries[i];
      assert entries[..i + 1][..i] == entries[..i];
      if e.duration.Absent? {
        MissingPersists(entries, i + 1);
        return Missing("duration");
      }
      if e.query.Absent? {
        MissingPersists(entries, i + 1);
        return Missing("query");
      }
      m := m[ValueOf(e.query) := ValueOf(e.duration)];
      i := i + 1;
    }
    assert entries[..i] == entries;
    index := Built(m);
  }

  /** Indexing fails exactly when some entry lacks a field; a `null` field does not make it fail. */
  lemma {:induction false} IndexFails(entries: seq<QueryResult>)
    ensures IndexOf(entries).Missing? <==>
      exists i :: 0 <= i < |entries| && (entries[i].query.Absent? || entries[i].duration.Absent?)
  {
    if entries != [] {
      var n := |entries| - 1;
      IndexFails(entries[..n]);
      if exists i :: 0 <= i < n && (entries[..n][i].query.Absent? || entries[..n][i].duration.Absent?) {
        var i :| 0 <= i < n && (entries[..n][i].query.Absent? || entries[..n][i].duration.Absent?);
        assert entries[i] == entries[..n][i];
      }
      if exists i :: 0 <= i < |entries| && (entries[i].query.Absent? || entries[i].duration.Absent?) {
        var i :| 0 <= i < |entries| && (entries[i].query.Absent? || entries[i].duration.Absent?);
        if i < n { assert entries[..n][i] == entries[i]; }
      }
    }
  }

  /** Every key of the index is the query of some baseline entry, `None` for a `null` one. */
  lemma {:induction false} IndexKeys(entries: seq<QueryResult>, q: Option<string>)
    requires IndexOf(entries).Built?
    ensures q in IndexOf(entries).latencies <==> exists i :: 0 <= i < |entries| && ValueOf(entries[i].query) == q
  {
    if entries != [] {
      var n := |entries| - 1;
      IndexKeys(entries[..n], q);
      if exists i :: 0 <= i < n && ValueOf(entries[..n][i].query) == q {
        var i :| 0 <= i < n && ValueOf(entries[..n][i].query) == q;
        assert entries[i] == entries[..n][i];
      }
      if exists i :: 0 <= i < |entries| && ValueOf(entries[i].query) == q {
        var i :| 0 <= i < |entries| && ValueOf(entries[i].query) == q;
        if i < n { assert entries[..n][i] == entries[i]; }
      }
    }
  }

  /** A query listed several times in the baseline keeps the samples of its last entry. */
  lemma {:induction false} IndexLastWins(entries: seq<QueryResult>, i: nat)
    requires IndexOf(entries).Built? && i < |entries|
    requires forall j :: i < j < |entries| ==> ValueOf(entries[j].query) != ValueOf(entries[i].query)
    ensures !entries[i].query.Absent? && !entries[i].duration.Absent?
    ensures ValueOf(entries[i].query) in IndexOf(entries).latencies
    ensures IndexOf(entries).latencies[ValueOf(entries[i].query)] == ValueOf(entries[i].duration)
  {
    var n := |entries| - 1;
    if i < n {
      assert entries[..n][i] == entries[i];
      forall j | i < j < n ensures ValueOf(entries[..n][j].query) != ValueOf(entries[..n][i].query) {
        assert entries[..n][j] == entries[j];
      }
      IndexLastWins(entries[..n], i);
    }
  }

  /** A contender entry that gets its row: a string query whose baseline samples and own samples are lists. */
  predicate Matched(index: map<Option<string>, Option<seq<real>>>, e: QueryResult) {
    && e.query.Present? && Some(e.query.value) in index && index[Some(e.query.value)].Some?
    && e.duration.Present?
  }

  /** The row of a matched entry. */
  function RowOf(index: map<Option<string>, Option<seq<real>>>, e: QueryResult): Line
    requires Matched(index, e)
  {
    RowFor(e.query.value, index[Some(e.query.value)].value, e.duration.value)
  }

  /**
   * What one contender entry prints, and the exception it raises if it ends the run. A query the
   * baseline lacks prints a warning before its `KeyError`; a missing key raises `KeyError`; a
   * `null` query, baseline duration or duration that gets past those raises `TypeError`.
   */
  function EntryReport(index: map<Option<string>, Option<seq<real>>>, e: QueryResult): Report {
    if e.query.Absent? then Report([], Some(KeyError(Some("query"))))
    else
      var q := ValueOf(e.query);
      if q !in index then Report([Warning(q)], Some(KeyError(q)))
      else if e.duration.Absent? then Report([], Some(KeyError(Some("duration"))))
      else if q.None? || index[q].None? || e.duration.Null? then Report([], Some(TypeError))
      else Report([RowOf(index, e)], None)
  }

  /** The loop over the contender entries: each entry's lines, until one ends the run. */
  function EngineRows(index: map<Option<string>, Option<seq<real>>>, contender: seq<QueryResult>): Report {
    if contender == [] then Report([], None)
    else
      var r := EntryReport(index, contender[0]);
      if r.raised.Some? then r
      else
        var rest := EngineRows(index, contender[1..]);
        Report(r.lines + rest.lines, rest.raised)
  }

  /** `print_diff_engine(baseline, contender)` */
  function EngineDiff(baseline: seq<QueryResult>, contender: seq<QueryResult>): Report {
    match IndexOf(baseline)
    case Missing(key) => Report([], Some(KeyError(Some(key))))
    case Built(index) => EngineRows(index, contender)
  }

  /**
   * When nothing is raised, there is one row per contender entry, in order, computed from the
   * samples the baseline index holds for its query.
   */
  lemma {:induction false} RowsMatchContender(index: map<Option<string>, Option<seq<real>>>, contender: seq<QueryResult>)
    requires EngineRows(index, contender).raised.None?
    ensures var lines := EngineRows(index, contender).lines;
      && |lines| == |contender|
      && forall i :: 0 <= i < |contender| ==> Matched(index, contender[i]) && lines[i] == RowOf(index, contender[i])
  {
    if contender != [] {
      RowsMatchContender(index, contender[1..]);
      var lines := EngineRows(index, contender).lines;
      forall i | 1 <= i < |contender| ensures lines[i] == EngineRows(index, contender[1..]).lines[i - 1] {
      }
    }
  }

  /**
   * A contender query missing from the baseline, `null` included: its warning is the last line
   * printed, and the `KeyError` names it.
   */
  lemma {:induction false} MissingQueryStops(index: map<Option<string>, Option<seq<real>>>, contender: seq<QueryResult>, i: nat)
    requires i < |contender| && !contender[i].query.Absent? && ValueOf(contender[i].query) !in index
    requires forall j :: 0 <= j < i ==> Matched(index, contender[j])
    ensures var r := EngineRows(index, contender);
      && |r.lines| == i + 1
      && r.lines[i] == Warning(ValueOf(contender[i].query))
      && r.raised == Some(KeyError(ValueOf(contender[i].query)))
  {
    if i > 0 {
      forall j | 0 <= j < i - 1 ensures Matched(index, contender[1..][j]) {
        assert contender[1..][j] == contender[j + 1];
      }
      MissingQueryStops(index, contender[1..], i - 1);
    }
  }

  /**
   * An entry whose query is in the index but whose query, baseline samples or own samples are
   * `null` ends the run with a `TypeError` after the rows before it.
   */
  lemma {:induction false} NullValueStops(index: map<Option<string>, Option<seq<real>>>, contender: seq<QueryResult>, i: nat)
    requires i < |contender| && !contender[i].query.Absent? && ValueOf(contender[i].query) in index
    requires !contender[i].duration.Absent?
    requires contender[i].query.Null? || index[ValueOf(contender[i].query)].None? || contender[i].duration.Null?
    requires forall j :: 0 <= j < i ==> Matched(index, contender[j])
    ensures var r := EngineRows(index, contender);
      && |r.lines| == i
      && r.raised == Some(TypeError)
  {
    if i > 0 {
      forall j | 0 <= j < i - 1 ensures Matched(index, contender[1..][j]) {
        assert contender[1..][j] == contender[j + 1];
      }
      NullValueStops(index, contender[1..], i - 1);
    }
  }

  /**
   * A baseline entry with a `null` query is stored rather than refused, so a contender entry with
   * a `null` query finds it and fails on `len(None)`; without it, the warning shows `[None]`.
   */
  lemma NullQueries()
    ensures EngineDiff([QueryResult(Null, Present([5.0]))], [QueryResult(Null, Present([4.0]))]) == Report([], Some(TypeError))
    ensures EngineDiff([], [QueryResult(Null, Present([4.0]))]) == Report([Warning(None)], Some(KeyError(None)))
  {
    assert [QueryResult(Null, Present([5.0]))][..0] == [];
  }

  /** The body of the contender loop for one entry. */
  method ReadEntry(index: map<Option<string>, Option<seq<real>>>, e: QueryResult) returns (r: Report)
    ensures r == EntryReport(index, e)
  {
    if e.query.Absent? {
      return Report([], Some(KeyError(Some("query"))));
    }
    var query := ValueOf(e.query);
    if query !in index {
      return Report([Warning(query)], Some(KeyError(query)));
    }
    if e.duration.Absent? {
      return Report([], Some(KeyError(Some("duration"))));
    }
    var samples := index[query];
    if query.None? || samples.None? || e.duration.Null? {
      return Report([], Some(TypeError));
    }
    r := Report([RowFor(query.value, samples.value, e.duration.value)], None);
  }

  /** The contender loop's invariant: `lines`, then what the entries from `i` on print, is the whole output. */
  predicate EngineFrom(index: map<Option<string>, Option<seq<real>>>, contender: seq<QueryResult>, i: nat, lines: seq<Line>)
    requires i <= |contender|
  {
    var rest := EngineRows(index, contender[i..]);
    EngineRows(index, contender) == Report(lines + rest.lines, rest.raised)
  }

  /** One entry of the contender loop: it either ends the output or extends the printed lines. */
  lemma EngineAdvance(index: map<Option<string>, Option<seq<real>>>, contender: seq<QueryResult>, i: nat, lines: seq<Line>)
    requires i < |contender| && EngineFrom(index, contender, i, lines)
    ensures var r := EntryReport(index, contender[i]);
      && (r.raised.Some? ==> EngineRows(index, contender) == Report(lines + r.lines, r.raised))
      && (r.raised.None? ==> EngineFrom(index, contender, i + 1, lines + r.lines))
  {
    var tail := contender[i..];
    assert tail != [] && tail[0] == contender[i] && tail[1..] == contender[i + 1..];
    var r := EntryReport(index, contender[i]);
    var rest := EngineRows(index, contender[i + 1..]);
    if r.raised.Some? {
      assert EngineRows(index, tail) == r;
      assert lines + r.lines + [] == lines + r.lines;
    } else {
      assert EngineRows(index, tail) == Report(r.lines + rest.lines, rest.raised);
      assert lines + (r.lines + rest.lines) == lines + r.lines + rest.lines;
    }
  }

  /** The `query_str not in baseline_query_to_latencies` branch and the rows, one entry at a time. */
  method DiffEngine(baseline: seq<QueryResult>, contender: seq<QueryResult>) returns (report: Report)
    ensures report == EngineDiff(baseline, contender)
  {
    var index := BaselineIndex(baseline);
    if index.Missing? {
      return Report([], Some(KeyError(Some(index.key))));
    }
    var lines: seq<Line> := [];
    var i := 0;
    assert contender[0..] == contender && [] + EngineRows(index.latencies, contender).lines == EngineRows(index.latencies, contender).lines;
    while i < |contender|
      invariant 0 <= i <= |contender|
      invariant EngineFrom(index.latencies, contender, i, lines)
    {
      var entry := ReadEntry(index.latencies, contender[i]);
      EngineAdvance(index.latencies, contender, i, lines);
      lines := lines + entry.lines;
      if entry.raised.Some? {
        return Report(lines, entry.raised);
      }
      i := i + 1;
    }
    assert contender[i..] == [] && lines + [] == lines;
    report := Report(lines, None);
  }

  /** The lines before a category's rows: a blank line unless it is the first, its header and the column titles. */
  function HeadLines(category: string, first: bool): seq<Line> {
    (if first then [] else [Blank]) + [Header(category), ColumnTitles]
  }

  /** The per-category part of `print_diff`, for the categories `names` still to visit. */
  function Categories(names: seq<string>, baseline: Results, contender: Results, first: bool): Report
    requires forall n :: n in names ==> n in baseline.categories
  {
    if names == [] then Report([], None)
    else
      var category := names[0];
      if category !in contender.categories then Categories(names[1..], baseline, contender, first)
      else
        var head := HeadLines(category, first);
        if Engine !in baseline.categories[category] || Engine !in contender.categories[category] then
          Report(head, Some(KeyError(Some(Engine))))
        else
          var part := EngineDiff(baseline.categories[category][Engine], contender.categories[category][Engine]);
          if part.raised.Some? then Report(head + part.lines, part.raised)
          else
            var rest := Categories(names[1..], baseline, contender, false);
            Report(head + part.lines + rest.lines, rest.raised)
  }

  /** `print_diff(baseline, contender)` on the two `results` objects. */
  function DiffReport(baseline: Results, contender: Results): Report {
    Categories(baseline.names, baseline, contender, true)
  }

  /** The baseline's categories that the contender also has, in baseline order. */
  function Shared(names: seq<string>, contender: Results): seq<string> {
    if names == [] then []
    else (if names[0] in contender.categories then [names[0]] else []) + Shared(names[1..], contender)
  }

  /** The categories whose headers are printed, in order. */
  function Headers(lines: seq<Line>): seq<string> {
    if lines == [] then []
    else (if lines[0].Header? then [lines[0].category] else []) + Headers(lines[1..])
  }

  function Blanks(lines: seq<Line>): nat {
    if lines == [] then 0 else (if lines[0].Blank? then 1 else 0) + Blanks(lines[1..])
  }

  lemma {:induction false} HeadersAppend(a: seq<Line>, b: seq<Line>)
    ensures Headers(a + b) == Headers(a) + Headers(b)
    ensures Blanks(a + b) == Blanks(a) + Blanks(b)
  {
    if a != [] {
      var c := a + b;
      assert c[0] == a[0] && c[1..] == a[1..] + b;
      HeadersAppend(a[1..], b);
      assert Headers(c) == (if a[0].Header? then [a[0].category] else []) + Headers(a[1..] + b);
      assert Blanks(c) == (if a[0].Blank? then 1 else 0) + Blanks(a[1..] + b);
    } else {
      assert a + b == b;
    }
  }

  /** Engine rows hold no headers and no blank lines. */
  lemma {:induction false} EngineRowsPlain(index: map<Option<string>, Option<seq<real>>>, contender: seq<QueryResult>)
    ensures Headers(EngineRows(index, contender).lines) == []
    ensures Blanks(EngineRows(index, contender).lines) == 0
  {
    if contender != [] && Matched(index, contender[0]) {
      EngineRowsPlain(index, contender[1..]);
      HeadersAppend(EntryReport(index, contender[0]).lines, EngineRows(index, contender[1..]).lines);
    }
  }

  /**
   * When the walk finishes, a header was printed for exactly the shared categories, in baseline
   * order, with one blank line between consecutive ones and none before the first.
   */
  lemma {:induction false} HeadersAreSharedCategories(names: seq<string>, baseline: Results, contender: Results, first: bool)
    requires forall n :: n in names ==> n in baseline.categories
    requires Categories(names, baseline, contender, first).raised.None?
    ensures Headers(Categories(names, baseline, contender, first).lines) == Shared(names, contender)
    ensures Blanks(Categories(names, baseline, contender, first).lines) ==
      if first && Shared(names, contender) != [] then |Shared(names, contender)| - 1 else |Shared(names, contender)|
  {
    if names != [] {
      var category := names[0];
      if category !in contender.categories {
        HeadersAreSharedCategories(names[1..], baseline, contender, first);
      } else {
        var head := HeadLines(category, first);
        var part := EngineDiff(baseline.categories[category][Engine], contender.categories[category][Engine]);
        var rest := Categories(names[1..], baseline, contender, false);
        HeadersAreSharedCategories(names[1..], baseline, contender, false);
        if IndexOf(baseline.categories[category][Engine]).Built? {
          EngineRowsPlain(IndexOf(baseline.categories[category][Engine]).latencies, contender.categories[category][Engine]);
        }
        HeadersAppend(head, part.lines);
        HeadersAppend(head + part.lines, rest.lines);
        assert Headers(head) == [category] by {
          assert Headers([ColumnTitles]) == [];
          HeadersAppend([Header(category)], [ColumnTitles]);
          if !first { HeadersAppend([Blank], [Header(category), ColumnTitles]); }
        }
        assert Blanks(head) == if first then 0 else 1 by {
          HeadersAppend([Header(category)], [ColumnTitles]);
          if !first { HeadersAppend([Blank], [Header(category), ColumnTitles]); }
        }
      }
    }
  }

  /** The loop's invariant: `lines`, then what the categories from `i` on print, is the whole report. */
  predicate DiffFrom(i: nat, lines: seq<Line>, first: bool, baseline: Results, contender: Results)
    requires i <= |baseline.names|
  {
    var rest := Categories(baseline.names[i..], baseline, contender, first);
    DiffReport(baseline, contender) == Report(lines + rest.lines, rest.raised)
  }

  /** A category the contender lacks is passed over. */
  lemma DiffSkip(i: nat, lines: seq<Line>, first: bool, baseline: Results, contender: Results)
    requires i < |baseline.names| && DiffFrom(i, lines, first, baseline, contender)
    requires baseline.names[i] !in contender.categories
    ensures DiffFrom(i + 1, lines, first, baseline, contender)
  {
    var names := baseline.names;
    assert names[i..][0] == names[i] && names[i..][1..] == names[i + 1..];
  }

  /** A shared category without the engine in both runs ends the report after its header. */
  lemma DiffNoEngine(i: nat, lines: seq<Line>, first: bool, baseline: Results, contender: Results)
    requires i < |baseline.names| && DiffFrom(i, lines, first, baseline, contender)
    requires baseline.names[i] in contender.categories
    requires Engine !in baseline.categories[baseline.names[i]] || Engine !in contender.categories[baseline.names[i]]
    ensures DiffReport(baseline, contender) == Report(lines + HeadLines(baseline.names[i], first), Some(KeyError(Some(Engine))))
  {
    var names := baseline.names;
    assert names[i..][0] == names[i];
    assert (lines + HeadLines(names[i], first)) + [] == lines + HeadLines(names[i], first);
  }

  /** A shared category with the engine in both runs adds its rows, and stops the report if they raise. */
  lemma DiffRows(i: nat, lines: seq<Line>, first: bool, baseline: Results, contender: Results, part: Report)
    requires i < |baseline.names| && DiffFrom(i, lines, first, baseline, contender)
    requires baseline.names[i] in contender.categories
    requires Engine in baseline.categories[baseline.names[i]] && Engine in contender.categories[baseline.names[i]]
    requires part == EngineDiff(baseline.categories[baseline.names[i]][Engine], contender.categories[baseline.names[i]][Engine])
    ensures part.raised.Some? ==>
      DiffReport(baseline, contender) == Report(lines + HeadLines(baseline.names[i], first) + part.lines, part.raised)
    ensures part.raised.None? ==> DiffFrom(i + 1, lines + HeadLines(baseline.names[i], first) + part.lines, false, baseline, contender)
  {
    var names := baseline.names;
    assert names[i..][0] == names[i] && names[i..][1..] == names[i + 1..];
    var head := HeadLines(names[i], first);
    var rest := Categories(names[i + 1..], baseline, contender, false);
    assert lines + (head + part.lines) + [] == lines + head + part.lines;
    assert lines + (head + part.lines + rest.lines) == lines + head + part.lines + rest.lines;
  }

  /** The blank line that separates a category from the one before it, then its header and column titles. */
  method PrintHead(lines0: seq<Line>, category: string, first0: bool) returns (lines: seq<Line>, first: bool)
    ensures lines == lines0 + HeadLines(category, first0) && !first
  {
    lines, first := lines0, first0;
    if first {
      first := false;
    } else {
      lines := lines + [Blank];
    }
    lines := lines + [Header(category), ColumnTitles];
  }

  /** `print_diff`: the walk over the baseline's categories with the `first` flag. */
  method Diff(baseline: Results, contender: Results) returns (report: Report)
    ensures report == DiffReport(baseline, contender)
  {
    var names := baseline.names;
    var lines: seq<Line> := [];
    var first := true;
    var i := 0;
    assert names[0..] == names && [] + Categories(names, baseline, contender, true).lines == Categories(names, baseline, contender, true).lines;
    while i < |names|
      invariant 0 <= i <= |names|
      invariant DiffFrom(i, lines, first, baseline, contender)
    {
      var category := names[i];
      if category !in contender.categories {
        DiffSkip(i, lines, first, baseline, contender);
        i := i + 1;
        continue;
      }
      ghost var before, wasFirst := lines, first;
      lines, first := PrintHead(lines, category, first);
      var engines := baseline.categories[category];
      if Engine !in engines || Engine !in contender.categories[category] {
        DiffNoEngine(i, before, wasFirst, baseline, contender);
        return Report(lines, Some(KeyError(Some(Engine))));
      }
      var part := DiffEngine(engines[Engine], contender.categories[category][Engine]);
      DiffRows(i, before, wasFirst, baseline, contender, part);
      lines := lines + part.lines;
      if part.raised.Some? {
        return Report(lines, part.raised);
      }
      i := i + 1;
    }
    assert names[i..] == [] && lines + [] == lines;
    report := Report(lines, None);
  }

  /** Identical non-empty samples with a non-zero mean show a change of 0, in green. */
  lemma IdenticalSamples(xs: seq<real>)
    requires xs != [] && Sum(xs) != 0.0
    ensures Change(Mean(xs), Mean(xs)) == Finite(0.0)
    ensures IsGreen(Change(Mean(xs), Mean(xs)))
  {
    var m := Sum(xs) / (|xs| as real);
    assert m != 0.0;
    assert Mean(xs) == Finite(m);
    assert Sub(Finite(m), Finite(m)) == Finite(0.0);
    assert Times100(Finite(0.0)) == Finite(0.0);
    assert Div(Finite(0.0), Finite(m)) == Finite(0.0 / m);
  }

  /**
   * With a positive baseline mean, the change is negative exactly when the contender is faster,
   * and green exactly when it is not slower.
   */
  lemma ChangeSign(b: real, c: real)
    requires b > 0.0
    ensures Change(Finite(b), Finite(c)).Finite?
    ensures Change(Finite(b), Finite(c)).r < 0.0 <==> c < b
    ensures IsGreen(Change(Finite(b), Finite(c))) <==> c <= b
  {
    var x := 100.0 * (c - b);
    assert Change(Finite(b), Finite(c)) == Finite(x / b);
    QuotientSign(x, b);
  }

  /** Dividing by a positive number keeps the sign. */
  lemma QuotientSign(x: real, b: real)
    requires b > 0.0
    ensures x / b < 0.0 <==> x < 0.0
    ensures x / b <= 0.0 <==> x <= 0.0
  {
    var q := x / b;
    assert q * b == x;
    if q < 0.0 {
      assert q * b < 0.0 * b;
    } else if q > 0.0 {
      assert q * b > 0.0 * b;
    }
  }

  /** A baseline mean of zero makes the change infinite, or NaN (red) when both means are zero. */
  lemma ZeroBaseline(c: real)
    ensures c > 0.0 ==> Change(Finite(0.0), Finite(c)) == PosInf && !IsGreen(PosInf)
    ensures c < 0.0 ==> Change(Finite(0.0), Finite(c)) == NegInf && IsGreen(NegInf)
    ensures c == 0.0 ==> Change(Finite(0.0), Finite(c)) == NaN && !IsGreen(NaN)
  {
    assert Sub(Finite(c), Finite(0.0)) == Finite(c);
    assert Times100(Finite(c)) == Finite(100.0 * c);
    assert Change(Finite(0.0), Finite(c)) == Div(Finite(100.0 * c), Finite(0.0));
  }

  /** Halving every latency shows as a change of -50%, in green. */
  lemma HalvedLatencies()
    ensures Mean([100.0, 102.0, 98.0, 101.0, 99.0]) == Finite(100.0)
    ensures Mean([50.0, 52.0, 49.0, 51.0, 48.0]) == Finite(50.0)
    ensures Change(Finite(100.0), Finite(50.0)) == Finite(-50.0)
  {
    var a := [100.0, 102.0, 98.0, 101.0, 99.0];
    assert Sum(a[..1]) == 100.0;
    assert a[..2][..1] == a[..1] && Sum(a[..2]) == 202.0;
    assert a[..3][..2] == a[..2] && Sum(a[..3]) == 300.0;
    assert a[..4][..3] == a[..3] && Sum(a[..4]) == 401.0;
    assert a[..4] == a[..|a| - 1] && Sum(a) == 500.0;
    var b := [50.0, 52.0, 49.0, 51.0, 48.0];
    assert Sum(b[..1]) == 50.0;
    assert b[..2][..1] == b[..1] && Sum(b[..2]) == 102.0;
    assert b[..3][..2] == b[..2] && Sum(b[..3]) == 151.0;
    assert b[..4][..3] == b[..3] && Sum(b[..4]) == 202.0;
    assert b[..4] == b[..|b| - 1] && Sum(b) == 250.0;
    assert Sub(Finite(50.0), Finite(100.0)) == Finite(-50.0);
  }
}
