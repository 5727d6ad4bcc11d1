/**
 * The per-run half of `make_html_index.py`: reducing one run's results to the best latency per
 * query, reading a run's natural query order, and finding the latest run of a build tree.
 * A build tree is the list of its entries in directory-listing order; a run directory's
 * `results.json` is missing, unreadable, or loaded.
 */
module HtmlIndexRuns {
  import opened Wrappers
  import opened Artifact
  import opened RunDates
  import Text

  datatype ArtifactFile = Missing | Unreadable | Loaded(doc: Document)

  datatype DirEntry = DirEntry(name: string, isDir: bool, artifact: ArtifactFile)

  /** `results_data.get('results', {}).get(category, {}).get('turbopuffer', [])` */
  function EngineResults(doc: Document, category: string): seq<QueryResult> {
    match doc.results
    case None => []
    case Some(r) =>
      if category in r.categories && Engine in r.categories[category]
      then r.categories[category][Engine]
      else []
  }

  /** The query field is a non-empty string (`if query:`); `.get` makes an absent key and `null` alike. */
  predicate HasQuery(r: QueryResult) {
    r.query.Present? && r.query.value != ""
  }

  /** An entry that contributes a latency: a non-empty query with at least one sample. */
  predicate Measured(r: QueryResult) {
    HasQuery(r) && r.duration.Present? && r.duration.value != []
  }

  /** `min(durations)` */
  function Min(s: seq<real>): (m: real)
    requires s != []
    ensures m in s
    ensures forall x :: x in s ==> m <= x
  {
    if |s| == 1 then s[0]
    else
      var rest := Min(s[1..]);
      assert forall x :: x in s ==> x == s[0] || x in s[1..];
      if s[0] <= rest then s[0] else rest
  }

  /** The dictionary `extract_min_latency` has built after reading the entries `rs`. */
  function MinLatencies(rs: seq<QueryResult>): map<string, real> {
    if rs == [] then map[]
    else
      var m := MinLatencies(rs[..|rs| - 1]);
      var r := rs[|rs| - 1];
      if Measured(r) then m[r.query.value := Min(r.duration.value)] else m
  }

  /** `extract_min_latency(results_data, result_type)` */
  method ExtractMinLatency(doc: Document, category: string) returns (latencies: map<string, real>)
    ensures latencies == MinLatencies(EngineResults(doc, category))
  {
    var results := EngineResults(doc, category);
    latencies := map[];
    var i := 0;
    while i < |results|
      invariant 0 <= i <= |results|
      invariant latencies == MinLatencies(results[..i])
    {
      var r := results[i];
      if r.query.Present? && r.query.value != "" && r.duration.Present? && r.duration.value != [] {
        latencies := latencies[r.query.value := Min(r.duration.value)];
      }
      assert results[..i + 1][..i] == results[..i];
      i := i + 1;
    }
    assert results[..i] == results;
  }

  /** A query gets a latency exactly when some entry measured it. */
  lemma {:induction false} MinLatenciesKeys(rs: seq<QueryResult>, q: string)
    ensures q in MinLatencies(rs) <==> exists i :: 0 <= i < |rs| && Measured(rs[i]) && rs[i].query.value == q
  {
    if rs != [] {
      var init := rs[..|rs| - 1];
      MinLatenciesKeys(init, q);
      if exists i :: 0 <= i < |init| && Measured(init[i]) && init[i].query.value == q {
        var i :| 0 <= i < |init| && Measured(init[i]) && init[i].query.value == q;
        assert rs[i] == init[i];
      }
      if exists i :: 0 <= i < |rs| && Measured(rs[i]) && rs[i].query.value == q {
        var i :| 0 <= i < |rs| && Measured(rs[i]) && rs[i].query.value == q;
        if i < |init| { assert init[i] == rs[i]; }
      }
    }
  }

  /**
   * The latency of a query is the minimum of the samples of the LAST entry that measured it:
   * a later duplicate overwrites an earlier one.
   */
  lemma {:induction false} MinLatenciesLastWins(rs: seq<QueryResult>, i: nat)
    requires i < |rs| && Measured(rs[i])
    requires forall j :: i < j < |rs| && Measured(rs[j]) ==> rs[j].query.value != rs[i].query.value
    ensures rs[i].query.value in MinLatencies(rs)
    ensures MinLatencies(rs)[rs[i].query.value] == Min(rs[i].duration.value)
  {
    if i < |rs| - 1 {
      var init := rs[..|rs| - 1];
      assert init[i] == rs[i];
      forall j | i < j < |init| && Measured(init[j]) ensures init[j].query.value != init[i].query.value {
        assert init[j] == rs[j];
      }
      MinLatenciesLastWins(init, i);
    }
  }

  /** The non-empty query strings of the entries, in order, duplicates kept. */
  function QueryOrder(rs: seq<QueryResult>): seq<string> {
    if rs == [] then []
    else
      var r := rs[|rs| - 1];
      QueryOrder(rs[..|rs| - 1]) + (if HasQuery(r) then [r.query.value] else [])
  }

  /** The order lists exactly the non-empty query strings of the entries. */
  lemma {:induction false} QueryOrderMembers(rs: seq<QueryResult>, q: string)
    ensures q in QueryOrder(rs) <==> exists i :: 0 <= i < |rs| && HasQuery(rs[i]) && rs[i].query.value == q
  {
    if rs != [] {
      var init := rs[..|rs| - 1];
      QueryOrderMembers(init, q);
      if exists i :: 0 <= i < |init| && HasQuery(init[i]) && init[i].query.value == q {
        var i :| 0 <= i < |init| && HasQuery(init[i]) && init[i].query.value == q;
        assert rs[i] == init[i];
      }
      if exists i :: 0 <= i < |rs| && HasQuery(rs[i]) && rs[i].query.value == q {
        var i :| 0 <= i < |rs| && HasQuery(rs[i]) && rs[i].query.value == q;
        if i < |init| { assert init[i] == rs[i]; }
      }
    }
  }

  /** Every query that gets a latency from a run appears in that run's query order. */
  lemma MeasuredQueriesAreOrdered(rs: seq<QueryResult>, q: string)
    requires q in MinLatencies(rs)
    ensures q in QueryOrder(rs)
  {
    MinLatenciesKeys(rs, q);
    QueryOrderMembers(rs, q);
  }

  /** The date of a run directory whose `results.json` exists; `None` for any other entry. */
  function CandidateDate(e: DirEntry): Option<DateTime> {
    if e.isDir && !e.artifact.Missing? then ParseDirName(e.name) else None
  }

  /** `CandidateDate` of every entry, position by position. */
  function CandidateDates(tree: seq<DirEntry>): (cds: seq<Option<DateTime>>)
    ensures |cds| == |tree|
  {
    if tree == [] then [] else CandidateDates(tree[..|tree| - 1]) + [CandidateDate(tree[|tree| - 1])]
  }

  lemma {:induction false} CandidateDatesAt(tree: seq<DirEntry>, j: nat)
    requires j < |tree|
    ensures CandidateDates(tree)[j] == CandidateDate(tree[j])
  {
    if j < |tree| - 1 {
      CandidateDatesAt(tree[..|tree| - 1], j);
    }
  }

  /**
   * Entry `i` is what `max(date_dirs, key=date)` picks: the run directory with `results.json`
   * and the greatest date, the first one in listing order if several share that date.
   */
  ghost predicate IsLatest(tree: seq<DirEntry>, i: nat) {
    var cds := CandidateDates(tree);
    && i < |cds| && cds[i].Some?
    && (forall j :: 0 <= j < |cds| && cds[j].Some? ==> DateLe(cds[j].value, cds[i].value))
    && (forall j :: 0 <= j < i && cds[j].Some? ==> !DateLe(cds[i].value, cds[j].value))
  }

  /** There is at most one latest run. */
  lemma LatestIsUnique(tree: seq<DirEntry>, i: nat, j: nat)
    requires IsLatest(tree, i) && IsLatest(tree, j)
    ensures i == j
  {
  }

  /** The `date_dirs` list built from the candidate dates: (date, position), in listing order. */
  function DateDirs(cds: seq<Option<DateTime>>): (dd: seq<(DateTime, nat)>)
    ensures forall k :: 0 <= k < |dd| ==> dd[k].1 < |cds| && cds[dd[k].1] == Some(dd[k].0)
    ensures forall k, m :: 0 <= k < m < |dd| ==> dd[k].1 < dd[m].1
  {
    if cds == [] then []
    else
      var n := |cds| - 1;
      var init := DateDirs(cds[..n]);
      assert forall k :: 0 <= k < |init| ==> cds[..n][init[k].1] == cds[init[k].1];
      if cds[n].Some? then init + [(cds[n].value, n)] else init
  }

  /** Every candidate is in `date_dirs`. */
  lemma {:induction false} DateDirsComplete(cds: seq<Option<DateTime>>, j: nat) returns (k: nat)
    requires j < |cds| && cds[j].Some?
    ensures k < |DateDirs(cds)| && DateDirs(cds)[k].1 == j
  {
    var n := |cds| - 1;
    var init := DateDirs(cds[..n]);
    if j < n {
      assert cds[..n][j] == cds[j];
      k := DateDirsComplete(cds[..n], j);
      assert DateDirs(cds)[k] == init[k];
    } else {
      k := |init|;
    }
  }

  /** The loop of `get_available_result_types` that lists the dated run directories. */
  method ListDateDirs(tree: seq<DirEntry>) returns (dateDirs: seq<(DateTime, nat)>)
    ensures dateDirs == DateDirs(CandidateDates(tree))
  {
    dateDirs := [];
    var i := 0;
    while i < |tree|
      invariant 0 <= i <= |tree|
      invariant dateDirs == DateDirs(CandidateDates(tree[..i]))
    {
      var e := tree[i];
      ghost var cds := CandidateDates(tree[..i]);
      assert CandidateDates(tree[..i + 1]) == cds + [CandidateDate(e)] by {
        assert tree[..i + 1][..i] == tree[..i];
      }
      assert (cds + [CandidateDate(e)])[..i] == cds;
      if e.isDir {
        var date := ParseDirName(e.name);
        if date.Some? && !e.artifact.Missing? {
          dateDirs := dateDirs + [(date.value, i)];
        }
      }
      i := i + 1;
    }
    assert tree[..i] == tree;
  }

  /** `max(date_dirs, key=lambda x: x[0])`: the position of the first greatest date. */
  method MaxByDate(dateDirs: seq<(DateTime, nat)>) returns (best: nat)
    requires dateDirs != []
    ensures best < |dateDirs|
    ensures forall m :: 0 <= m < |dateDirs| ==> DateLe(dateDirs[m].0, dateDirs[best].0)
    ensures forall m :: 0 <= m < best ==> !DateLe(dateDirs[best].0, dateDirs[m].0)
  {
    best := 0;
    var k := 1;
    while k < |dateDirs|
      invariant 1 <= k <= |dateDirs| && best < k
      invariant forall m :: 0 <= m < k ==> DateLe(dateDirs[m].0, dateDirs[best].0)
      invariant forall m :: 0 <= m < best ==> !DateLe(dateDirs[best].0, dateDirs[m].0)
    {
      DateOrderIsTotalPreorder();
      if !DateLe(dateDirs[k].0, dateDirs[best].0) {
        best := k;
      }
      k := k + 1;
    }
  }

  /** The maximum of `date_dirs` is the latest run. */
  lemma MaxIsLatest(tree: seq<DirEntry>, best: nat)
    requires var dd := DateDirs(CandidateDates(tree));
      && best < |dd|
      && (forall m :: 0 <= m < |dd| ==> DateLe(dd[m].0, dd[best].0))
      && (forall m :: 0 <= m < best ==> !DateLe(dd[best].0, dd[m].0))
    ensures IsLatest(tree, DateDirs(CandidateDates(tree))[best].1)
  {
    var cds := CandidateDates(tree);
    var dd := DateDirs(cds);
    var i := dd[best].1;
    forall j | 0 <= j < |cds| && cds[j].Some?
      ensures DateLe(cds[j].value, cds[i].value)
    {
      var m := DateDirsComplete(cds, j);
    }
    forall j | 0 <= j < i && cds[j].Some?
      ensures !DateLe(cds[i].value, cds[j].value)
    {
      var m := DateDirsComplete(cds, j);
      assert m < best;
    }
  }

  /** `get_query_order_from_latest` and `get_available_result_types` both start by finding the latest run. */
  method FindLatest(tree: seq<DirEntry>) returns (latest: Option<nat>)
    ensures latest.None? <==> forall j :: 0 <= j < |tree| ==> CandidateDate(tree[j]).None?
    ensures latest.Some? ==> IsLatest(tree, latest.value)
  {
    var dateDirs := ListDateDirs(tree);
    ghost var cds := CandidateDates(tree);
    if dateDirs == [] {
      forall j | 0 <= j < |tree| ensures CandidateDate(tree[j]).None? {
        CandidateDatesAt(tree, j);
        if cds[j].Some? { var k := DateDirsComplete(cds, j); }
      }
      return None;
    }
    var best := MaxByDate(dateDirs);
    MaxIsLatest(tree, best);
    latest := Some(dateDirs[best].1);
    CandidateDatesAt(tree, dateDirs[0].1);
  }

  /** No entry is the latest run exactly when no entry is a dated run directory with `results.json`. */
  lemma {:induction false} NoLatest(tree: seq<DirEntry>)
    requires forall j :: 0 <= j < |tree| ==> CandidateDate(tree[j]).None?
    ensures forall i: nat :: !IsLatest(tree, i)
  {
    forall i: nat | i < |tree| ensures CandidateDates(tree)[i].None? {
      CandidateDatesAt(tree, i);
    }
  }

  /** The latest run is a directory whose `results.json` exists. */
  lemma {:induction false} LatestHasArtifact(tree: seq<DirEntry>, i: nat)
    requires IsLatest(tree, i)
    ensures i < |tree| && tree[i].isDir && !tree[i].artifact.Missing?
  {
    CandidateDatesAt(tree, i);
  }

  /** The category names of a loaded artifact, sorted; nothing for an unreadable one. */
  function CategoriesOf(a: ArtifactFile): seq<string> {
    match a
    case Loaded(Document(Some(r))) => Text.SortedElements(r.categories.Keys)
    case _ => []
  }

  /** `get_available_result_types`: the sorted category names of the latest run. */
  method AvailableResultTypes(tree: seq<DirEntry>) returns (types: seq<string>)
    ensures (forall j :: 0 <= j < |tree| ==> CandidateDate(tree[j]).None?) ==> types == []
    ensures forall i: nat :: IsLatest(tree, i) ==> types == CategoriesOf(tree[i].artifact)
    ensures Text.Sorted(types) && Text.NoDuplicates(types)
  {
    var latest := FindLatest(tree);
    if latest.None? {
      NoLatest(tree);
      return [];
    }
    LatestHasArtifact(tree, latest.value);
    types := CategoriesOf(tree[latest.value].artifact);
    forall i: nat | IsLatest(tree, i) ensures i == latest.value {
      LatestIsUnique(tree, i, latest.value);
    }
  }

  /** The natural query order of a loaded artifact's category; nothing for an unreadable one. */
  function OrderOf(a: ArtifactFile, category: string): seq<string> {
    match a
    case Loaded(doc) => QueryOrder(EngineResults(doc, category))
    case _ => []
  }

  /**
   * `get_query_order_from_latest`: the query order of the latest run whose `results.json` exists.
   * When that file cannot be read the order is empty: no older run is tried instead.
   */
  method QueryOrderFromLatest(tree: seq<DirEntry>, category: string) returns (order: seq<string>)
    ensures (forall j :: 0 <= j < |tree| ==> CandidateDate(tree[j]).None?) ==> order == []
    ensures forall i: nat :: IsLatest(tree, i) ==> order == OrderOf(tree[i].artifact, category)
  {
    var latest := FindLatest(tree);
    if latest.None? {
      NoLatest(tree);
      return [];
    }
    LatestHasArtifact(tree, latest.value);
    var file := tree[latest.value].artifact;
    if file.Unreadable? {
      order := [];
    } else {
      var results := EngineResults(file.doc, category);
      order := [];
      var i := 0;
      while i < |results|
        invariant 0 <= i <= |results|
        invariant order == QueryOrder(results[..i])
      {
        var q := results[i].query;
        if q.Present? && q.value != "" {
          order := order + [q.value];
        }
        assert results[..i + 1][..i] == results[..i];
        i := i + 1;
      }
      assert results[..i] == results;
    }
    forall i: nat | IsLatest(tree, i) ensures i == latest.value {
      LatestIsUnique(tree, i, latest.value);
    }
  }
}
