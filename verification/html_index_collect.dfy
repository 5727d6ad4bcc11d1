/**
 * `collect_data_from_build_dir` of `make_html_index.py`: the walk over every run directory of a
 * build tree, in name order, that gathers per result type and per query the (date, best latency)
 * points of all runs, the dated annotations, and the query order of the latest run.
 */
module HtmlIndexCollect {
  import opened Wrappers
  import opened Sorting
  import opened Artifact
  import opened RunDates
  import opened HtmlIndexRuns
  import Text

  /** One point of a latency chart: the run's instant and the query's best latency in that run. */
  datatype Point = Point(date: Instant, latency: real)

  /** The `defaultdict(list)` of one result type: query to its points. */
  type Series = map<string, seq<Point>>

  /** `all_query_data`: result type to its series. */
  type Data = map<string, Series>

  /** A value inside an annotation record (`'text'` is a string, `'pr'` a number). */
  datatype Scalar = Str(s: string) | Int(i: int)

  type Note = map<string, Scalar>

  /**
   * An entry of the annotations mapping: a plain string, a record, or any other value, which is
   * shown as its `str()` rendering (given here, since rendering arbitrary values is not modelled).
   */
  datatype Annotation = Label(text: string) | Record(fields: Note) | Other(shown: string)

  /** What `date_annotations` stores for an annotation. */
  function Normalise(a: Annotation): Note {
    match a
    case Label(text) => map["text" := Str(text)]
    case Record(fields) => fields
    case Other(shown) => map["text" := Str(shown)]
  }

  /** The four values `collect_data_from_build_dir` returns. */
  datatype Collected = Collected(data: Data, queryOrder: seq<string>, annotations: map<string, Note>, resultTypes: seq<string>)

  /** Comparison of entries by name, as `sorted(build_path.iterdir())` compares sibling paths. */
  function ByName(): (DirEntry, DirEntry) -> bool {
    (a: DirEntry, b: DirEntry) => Text.LessEq(a.name, b.name)
  }

  lemma ByNameIsTotalPreorder()
    ensures TotalPreorder(ByName())
  {
    forall a: DirEntry, b: DirEntry ensures ByName()(a, b) || ByName()(b, a) {
      Text.LessEqTotal(a.name, b.name);
    }
    forall a: DirEntry, b: DirEntry, c: DirEntry | ByName()(a, b) && ByName()(b, c) ensures ByName()(a, c) {
      Text.LessEqTransitive(a.name, b.name, c.name);
    }
  }

  /** The entries of the build tree in the order the walk visits them. */
  function SortedEntries(tree: seq<DirEntry>): (entries: seq<DirEntry>)
    ensures SortedBy(entries, ByName())
    ensures multiset(entries) == multiset(tree)
  {
    ByNameIsTotalPreorder();
    InsertionSort(tree, ByName())
  }

  /** Comparison of points by date, the key of `.sort(key=lambda x: x[0])`. */
  function ByDate(): (Point, Point) -> bool {
    (a: Point, b: Point) => DateLe(a.date, b.date)
  }

  lemma ByDateIsTotalPreorder()
    ensures TotalPreorder(ByDate())
  {
  }

  /** The instant of a run directory; `None` for a file or an undated directory. */
  function RunDate(e: DirEntry): (r: Option<DateTime>)
    ensures r.Some? ==> Valid(r.value)
  {
    if e.isDir then ParseDirName(e.name) else None
  }

  /** The best latency per query of one run for one result type. */
  function Latencies(doc: Document, rt: string): map<string, real> {
    MinLatencies(EngineResults(doc, rt))
  }

  /** Reading a `defaultdict(list)`: the points of a query, none if it has not been seen. */
  function Get(s: Series, q: string): seq<Point> {
    if q in s then s[q] else []
  }

  /** The points of the queries of `lat` appended, each at `date`, to their series. */
  function AddPoints(s: Series, date: Instant, lat: map<string, real>): Series {
    map q | q in s.Keys + lat.Keys :: Get(s, q) + (if q in lat then [Point(date, lat[q])] else [])
  }

  /** No query has an empty list of points: a key is created only by appending to it. */
  predicate NoEmptySeries(data: Data) {
    forall rt, q :: rt in data && q in data[rt] ==> data[rt][q] != []
  }

  /** The loop over `result_types` for one loaded run. */
  function AddRun(data: Data, types: seq<string>, date: Instant, doc: Document): (r: Data)
    requires forall rt :: rt in types ==> rt in data
    ensures r.Keys == data.Keys
    ensures NoEmptySeries(data) ==> NoEmptySeries(r)
  {
    if types == [] then data
    else
      var n := |types| - 1;
      var r0 := AddRun(data, types[..n], date, doc);
      r0[types[n] := AddPoints(r0[types[n]], date, Latencies(doc, types[n]))]
  }

  /** `{rt: defaultdict(list) for rt in result_types}` */
  function Start(types: seq<string>): Data {
    map rt | rt in types :: map[]
  }

  /** The points one directory of the walk adds: those of its run if it is dated and its results load. */
  function VisitData(data: Data, e: DirEntry, types: seq<string>): Data
    requires forall rt :: rt in types ==> rt in data
  {
    match RunDate(e)
    case Some(date) => if e.artifact.Loaded? then AddRun(data, types, date, e.artifact.doc) else data
    case None => data
  }

  /** The query data after the walk over `entries`, in order. */
  function GatherData(entries: seq<DirEntry>, types: seq<string>): (data: Data)
    ensures forall rt :: rt in data <==> rt in types
    ensures NoEmptySeries(data)
  {
    if entries == [] then Start(types)
    else
      var n := |entries| - 1;
      VisitData(GatherData(entries[..n], types), entries[n], types)
  }

  /**
   * The annotation one directory of the walk records: a dated directory named in the mapping,
   * whether or not it has a `results.json`, under the ISO 8601 form of its date.
   */
  function VisitNotes(notes: map<string, Note>, e: DirEntry, annotations: map<string, Annotation>): map<string, Note> {
    match RunDate(e)
    case Some(date) =>
      if e.name in annotations then notes[IsoFormat(date) := Normalise(annotations[e.name])] else notes
    case None => notes
  }

  /** `date_annotations` after the walk over `entries`, in order. */
  function GatherNotes(entries: seq<DirEntry>, annotations: map<string, Annotation>): map<string, Note> {
    if entries == [] then map[]
    else
      var n := |entries| - 1;
      VisitNotes(GatherNotes(entries[..n], annotations), entries[n], annotations)
  }

  /** One series sorted by date. */
  function SortSeries(s: seq<Point>): (r: seq<Point>)
    ensures SortedBy(r, ByDate())
    ensures multiset(r) == multiset(s)
  {
    ByDateIsTotalPreorder();
    InsertionSort(s, ByDate())
  }

  /**
   * Points with equal dates, such as those of two run directories whose names differ only in the
   * case of `T`, keep the order the walk added them in: `list.sort` is stable.
   */
  lemma SortSeriesStable(s: seq<Point>, p: Point)
    ensures Equivalents(SortSeries(s), p, ByDate()) == Equivalents(s, p, ByDate())
  {
    ByDateIsTotalPreorder();
    SortIsStable(s, p, ByDate());
  }

  function SortQueries(qd: Series): Series {
    map q | q in qd :: SortSeries(qd[q])
  }

  /** Every series of every result type sorted by date. */
  function SortAll(data: Data): Data {
    map rt | rt in data :: SortQueries(data[rt])
  }

  /** `result_types[0] if result_types else 'TOP_10'` */
  function FirstType(types: seq<string>): string {
    if types != [] then types[0] else "TOP_10"
  }

  /** The points of one query and result type, run by run, as an independent description. */
  function SeriesOf(entries: seq<DirEntry>, rt: string, q: string): seq<Point> {
    if entries == [] then []
    else
      var n := |entries| - 1;
      var e := entries[n];
      SeriesOf(entries[..n], rt, q) +
        match RunDate(e)
        case Some(date) =>
          if e.artifact.Loaded? && q in Latencies(e.artifact.doc, rt)
          then [Point(date, Latencies(e.artifact.doc, rt)[q])]
          else []
        case None => []
  }

  /** With distinct result types, one run adds to a result type exactly its own latencies. */
  lemma {:induction false} AddRunAt(data: Data, types: seq<string>, date: Instant, doc: Document, rt: string)
    requires forall t :: t in types ==> t in data
    requires Text.NoDuplicates(types) && rt in data
    ensures AddRun(data, types, date, doc)[rt] ==
      if rt in types then AddPoints(data[rt], date, Latencies(doc, rt)) else data[rt]
  {
    if types != [] {
      var n := |types| - 1;
      var init := types[..n];
      assert types == init + [types[n]];
      AddRunAt(data, init, date, doc, rt);
      if rt == types[n] {
        forall k | 0 <= k < n ensures init[k] != rt {
          assert init[k] == types[k];
        }
      }
    }
  }

  /**
   * With distinct result types, the points the walk gathers for a query are exactly one per
   * loaded dated run that measured it, in walk order.
   */
  lemma {:induction false} GatheredSeries(entries: seq<DirEntry>, types: seq<string>, rt: string, q: string)
    requires Text.NoDuplicates(types) && rt in types
    ensures Get(GatherData(entries, types)[rt], q) == SeriesOf(entries, rt, q)
  {
    if entries != [] {
      var n := |entries| - 1;
      var p := GatherData(entries[..n], types);
      GatheredSeries(entries[..n], types, rt, q);
      var e := entries[n];
      if RunDate(e).Some? && e.artifact.Loaded? {
        AddRunAt(p, types, RunDate(e).value, e.artifact.doc, rt);
      }
    }
  }

  /**
   * Each chart series of the collected data: present exactly when some run measured the query,
   * sorted by date, and holding exactly the points of those runs.
   */
  lemma CollectedSeries(entries: seq<DirEntry>, types: seq<string>, rt: string, q: string)
    requires Text.NoDuplicates(types) && rt in types
    ensures var data := SortAll(GatherData(entries, types));
      && rt in data
      && (q in data[rt] <==> SeriesOf(entries, rt, q) != [])
      && (q in data[rt] ==> SortedBy(data[rt][q], ByDate()))
      && (q in data[rt] ==> multiset(data[rt][q]) == multiset(SeriesOf(entries, rt, q)))
  {
    GatheredSeries(entries, types, rt, q);
  }

  /** A run directory carries an annotation for date key `k`. */
  predicate Annotates(e: DirEntry, annotations: map<string, Annotation>, k: string) {
    RunDate(e).Some? && e.name in annotations && IsoFormat(RunDate(e).value) == k
  }

  /** One step of the walk adds the date key its directory annotates, and keeps the others. */
  lemma VisitNotesKeys(notes: map<string, Note>, e: DirEntry, annotations: map<string, Annotation>, k: string)
    ensures k in VisitNotes(notes, e, annotations) <==> k in notes || Annotates(e, annotations, k)
  {
  }

  /** A date the walk annotated was annotated by one of its directories. */
  lemma {:induction false} NoteKeyFrom(entries: seq<DirEntry>, annotations: map<string, Annotation>, k: string)
    returns (j: nat)
    requires k in GatherNotes(entries, annotations)
    ensures j < |entries| && Annotates(entries[j], annotations, k)
  {
    var n := |entries| - 1;
    var init := entries[..n];
    VisitNotesKeys(GatherNotes(init, annotations), entries[n], annotations, k);
    if k in GatherNotes(init, annotations) {
      j := NoteKeyFrom(init, annotations, k);
      assert entries[j] == init[j];
    } else {
      j := n;
    }
  }

  /** A date one directory of the walk annotates stays annotated to the end of the walk. */
  lemma {:induction false} NoteKeyKept(entries: seq<DirEntry>, annotations: map<string, Annotation>, k: string, j: nat)
    requires j < |entries| && Annotates(entries[j], annotations, k)
    ensures k in GatherNotes(entries, annotations)
  {
    var n := |entries| - 1;
    var init := entries[..n];
    VisitNotesKeys(GatherNotes(init, annotations), entries[n], annotations, k);
    if j < n {
      assert init[j] == entries[j];
      NoteKeyKept(init, annotations, k, j);
    }
  }

  /** A date is annotated exactly when some dated directory of the walk has an annotation for it. */
  lemma NoteKeys(entries: seq<DirEntry>, annotations: map<string, Annotation>, k: string)
    ensures k in GatherNotes(entries, annotations) <==>
      exists j :: 0 <= j < |entries| && Annotates(entries[j], annotations, k)
  {
    if k in GatherNotes(entries, annotations) {
      var j := NoteKeyFrom(entries, annotations, k);
    }
    if exists j :: 0 <= j < |entries| && Annotates(entries[j], annotations, k) {
      var j :| 0 <= j < |entries| && Annotates(entries[j], annotations, k);
      NoteKeyKept(entries, annotations, k, j);
    }
  }

  /** Of several directories annotating the same date, the last one in walk order wins. */
  lemma {:induction false} NoteLastWins(entries: seq<DirEntry>, annotations: map<string, Annotation>, j: nat)
    requires j < |entries| && RunDate(entries[j]).Some? && entries[j].name in annotations
    requires forall m :: j < m < |entries| ==> !Annotates(entries[m], annotations, IsoFormat(RunDate(entries[j]).value))
    ensures var notes := GatherNotes(entries, annotations);
      var k := IsoFormat(RunDate(entries[j]).value);
      k in notes && notes[k] == Normalise(annotations[entries[j].name])
  {
    var n := |entries| - 1;
    if j < n {
      var init := entries[..n];
      assert init[j] == entries[j];
      forall m | j < m < |init| ensures !Annotates(init[m], annotations, IsoFormat(RunDate(init[j]).value)) {
        assert init[m] == entries[m];
      }
      NoteLastWins(init, annotations, j);
    }
  }

  lemma AddPointsPointwise(s: Series, date: Instant, lat: map<string, real>, r: Series)
    requires r.Keys == s.Keys + lat.Keys
    requires forall q :: q in r ==> r[q] == Get(s, q) + if q in lat then [Point(date, lat[q])] else []
    ensures r == AddPoints(s, date, lat)
  {
  }

  /** The innermost loop: appending one run's latencies, query by query. */
  method AppendLatencies(s: Series, date: Instant, lat: map<string, real>) returns (r: Series)
    ensures r == AddPoints(s, date, lat)
  {
    r := s;
    var todo := lat.Keys;
    while todo != {}
      invariant todo <= lat.Keys
      invariant r.Keys == s.Keys + (lat.Keys - todo)
      invariant forall q :: q in r ==> r[q] == Get(s, q) + if q in lat && q !in todo then [Point(date, lat[q])] else []
      decreases todo
    {
      var q :| q in todo;
      var points := Get(r, q);
      assert points == Get(s, q);
      r := r[q := points + [Point(date, lat[q])]];
      todo := todo - {q};
    }
    AddPointsPointwise(s, date, lat, r);
  }

  /** The loop over `result_types` for one loaded run. */
  method RecordRun(data: Data, types: seq<string>, date: Instant, doc: Document) returns (r: Data)
    requires forall rt :: rt in types ==> rt in data
    ensures r == AddRun(data, types, date, doc)
  {
    r := data;
    var k := 0;
    while k < |types|
      invariant 0 <= k <= |types|
      invariant r == AddRun(data, types[..k], date, doc)
    {
      var rt := types[k];
      var lat := ExtractMinLatency(doc, rt);
      var s := AppendLatencies(r[rt], date, lat);
      AddRunStep(data, types, k, date, doc);
      r := r[rt := s];
      k := k + 1;
    }
    assert types[..k] == types;
  }

  /** One more result type of the loop over `result_types`. */
  lemma AddRunStep(data: Data, types: seq<string>, k: nat, date: Instant, doc: Document)
    requires forall rt :: rt in types ==> rt in data
    requires k < |types|
    ensures forall rt :: rt in types[..k] ==> rt in data
    ensures var r := AddRun(data, types[..k], date, doc);
      AddRun(data, types[..k + 1], date, doc) == r[types[k] := AddPoints(r[types[k]], date, Latencies(doc, types[k]))]
  {
    assert types[..k + 1][..k] == types[..k];
    forall rt | rt in types[..k] ensures rt in data {
      assert rt in types;
    }
  }

  /** The inner sorting loop: every query's points sorted by date. */
  method SortEachQuery(qd: Series) returns (r: Series)
    ensures r == SortQueries(qd)
  {
    r := qd;
    var todo := qd.Keys;
    while todo != {}
      invariant todo <= qd.Keys && r.Keys == qd.Keys
      invariant forall q :: q in qd ==> r[q] == if q in todo then qd[q] else SortSeries(qd[q])
      decreases |todo|
    {
      var q :| q in todo;
      r := r[q := SortSeries(r[q])];
      todo := todo - {q};
    }
  }

  /** Sorting a sorted series changes nothing, so a repeated result type is harmless. */
  lemma SortQueriesTwice(qd: Series)
    ensures SortQueries(SortQueries(qd)) == SortQueries(qd)
  {
    forall q | q in qd ensures SortSeries(SortSeries(qd[q])) == SortSeries(qd[q]) {
      ByDateIsTotalPreorder();
      SortedIsFixed(SortSeries(qd[q]), ByDate());
    }
  }

  /** The sorting pass over `result_types`. */
  method SortPass(data: Data, types: seq<string>) returns (r: Data)
    requires forall rt :: rt in data <==> rt in types
    ensures r == SortAll(data)
  {
    r := data;
    ghost var done: set<string> := {};
    var k := 0;
    while k < |types|
      invariant 0 <= k <= |types|
      invariant done <= data.Keys && r.Keys == data.Keys
      invariant forall j :: 0 <= j < k ==> types[j] in done
      invariant forall rt :: rt in r ==> r[rt] == if rt in done then SortQueries(data[rt]) else data[rt]
    {
      var rt := types[k];
      if rt in done {
        SortQueriesTwice(data[rt]);
      }
      var sorted := SortEachQuery(r[rt]);
      r := r[rt := sorted];
      done := done + {rt};
      k := k + 1;
    }
  }

  /**
   * The first step of `collect_data_from_build_dir`: the given result types, or else the latest
   * run's categories, or `['TOP_10']` when it has none.
   */
  method ChooseResultTypes(tree: seq<DirEntry>, resultTypes: Option<seq<string>>) returns (types: seq<string>)
    ensures resultTypes.Some? ==> types == resultTypes.value
    ensures resultTypes.None? ==> types != [] && Text.NoDuplicates(types)
    ensures resultTypes.None? && (forall j :: 0 <= j < |tree| ==> CandidateDate(tree[j]).None?) ==> types == ["TOP_10"]
    ensures resultTypes.None? ==> forall i: nat :: IsLatest(tree, i) ==>
      types == if CategoriesOf(tree[i].artifact) == [] then ["TOP_10"] else CategoriesOf(tree[i].artifact)
  {
    if resultTypes.None? {
      types := AvailableResultTypes(tree);
      if types == [] {
        types := ["TOP_10"];
      }
    } else {
      types := resultTypes.value;
    }
  }

  /** One entry of the walk: a dated directory records its annotation and, with a `results.json`, its run. */
  method Visit(e: DirEntry, types: seq<string>, annotations: map<string, Annotation>, data0: Data, notes0: map<string, Note>)
    returns (data: Data, notes: map<string, Note>)
    requires forall rt :: rt in types ==> rt in data0
    ensures data == VisitData(data0, e, types)
    ensures notes == VisitNotes(notes0, e, annotations)
  {
    data, notes := data0, notes0;
    if e.isDir {
      var date := ParseDirName(e.name);
      if date.Some? {
        if e.name in annotations {
          notes := notes[IsoFormat(date.value) := Normalise(annotations[e.name])];
        }
        if e.artifact.Loaded? {
          data := RecordRun(data, types, date.value, e.artifact.doc);
        }
      }
    }
  }

  /** The walk over the entries in name order, gathering points and annotations. */
  method Walk(entries: seq<DirEntry>, types: seq<string>, annotations: map<string, Annotation>)
    returns (data: Data, notes: map<string, Note>)
    ensures data == GatherData(entries, types)
    ensures notes == GatherNotes(entries, annotations)
  {
    data := map rt | rt in types :: map[];
    notes := map[];
    var i := 0;
    while i < |entries|
      invariant 0 <= i <= |entries|
      invariant data == GatherData(entries[..i], types)
      invariant notes == GatherNotes(entries[..i], annotations)
    {
      assert entries[..i + 1][..i] == entries[..i] && entries[..i + 1][i] == entries[i];
      data, notes := Visit(entries[i], types, annotations, data, notes);
      i := i + 1;
    }
    assert entries[..i] == entries;
  }

  /**
   * `collect_data_from_build_dir(build_dir, annotations, result_types)`: the chart data of every
   * result type, sorted by date, the dated annotations, the latest run's query order for the
   * first result type, and the result types used.
   */
  method CollectData(tree: seq<DirEntry>, annotations: map<string, Annotation>, resultTypes: Option<seq<string>>)
    returns (c: Collected)
    ensures resultTypes.Some? ==> c.resultTypes == resultTypes.value
    ensures resultTypes.None? ==> c.resultTypes != [] && Text.NoDuplicates(c.resultTypes)
    ensures resultTypes.None? && (forall j :: 0 <= j < |tree| ==> CandidateDate(tree[j]).None?) ==>
      c.resultTypes == ["TOP_10"]
    ensures resultTypes.None? ==> forall i: nat :: IsLatest(tree, i) ==>
      c.resultTypes == if CategoriesOf(tree[i].artifact) == [] then ["TOP_10"] else CategoriesOf(tree[i].artifact)
    ensures c.data == SortAll(GatherData(SortedEntries(tree), c.resultTypes))
    ensures c.annotations == GatherNotes(SortedEntries(tree), annotations)
    ensures (forall j :: 0 <= j < |tree| ==> CandidateDate(tree[j]).None?) ==> c.queryOrder == []
    ensures forall i: nat :: IsLatest(tree, i) ==> c.queryOrder == OrderOf(tree[i].artifact, FirstType(c.resultTypes))
  {
    var types := ChooseResultTypes(tree, resultTypes);
    var data, notes := Walk(SortedEntries(tree), types, annotations);
    data := SortPass(data, types);
    var order := QueryOrderFromLatest(tree, if types != [] then types[0] else "TOP_10");
    c := Collected(data, order, notes, types);
  }
}
