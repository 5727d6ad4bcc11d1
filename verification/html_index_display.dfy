/**
 * The data preparation at the top of `generate_html` in `make_html_index.py`: choosing the
 * default result type, turning every series into chart data (ISO 8601 dates and latencies), and
 * ordering the queries for display.
 */
module HtmlIndexDisplay {
  import opened Wrappers
  import opened Sorting
  import opened RunDates
  import opened HtmlIndexCollect
  import Text

  /** `'TOP_10' if 'TOP_10' in result_types else result_types[0] if result_types else 'TOP_10'` */
  function DefaultCategory(types: seq<string>): (c: string)
    ensures types != [] ==> c in types
    ensures "TOP_10" in types ==> c == "TOP_10"
    ensures c != "TOP_10" ==> types != [] && c == types[0]
  {
    if "TOP_10" in types then "TOP_10" else if types != [] then types[0] else "TOP_10"
  }

  /** The `{'dates': [...], 'latencies': [...]}` of one query. */
  datatype ChartSeries = ChartSeries(dates: seq<string>, latencies: seq<real>)

  /** The chart data of one result type: query to its chart series. */
  type Chart = map<string, ChartSeries>

  /** `[dp[0].isoformat() for dp in data_points]` and `[dp[1] for dp in data_points]` */
  function ChartSeriesOf(points: seq<Point>): (cs: ChartSeries)
    ensures |cs.dates| == |points| && |cs.latencies| == |points|
    ensures forall i :: 0 <= i < |points| ==> cs.dates[i] == IsoFormat(points[i].date)
    ensures forall i :: 0 <= i < |points| ==> cs.latencies[i] == points[i].latency
  {
    ChartSeries(seq(|points|, i requires 0 <= i < |points| => IsoFormat(points[i].date)),
                seq(|points|, i requires 0 <= i < |points| => points[i].latency))
  }

  /**
   * The chart's dates are in increasing string order exactly when the points are in date order,
   * so the date-sorted series of the collected data are drawn left to right in time.
   */
  lemma ChartDatesSorted(points: seq<Point>)
    ensures Text.Sorted(ChartSeriesOf(points).dates) <==> SortedBy(points, ByDate())
  {
    var dates := ChartSeriesOf(points).dates;
    forall i, j | 0 <= i < j < |points|
      ensures Text.LessEq(dates[i], dates[j]) <==> DateLe(points[i].date, points[j].date)
    {
      FormatKeepsOrder(points[i].date, points[j].date, ':');
    }
  }

  /** The chart data of one result type. */
  function ChartOf(qd: Series): Chart {
    map q | q in qd :: ChartSeriesOf(qd[q])
  }

  /** The loop over the queries of one result type. */
  method ChartEachQuery(qd: Series) returns (chart: Chart)
    ensures chart == ChartOf(qd)
  {
    chart := map[];
    var todo := qd.Keys;
    while todo != {}
      invariant todo <= qd.Keys
      invariant chart.Keys == qd.Keys - todo
      invariant forall q :: q in chart ==> chart[q] == ChartSeriesOf(qd[q])
      decreases todo
    {
      var q :| q in todo;
      chart := chart[q := ChartSeriesOf(qd[q])];
      todo := todo - {q};
    }
  }

  /**
   * The loop that builds `all_chart_data`; it stops with a `KeyError` (`None`) at the first
   * result type that has no query data.
   */
  method AllChartData(data: Data, types: seq<string>) returns (charts: Option<map<string, Chart>>)
    ensures charts.None? <==> exists rt :: rt in types && rt !in data
    ensures charts.Some? ==> forall rt :: rt in charts.value <==> rt in types
    ensures charts.Some? ==> forall rt :: rt in charts.value ==> rt in data && charts.value[rt] == ChartOf(data[rt])
  {
    var all: map<string, Chart> := map[];
    var k := 0;
    while k < |types|
      invariant 0 <= k <= |types|
      invariant forall j :: 0 <= j < k ==> types[j] in data
      invariant forall rt :: rt in all <==> rt in types[..k]
      invariant forall rt :: rt in all ==> rt in data && all[rt] == ChartOf(data[rt])
    {
      var rt := types[k];
      if rt !in data {
        return None;
      }
      var chart := ChartEachQuery(data[rt]);
      all := all[rt := chart];
      assert types[..k + 1] == types[..k] + [rt];
      k := k + 1;
    }
    assert types[..k] == types;
    charts := Some(all);
  }

  /** `[q for q in query_order if q in chart_data]` */
  function Filtered(order: seq<string>, keys: set<string>): seq<string> {
    if order == [] then []
    else
      var n := |order| - 1;
      Filtered(order[..n], keys) + if order[n] in keys then [order[n]] else []
  }

  lemma {:induction false} FilteredMembers(order: seq<string>, keys: set<string>, q: string)
    ensures q in Filtered(order, keys) <==> q in order && q in keys
  {
    if order != [] {
      var n := |order| - 1;
      FilteredMembers(order[..n], keys, q);
      assert order == order[..n] + [order[n]];
    }
  }

  lemma {:induction false} FilteredNoDuplicates(order: seq<string>, keys: set<string>)
    requires Text.NoDuplicates(order)
    ensures Text.NoDuplicates(Filtered(order, keys))
  {
    if order != [] {
      var n := |order| - 1;
      FilteredNoDuplicates(order[..n], keys);
      FilteredMembers(order[..n], keys, order[n]);
      assert order[n] !in order[..n] by {
        forall k | 0 <= k < n ensures order[..n][k] != order[n] {
          assert order[..n][k] == order[k];
        }
      }
    }
  }

  /** The queries in display order: those of the query order first, the rest sorted after them. */
  function DisplayOrder(order: seq<string>, keys: set<string>): seq<string> {
    if order != [] then
      var ordered := Filtered(order, keys);
      ordered + Text.SortedElements(keys - set q | q in ordered)
    else
      Text.SortedElements(keys)
  }

  /** A chart is shown for exactly the queries that have data. */
  lemma DisplayOrderCovers(order: seq<string>, keys: set<string>, q: string)
    ensures q in DisplayOrder(order, keys) <==> q in keys
  {
    FilteredMembers(order, keys, q);
  }

  /**
   * Every query of the query order comes before every query missing from it, and the queries
   * missing from it are in increasing order.
   */
  lemma DisplayOrderShape(order: seq<string>, keys: set<string>)
    ensures var d := DisplayOrder(order, keys);
      && (forall i, j :: 0 <= i < |d| && 0 <= j < |d| && d[i] in order && d[j] !in order ==> i < j)
      && (forall i, j :: 0 <= i < j < |d| && d[i] !in order ==> Text.LessEq(d[i], d[j]))
  {
    if order != [] {
      var ordered := Filtered(order, keys);
      var rest := Text.SortedElements(keys - set q | q in ordered);
      var d := ordered + rest;
      forall i | 0 <= i < |ordered| ensures d[i] in order {
        FilteredMembers(order, keys, ordered[i]);
      }
      forall j | |ordered| <= j < |d| ensures d[j] !in order {
        assert d[j] == rest[j - |ordered|] && rest[j - |ordered|] in rest;
        FilteredMembers(order, keys, d[j]);
      }
    }
  }

  /** A sequence without duplicates has as many elements as its set. */
  lemma {:induction false} DistinctCount(s: seq<string>)
    requires Text.NoDuplicates(s)
    ensures |set x | x in s| == |s|
  {
    if s != [] {
      var n := |s| - 1;
      DistinctCount(s[..n]);
      assert s[n] !in s[..n] by {
        forall k | 0 <= k < n ensures s[..n][k] != s[n] {
          assert s[..n][k] == s[k];
        }
      }
      assert s == s[..n] + [s[n]];
      assert (set x | x in s) == (set x | x in s[..n]) + {s[n]};
    }
  }

  /** With a query order free of repeats, every query is shown exactly once. */
  lemma DisplayOrderDistinct(order: seq<string>, keys: set<string>)
    requires Text.NoDuplicates(order)
    ensures Text.NoDuplicates(DisplayOrder(order, keys))
    ensures |DisplayOrder(order, keys)| == |keys|
  {
    if order != [] {
      var ordered := Filtered(order, keys);
      var shown := set q | q in ordered;
      var rest := Text.SortedElements(keys - shown);
      FilteredNoDuplicates(order, keys);
      DistinctCount(ordered);
      assert shown <= keys by {
        forall q | q in shown ensures q in keys {
          FilteredMembers(order, keys, q);
        }
      }
      assert |keys - shown| == |keys| - |shown|;
      forall i, j | 0 <= i < j < |ordered + rest| ensures (ordered + rest)[i] != (ordered + rest)[j] {
        if i < |ordered| && j >= |ordered| {
          assert (ordered + rest)[i] in shown;
          assert (ordered + rest)[j] == rest[j - |ordered|] && rest[j - |ordered|] in rest;
        }
      }
    }
  }

  /** The query order is not deduplicated: a query listed twice gets two charts. */
  lemma RepeatedQueryShownTwice()
    ensures DisplayOrder(["q", "q"], {"q"}) == ["q", "q"]
  {
    var order := ["q", "q"];
    assert order[..1] == ["q"] && order[..1][..0] == [];
    assert Filtered(order, {"q"}) == ["q", "q"];
    assert (set x | x in ["q", "q"]) == {"q"};
    assert Text.SortedElements({}) == [];
  }

  /** What the page starts from: the default result type, all chart data, and the display order. */
  datatype View = View(defaultType: string, charts: map<string, Chart>, displayOrder: seq<string>)

  /**
   * The top of `generate_html`: it fails with a `KeyError` (`None`) when a result type has no
   * query data, or when there are no result types at all, since `'TOP_10'` then has no chart.
   */
  method PrepareView(data: Data, queryOrder: seq<string>, types: seq<string>) returns (view: Option<View>)
    ensures view.None? <==> types == [] || exists rt :: rt in types && rt !in data
    ensures view.Some? ==> view.value.defaultType == DefaultCategory(types) && view.value.defaultType in types
    ensures view.Some? ==> forall rt :: rt in view.value.charts <==> rt in types
    ensures view.Some? ==> forall rt :: rt in view.value.charts ==> rt in data && view.value.charts[rt] == ChartOf(data[rt])
    ensures view.Some? ==> view.value.displayOrder == DisplayOrder(queryOrder, data[DefaultCategory(types)].Keys)
  {
    var defaultType := DefaultCategory(types);
    var charts := AllChartData(data, types);
    if charts.None? || defaultType !in charts.value {
      return None;
    }
    var chart := charts.value[defaultType];
    assert chart.Keys == data[defaultType].Keys;
    var display: seq<string>;
    if queryOrder != [] {
      var ordered := Filtered(queryOrder, chart.Keys);
      var remaining := Text.SortedElements(chart.Keys - set q | q in ordered);
      display := ordered + remaining;
    } else {
      display := Text.SortedElements(chart.Keys);
    }
    view := Some(View(defaultType, charts.value, display));
  }
}
