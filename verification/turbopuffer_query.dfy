/**
 * The query driver of the turbopuffer engine (`engines/turbopuffer/src/bin/do_query.rs`): each
 * input line `<COMMAND>\t<query>` becomes one request body, built from the command table, the
 * filter list and the body shape. The HTTP exchange and the response checks are not modelled.
 */
module TurbopufferQuery {
  import opened Wrappers
  import Text

  /** What a command asks for: how many rows (0 for a count) and which filter bucket. */
  datatype Entry = Entry(topK: nat, bucket: Option<string>)

  /** The filter buckets a command can name. */
  predicate IsBucket(b: string) {
    b == "80%" || b == "20%" || b == "5%"
  }

  /** The commands of the table: every bucket for counts and top 10, 100 and 1000, and top 10000 unfiltered. */
  predicate Supported(e: Entry) {
    || (e.topK in {0, 10, 100, 1000} && (e.bucket.None? || IsBucket(e.bucket.value)))
    || (e.topK == 10000 && e.bucket.None?)
  }

  /** The command naming an entry: `COUNT` or `TOP_<k>`, then `_FILTER_<bucket>` when filtered. */
  function CommandName(e: Entry): string {
    (if e.topK == 0 then "COUNT" else "TOP_" + Text.Decimal(e.topK))
      + (if e.bucket.Some? then "_FILTER_" + e.bucket.value else "")
  }

  /** The `match command` table; `None` for an unsupported command. */
  function CommandTable(command: string): Option<Entry> {
    if command == "TOP_10" then Some(Entry(10, None))
    else if command == "TOP_100" then Some(Entry(100, None))
    else if command == "TOP_1000" then Some(Entry(1000, None))
    else if command == "TOP_10000" then Some(Entry(10000, None))
    else if command == "TOP_10_FILTER_80%" then Some(Entry(10, Some("80%")))
    else if command == "TOP_10_FILTER_20%" then Some(Entry(10, Some("20%")))
    else if command == "TOP_10_FILTER_5%" then Some(Entry(10, Some("5%")))
    else if command == "TOP_100_FILTER_80%" then Some(Entry(100, Some("80%")))
    else if command == "TOP_100_FILTER_20%" then Some(Entry(100, Some("20%")))
    else if command == "TOP_100_FILTER_5%" then Some(Entry(100, Some("5%")))
    else if command == "TOP_1000_FILTER_80%" then Some(Entry(1000, Some("80%")))
    else if command == "TOP_1000_FILTER_20%" then Some(Entry(1000, Some("20%")))
    else if command == "TOP_1000_FILTER_5%" then Some(Entry(1000, Some("5%")))
    else if command == "COUNT" then Some(Entry(0, None))
    else if command == "COUNT_FILTER_80%" then Some(Entry(0, Some("80%")))
    else if command == "COUNT_FILTER_20%" then Some(Entry(0, Some("20%")))
    else if command == "COUNT_FILTER_5%" then Some(Entry(0, Some("5%")))
    else None
  }

  lemma DecimalOfTableSizes()
    ensures Text.Decimal(10) == "10" && Text.Decimal(100) == "100" && Text.Decimal(1000) == "1000" && Text.Decimal(10000) == "10000"
  {
    assert Text.Decimal(1) == "1";
    assert Text.Decimal(10) == Text.Decimal(1) + "0";
    assert Text.Decimal(100) == Text.Decimal(10) + "0";
    assert Text.Decimal(1000) == Text.Decimal(100) + "0";
    assert Text.Decimal(10000) == Text.Decimal(1000) + "0";
  }

  /** The names of the count entries. */
  lemma CountNames()
    ensures CommandName(Entry(0, None)) == "COUNT"
    ensures CommandName(Entry(0, Some("80%"))) == "COUNT_FILTER_80%"
    ensures CommandName(Entry(0, Some("20%"))) == "COUNT_FILTER_20%"
    ensures CommandName(Entry(0, Some("5%"))) == "COUNT_FILTER_5%"
  {
  }

  /** The names of the unfiltered top-k entries. */
  lemma TopNames()
    ensures CommandName(Entry(10, None)) == "TOP_10"
    ensures CommandName(Entry(100, None)) == "TOP_100"
    ensures CommandName(Entry(1000, None)) == "TOP_1000"
    ensures CommandName(Entry(10000, None)) == "TOP_10000"
  {
    DecimalOfTableSizes();
  }

  /** The names of the filtered top-10 entries. */
  lemma FilteredTopTenNames()
    ensures CommandName(Entry(10, Some("80%"))) == "TOP_10_FILTER_80%"
    ensures CommandName(Entry(10, Some("20%"))) == "TOP_10_FILTER_20%"
    ensures CommandName(Entry(10, Some("5%"))) == "TOP_10_FILTER_5%"
  {
    TopTenEightyName(); TopTenTwentyName(); TopTenFiveName();
  }

  lemma TopTenEightyName()
    ensures CommandName(Entry(10, Some("80%"))) == "TOP_10_FILTER_80%"
  {
    TopNames();
  }

  lemma TopTenTwentyName()
    ensures CommandName(Entry(10, Some("20%"))) == "TOP_10_FILTER_20%"
  {
    TopNames();
  }

  lemma TopTenFiveName()
    ensures CommandName(Entry(10, Some("5%"))) == "TOP_10_FILTER_5%"
  {
    TopNames();
  }

  /** The names of the filtered top-100 entries. */
  lemma FilteredTopHundredNames()
    ensures CommandName(Entry(100, Some("80%"))) == "TOP_100_FILTER_80%"
    ensures CommandName(Entry(100, Some("20%"))) == "TOP_100_FILTER_20%"
    ensures CommandName(Entry(100, Some("5%"))) == "TOP_100_FILTER_5%"
  {
    TopHundredEightyName(); TopHundredTwentyName(); TopHundredFiveName();
  }

  lemma TopHundredEightyName()
    ensures CommandName(Entry(100, Some("80%"))) == "TOP_100_FILTER_80%"
  {
    TopNames();
  }

  lemma TopHundredTwentyName()
    ensures CommandName(Entry(100, Some("20%"))) == "TOP_100_FILTER_20%"
  {
    TopNames();
  }

  lemma TopHundredFiveName()
    ensures CommandName(Entry(100, Some("5%"))) == "TOP_100_FILTER_5%"
  {
    TopNames();
  }

  /** The names of the filtered top-1000 entries. */
  lemma FilteredTopThousandNames()
    ensures CommandName(Entry(1000, Some("80%"))) == "TOP_1000_FILTER_80%"
    ensures CommandName(Entry(1000, Some("20%"))) == "TOP_1000_FILTER_20%"
    ensures CommandName(Entry(1000, Some("5%"))) == "TOP_1000_FILTER_5%"
  {
    TopThousandEightyName(); TopThousandTwentyName(); TopThousandFiveName();
  }

  lemma TopThousandEightyName()
    ensures CommandName(Entry(1000, Some("80%"))) == "TOP_1000_FILTER_80%"
  {
    TopNames();
  }

  lemma TopThousandTwentyName()
    ensures CommandName(Entry(1000, Some("20%"))) == "TOP_1000_FILTER_20%"
  {
    TopNames();
  }

  lemma TopThousandFiveName()
    ensures CommandName(Entry(1000, Some("5%"))) == "TOP_1000_FILTER_5%"
  {
    TopNames();
  }

  /** The table rows of the count commands. */
  lemma CountRows()
    ensures CommandTable("COUNT") == Some(Entry(0, None))
    ensures CommandTable("COUNT_FILTER_80%") == Some(Entry(0, Some("80%")))
    ensures CommandTable("COUNT_FILTER_20%") == Some(Entry(0, Some("20%")))
    ensures CommandTable("COUNT_FILTER_5%") == Some(Entry(0, Some("5%")))
  {
  }

  /** The table rows of the unfiltered top-k commands. */
  lemma TopRows()
    ensures CommandTable("TOP_10") == Some(Entry(10, None))
    ensures CommandTable("TOP_100") == Some(Entry(100, None))
    ensures CommandTable("TOP_1000") == Some(Entry(1000, None))
    ensures CommandTable("TOP_10000") == Some(Entry(10000, None))
  {
  }

  /** The table rows of the filtered top-10 commands. */
  lemma FilteredTopTenRows()
    ensures CommandTable("TOP_10_FILTER_80%") == Some(Entry(10, Some("80%")))
    ensures CommandTable("TOP_10_FILTER_20%") == Some(Entry(10, Some("20%")))
    ensures CommandTable("TOP_10_FILTER_5%") == Some(Entry(10, Some("5%")))
  {
  }

  /** The table rows of the filtered top-100 commands. */
  lemma FilteredTopHundredRows()
    ensures CommandTable("TOP_100_FILTER_80%") == Some(Entry(100, Some("80%")))
    ensures CommandTable("TOP_100_FILTER_20%") == Some(Entry(100, Some("20%")))
    ensures CommandTable("TOP_100_FILTER_5%") == Some(Entry(100, Some("5%")))
  {
  }

  /** The table rows of the filtered top-1000 commands. */
  lemma FilteredTopThousandRows()
    ensures CommandTable("TOP_1000_FILTER_80%") == Some(Entry(1000, Some("80%")))
    ensures CommandTable("TOP_1000_FILTER_20%") == Some(Entry(1000, Some("20%")))
    ensures CommandTable("TOP_1000_FILTER_5%") == Some(Entry(1000, Some("5%")))
  {
  }

  /** The commands the table has a row for. */
  lemma TableDomain(command: string)
    requires CommandTable(command).Some?
    ensures command in {
      "TOP_10", "TOP_100", "TOP_1000", "TOP_10000",
      "TOP_10_FILTER_80%", "TOP_10_FILTER_20%", "TOP_10_FILTER_5%",
      "TOP_100_FILTER_80%", "TOP_100_FILTER_20%", "TOP_100_FILTER_5%",
      "TOP_1000_FILTER_80%", "TOP_1000_FILTER_20%", "TOP_1000_FILTER_5%",
      "COUNT", "COUNT_FILTER_80%", "COUNT_FILTER_20%", "COUNT_FILTER_5%"}
  {
  }

  /** Each entry of the table is supported, and the command that selects it is its name. */
  lemma TableEntryNamed(command: string)
    requires CommandTable(command).Some?
    ensures Supported(CommandTable(command).value) && CommandName(CommandTable(command).value) == command
  {
    TableDomain(command);
    CountNames();
    CountRows();
    TopNames();
    TopRows();
    FilteredTopTenNames();
    FilteredTopTenRows();
    FilteredTopHundredNames();
    FilteredTopHundredRows();
    FilteredTopThousandNames();
    FilteredTopThousandRows();
  }

  /** The name of a supported entry selects that entry. */
  lemma NameInTable(e: Entry)
    requires Supported(e)
    ensures CommandTable(CommandName(e)) == Some(e)
  {
    if e.topK == 0 {
      CountNames();
      CountRows();
    } else if e.bucket.None? {
      TopNames();
      TopRows();
    } else if e.topK == 10 {
      FilteredTopTenNames();
      FilteredTopTenRows();
    } else if e.topK == 100 {
      FilteredTopHundredNames();
      FilteredTopHundredRows();
    } else {
      FilteredTopThousandNames();
      FilteredTopThousandRows();
    }
  }

  /**
   * The table maps exactly the names of the supported entries, each to the entry it names: a
   * command is read as `TOP_<k>` with an optional `_FILTER_<bucket>`, or as `COUNT` (zero rows).
   */
  lemma CommandTableExactly(command: string, e: Entry)
    ensures CommandTable(command) == Some(e) <==> Supported(e) && command == CommandName(e)
  {
    if CommandTable(command) == Some(e) {
      TableEntryNamed(command);
    }
    if Supported(e) && command == CommandName(e) {
      NameInTable(e);
    }
  }

  /** Every entry of the table is supported, so an unsupported command is exactly one the table lacks. */
  lemma UnsupportedCommand(command: string)
    ensures CommandTable(command).None? <==> forall e :: Supported(e) ==> command != CommandName(e)
  {
    if CommandTable(command).Some? {
      CommandTableExactly(command, CommandTable(command).value);
    } else {
      forall e | Supported(e) ensures command != CommandName(e) {
        CommandTableExactly(command, e);
      }
    }
  }

  /** One filter of the request, as the triple `[attribute, operator, value]`. */
  datatype Filter = Filter(attribute: string, op: string, value: string)

  /** Whether the query is an intersection: it contains a `+`. */
  predicate IsIntersection(query: string) {
    '+' in query
  }

  /**
   * The filter list: the bucket's `Contains` filter first when there is a bucket, then
   * `ContainsAllTokens` for an intersection query, or `ContainsAnyToken` for any other query of a
   * count; so at most two filters, and never none for a count.
   */
  function FilterList(topK: nat, bucket: Option<string>, query: string): (filters: seq<Filter>)
    ensures |filters| == (if bucket.Some? then 1 else 0) + (if IsIntersection(query) || topK == 0 then 1 else 0)
    ensures |filters| <= 2
    ensures topK == 0 ==> filters != []
    ensures bucket.Some? ==> filters[0] == Filter("filter", "Contains", bucket.value)
    ensures IsIntersection(query) ==> filters[|filters| - 1] == Filter("text", "ContainsAllTokens", query)
    ensures !IsIntersection(query) && topK == 0 ==> filters[|filters| - 1] == Filter("text", "ContainsAnyToken", query)
  {
    (if bucket.Some? then [Filter("filter", "Contains", bucket.value)] else [])
      + (if IsIntersection(query) then [Filter("text", "ContainsAllTokens", query)]
         else if topK == 0 then [Filter("text", "ContainsAnyToken", query)]
         else [])
  }

  /** The `filters.push` sequence of the driver. */
  method BuildFilters(topK: nat, bucket: Option<string>, query: string) returns (filters: seq<Filter>)
    ensures filters == FilterList(topK, bucket, query)
  {
    var isIntersection := '+' in query;
    filters := [];
    if bucket.Some? {
      filters := filters + [Filter("filter", "Contains", bucket.value)];
    }
    if isIntersection {
      filters := filters + [Filter("text", "ContainsAllTokens", query)];
    }
    if topK == 0 {
      if !isIntersection {
        filters := filters + [Filter("text", "ContainsAnyToken", query)];
      }
    }
  }

  /** The `filters` value of a body: one filter bare, or `["And", filters]`. */
  datatype FilterArg = Bare(filter: Filter) | And(filters: seq<Filter>)

  /**
   * A request body. A count aggregates with `Count` and always carries `filters`; a top-k request
   * ranks by BM25 over the query and carries `filters` only when there are some. Both ask for
   * eventual consistency.
   */
  datatype Body = Aggregate(countFilters: FilterArg) | Rank(query: string, filters: Option<FilterArg>, topK: nat)

  function ArgOf(filters: seq<Filter>): FilterArg {
    if |filters| == 1 then Bare(filters[0]) else And(filters)
  }

  /** The filters a `filters` value carries. */
  function Flatten(arg: FilterArg): seq<Filter> {
    match arg
    case Bare(f) => [f]
    case And(fs) => fs
  }

  /** The body shape: a count for `top_k == 0`, otherwise a ranked query; the filter argument by count. */
  function RequestBody(topK: nat, filters: seq<Filter>, query: string): (body: Body)
    ensures body.Aggregate? <==> topK == 0
    ensures body.Rank? ==> body.query == query && body.topK == topK && (body.filters.None? <==> filters == [])
    ensures |filters| == 1 ==> (body.Aggregate? && body.countFilters == Bare(filters[0])) || (body.Rank? && body.filters == Some(Bare(filters[0])))
    ensures |filters| != 1 && body.Aggregate? ==> body.countFilters == And(filters)
    ensures |filters| >= 2 && body.Rank? ==> body.filters == Some(And(filters))
  {
    if topK == 0 then Aggregate(ArgOf(filters))
    else if filters == [] then Rank(query, None, topK)
    else Rank(query, Some(ArgOf(filters)), topK)
  }

  /** The body sends exactly the filter list, and a single filter is never wrapped. */
  lemma BodyCarriesFilters(topK: nat, bucket: Option<string>, query: string)
    ensures var filters := FilterList(topK, bucket, query);
      var body := RequestBody(topK, filters, query);
      && (body.Aggregate? ==> Flatten(body.countFilters) == filters)
      && (body.Rank? && body.filters.Some? ==> Flatten(body.filters.value) == filters)
      && (body.Rank? && body.filters.None? ==> filters == [])
      && (body.Aggregate? ==> (body.countFilters.Bare? <==> |filters| == 1))
  {
  }

  /** A top-k request without bucket over a plain query is unfiltered. */
  lemma PlainTopKIsUnfiltered(k: nat, query: string)
    requires k > 0 && !IsIntersection(query)
    ensures RequestBody(k, FilterList(k, None, query), query) == Rank(query, None, k)
  {
  }

  /** What one input line leads to. */
  datatype Event = Unsupported(command: string) | Send(body: Body)

  /**
   * One line: it must split on tab into exactly two fields (`None`: the assertion fails); an
   * unknown command is reported and skipped; any other line sends its request.
   */
  function LineEvent(line: string): (event: Option<Event>)
    ensures event.None? <==> |Text.Split(line, '\t')| != 2
    ensures event.Some? ==> var command := Text.Split(line, '\t')[0];
      (event.value.Unsupported? <==> CommandTable(command).None?)
      && (event.value.Unsupported? ==> event.value.command == command)
  {
    var fields := Text.Split(line, '\t');
    if |fields| != 2 then None
    else
      var command, query := fields[0], fields[1];
      match CommandTable(command)
      case None => Some(Unsupported(command))
      case Some(e) => Some(Send(RequestBody(e.topK, FilterList(e.topK, e.bucket, query), query)))
  }

  /** A well-formed line has a tab-free command and query, and sends the request of its table entry. */
  lemma LineSends(command: string, query: string, e: Entry)
    requires '\t' !in command && '\t' !in query && Supported(e) && command == CommandName(e)
    ensures LineEvent(command + "\t" + query) == Some(Send(RequestBody(e.topK, FilterList(e.topK, e.bucket, query), query)))
  {
    Text.SplitTwo(command, query, '\t');
    NameInTable(e);
  }

  /** The driver's output: what each line led to, and whether a malformed line stopped it. */
  function Events(lines: seq<string>): (seq<Event>, bool) {
    if lines == [] then ([], false)
    else
      match LineEvent(lines[0])
      case None => ([], true)
      case Some(event) =>
        var rest := Events(lines[1..]);
        ([event] + rest.0, rest.1)
  }

  /** The loop's invariant: `events` followed by the events of `lines[i..]` are those of `lines`. */
  predicate EventsFrom(lines: seq<string>, i: nat, events: seq<Event>)
    requires i <= |lines|
  {
    var all, rest := Events(lines), Events(lines[i..]);
    all.0 == events + rest.0 && all.1 == rest.1
  }

  /** A line that leads to an event moves the loop on by one line. */
  lemma EventsAdvance(lines: seq<string>, i: nat, events: seq<Event>)
    requires i < |lines| && EventsFrom(lines, i, events)
    requires LineEvent(lines[i]).Some?
    ensures EventsFrom(lines, i + 1, events + [LineEvent(lines[i]).value])
  {
    assert lines[i..][0] == lines[i] && lines[i..][1..] == lines[i + 1..];
    var next := Events(lines[i + 1..]);
    assert events + ([LineEvent(lines[i]).value] + next.0) == (events + [LineEvent(lines[i]).value]) + next.0;
  }

  /** A malformed line ends the run with the events before it. */
  lemma EventsStop(lines: seq<string>, i: nat, events: seq<Event>)
    requires i < |lines| && EventsFrom(lines, i, events)
    requires LineEvent(lines[i]).None?
    ensures Events(lines) == (events, true)
  {
    assert lines[i..][0] == lines[i];
    assert events + [] == events;
  }

  /** The body of the loop: split the line, look the command up, and build the request. */
  method HandleLine(line: string) returns (event: Option<Event>)
    ensures event == LineEvent(line)
  {
    var fields := Text.Split(line, '\t');
    if |fields| != 2 {
      return None;
    }
    var command, query := fields[0], fields[1];
    var entry := CommandTable(command);
    if entry.None? {
      event := Some(Unsupported(command));
    } else {
      var filters := BuildFilters(entry.value.topK, entry.value.bucket, query);
      event := Some(Send(RequestBody(entry.value.topK, filters, query)));
    }
  }

  /** The loop over the input lines. */
  method Run(lines: seq<string>) returns (events: seq<Event>, panicked: bool)
    ensures (events, panicked) == Events(lines)
  {
    events := [];
    var i := 0;
    assert lines[0..] == lines && events + Events(lines).0 == Events(lines).0;
    while i < |lines|
      invariant 0 <= i <= |lines|
      invariant EventsFrom(lines, i, events)
    {
      var event := HandleLine(lines[i]);
      if event.None? {
        EventsStop(lines, i, events);
        return events, true;
      }
      EventsAdvance(lines, i, events);
      events := events + [event.value];
      i := i + 1;
    }
    assert lines[i..] == [] && events + [] == events;
    panicked := false;
  }

  /** The driver stops exactly at a malformed line; until then every line leads to one event. */
  lemma {:induction false} EventsPerLine(lines: seq<string>)
    ensures Events(lines).1 <==> exists i :: 0 <= i < |lines| && |Text.Split(lines[i], '\t')| != 2
    ensures !Events(lines).1 ==> |Events(lines).0| == |lines|
  {
    if lines != [] {
      EventsPerLine(lines[1..]);
      if |Text.Split(lines[0], '\t')| == 2 {
        forall i | 1 <= i < |lines| ensures lines[i] == lines[1..][i - 1] {}
        if Events(lines).1 {
          var i :| 0 <= i < |lines[1..]| && |Text.Split(lines[1..][i], '\t')| != 2;
          assert lines[i + 1] == lines[1..][i];
        }
      }
    }
  }
}
