/**
 * The query driver of the Lucene engine (`engines/lucene-10.3.0/src/main/java/DoQuery.java`):
 * each input line is trimmed and split on tab into a command and a query; a filter suffix on the
 * command becomes a filter clause on the query; the remaining command picks the search; and one
 * count is printed per line. The query parser and the searcher are parameters.
 */
module LuceneQuery {
  import opened Wrappers
  import Text

  /** The characters `String.trim()` removes: everything up to U+0020. */
  predicate IsTrimmed(c: char) {
    c <= ' '
  }

  predicate AllTrimmed(s: string) {
    forall k :: 0 <= k < |s| ==> IsTrimmed(s[k])
  }

  /** `r` is `s` after a run of trimmed characters. */
  predicate TrimmedBefore(s: string, r: string) {
    |r| <= |s| && r == s[|s| - |r|..] && AllTrimmed(s[..|s| - |r|])
  }

  /** `r` is `s` before a run of trimmed characters. */
  predicate TrimmedAfter(s: string, r: string) {
    |r| <= |s| && r == s[..|r|] && AllTrimmed(s[|r|..])
  }

  /** The text without its leading trimmed characters. */
  function TrimStart(s: string): (r: string)
    ensures TrimmedBefore(s, r)
    ensures r != [] ==> !IsTrimmed(r[0])
  {
    if s == [] || !IsTrimmed(s[0]) then s
    else
      var r := TrimStart(s[1..]);
      assert s[1..][..|s[1..]| - |r|] == s[1..|s| - |r|];
      r
  }

  /** The text without its trailing trimmed characters. */
  function TrimEnd(s: string): (r: string)
    ensures TrimmedAfter(s, r)
    ensures r != [] ==> !IsTrimmed(r[|r| - 1])
  {
    if s == [] || !IsTrimmed(s[|s| - 1]) then s else TrimEnd(s[..|s| - 1])
  }

  /** `String.trim()` */
  function Trim(s: string): (t: string)
    ensures t != [] ==> !IsTrimmed(t[0]) && !IsTrimmed(t[|t| - 1])
  {
    TrimEnd(TrimStart(s))
  }

  /** Trimming twice is trimming once. */
  lemma TrimIdempotent(s: string)
    ensures Trim(Trim(s)) == Trim(s)
  {
    var t := Trim(s);
    if t != [] {
      assert TrimStart(t) == t;
      assert TrimEnd(t) == t;
    }
  }

  predicate AllEmpty(fields: seq<string>) {
    forall k :: 0 <= k < |fields| ==> fields[k] == ""
  }

  /** `r` is `fields` before a run of empty fields. */
  predicate EmptyAfter(fields: seq<string>, r: seq<string>) {
    |r| <= |fields| && r == fields[..|r|] && AllEmpty(fields[|r|..])
  }

  /** The fields with the empty fields at the end removed. */
  function DropTrailingEmpty(fields: seq<string>): (r: seq<string>)
    ensures EmptyAfter(fields, r)
    ensures r != [] ==> r[|r| - 1] != ""
  {
    if fields == [] || fields[|fields| - 1] != "" then fields
    else DropTrailingEmpty(fields[..|fields| - 1])
  }

  /**
   * `String.split("\t")`: the fields between tabs, with the empty fields at the end removed; a
   * text without a tab is its own single field.
   */
  function JavaSplit(s: string): seq<string> {
    if '\t' !in s then [s] else DropTrailingEmpty(Text.Split(s, '\t'))
  }

  /** A line of a command and a non-empty query, both without tabs, reads back as those two fields. */
  lemma JavaSplitTwo(command: string, query: string)
    requires '\t' !in command && '\t' !in query && query != ""
    ensures JavaSplit(command + "\t" + query) == [command, query]
  {
    Text.SplitTwo(command, query, '\t');
    var line := command + "\t" + query;
    assert line[|command|] == '\t';
  }

  /** A line whose query is empty reads as one field: `trim()` removes the trailing tab, so the split finds no tab. */
  lemma EmptyQueryIsOneField()
    ensures JavaSplit(Trim("COUNT\t")) == ["COUNT"]
  {
    var t := "COUNT\t";
    assert !IsTrimmed(t[0]) && IsTrimmed(t[5]);
    assert TrimStart(t) == t;
    assert t[..5] == "COUNT";
    assert TrimEnd(t[..5]) == "COUNT";
    assert '\t' !in "COUNT";
  }

  /** Why a driver stops: a failed `assert`, an array index out of bounds, or a query that does not parse. */
  datatype Failure = AssertionFailed | IndexOutOfBounds | ParseFailed

  /** The command and query of a line, or why reading it failed. */
  datatype Fields = Fields(command: string, query: string) | Unreadable(failure: Failure)

  /**
   * `fields = line.trim().split("\t")`, `assert fields.length == 2`, then `fields[0]` and
   * `fields[1]`. Java checks `assert` only when assertions are enabled; otherwise a line with
   * fewer than two fields fails at `fields[1]` and extra fields are ignored.
   */
  function ReadFields(line: string, assertionsEnabled: bool): (r: Fields)
    ensures var n := |JavaSplit(Trim(line))|;
      && (r == Unreadable(AssertionFailed) <==> assertionsEnabled && n != 2)
      && (r == Unreadable(IndexOutOfBounds) <==> !assertionsEnabled && n < 2)
      && (r.Fields? <==> n == 2 || (!assertionsEnabled && n > 2))
    ensures r.Fields? ==> var fields := JavaSplit(Trim(line));
      |fields| >= 2 && r.command == fields[0] && r.query == fields[1]
  {
    var fields := JavaSplit(Trim(line));
    if assertionsEnabled && |fields| != 2 then Unreadable(AssertionFailed)
    else if |fields| < 2 then Unreadable(IndexOutOfBounds)
    else Fields(fields[0], fields[1])
  }

  /** A line made of a command and a query around one tab, with nothing to trim, reads as those two fields. */
  lemma ReadsTwoFields(command: string, query: string, assertionsEnabled: bool)
    requires '\t' !in command && '\t' !in query
    requires command != [] && !IsTrimmed(command[0]) && query != [] && !IsTrimmed(query[|query| - 1])
    ensures ReadFields(command + "\t" + query, assertionsEnabled) == Fields(command, query)
  {
    var line := command + "\t" + query;
    assert line[0] == command[0] && line[|line| - 1] == query[|query| - 1];
    assert TrimStart(line) == line;
    assert TrimEnd(line) == line;
    JavaSplitTwo(command, query);
  }

  /** A parsed query, possibly with a `filter` term added as a `FILTER` clause. */
  datatype Query = Parsed(text: string) | WithFilter(must: Query, bucket: string)

  const EightyPercentFilter := "_FILTER_80%"
  const TwentyPercentFilter := "_FILTER_20%"
  const FivePercentFilter := "_FILTER_5%"

  /** The filter buckets a command suffix can name. */
  predicate IsBucket(b: string) {
    b == "80%" || b == "20%" || b == "5%"
  }

  /**
   * The suffix chain: the first of `_FILTER_80%`, `_FILTER_20%` and `_FILTER_5%` the command ends
   * with is cut off, and its bucket returned; a command with none of them is left as it is.
   */
  function StripFilterSuffix(command: string): (string, Option<string>) {
    if Text.EndsWith(command, EightyPercentFilter) then
      (command[..|command| - |EightyPercentFilter|], Some("80%"))
    else if Text.EndsWith(command, TwentyPercentFilter) then
      (command[..|command| - |TwentyPercentFilter|], Some("20%"))
    else if Text.EndsWith(command, FivePercentFilter) then
      (command[..|command| - |FivePercentFilter|], Some("5%"))
    else (command, None)
  }

  /** The suffix chain, branch by branch. */
  lemma StripCases(command: string)
    ensures var n, r := |command|, StripFilterSuffix(command);
      && (Text.EndsWith(command, EightyPercentFilter) ==> r == (command[..n - 11], Some("80%")))
      && (!Text.EndsWith(command, EightyPercentFilter) && Text.EndsWith(command, TwentyPercentFilter) ==> r == (command[..n - 11], Some("20%")))
      && (!Text.EndsWith(command, EightyPercentFilter) && !Text.EndsWith(command, TwentyPercentFilter) && Text.EndsWith(command, FivePercentFilter) ==> r == (command[..n - 10], Some("5%")))
      && (!Text.EndsWith(command, EightyPercentFilter) && !Text.EndsWith(command, TwentyPercentFilter) && !Text.EndsWith(command, FivePercentFilter) ==> r == (command, None))
  {
  }

  /** A command ends with at most one of the filter suffixes. */
  lemma SuffixesExclusive(command: string)
    ensures !(Text.EndsWith(command, EightyPercentFilter) && Text.EndsWith(command, TwentyPercentFilter))
    ensures !(Text.EndsWith(command, EightyPercentFilter) && Text.EndsWith(command, FivePercentFilter))
    ensures !(Text.EndsWith(command, TwentyPercentFilter) && Text.EndsWith(command, FivePercentFilter))
  {
    var n := |command|;
    assert Text.EndsWith(command, EightyPercentFilter) ==> command[n - 3] == '8';
    assert Text.EndsWith(command, TwentyPercentFilter) ==> command[n - 3] == '2';
    assert Text.EndsWith(command, FivePercentFilter) ==> command[n - 3] == '_';
  }

  /** Cutting a suffix the command ends with, then putting it back, gives the command. */
  lemma CutSuffix(command: string, bucket: string)
    requires Text.EndsWith(command, "_FILTER_" + bucket)
    ensures command[..|command| - |"_FILTER_" + bucket|] + "_FILTER_" + bucket == command
  {
    var suffix := "_FILTER_" + bucket;
    var n := |command| - |suffix|;
    assert command == command[..n] + command[n..];
    assert command[..n] + "_FILTER_" + bucket == command[..n] + suffix;
  }

  /** The stripped command, with `_FILTER_` and the bucket found put back, is the command. */
  lemma StripRoundTrip(command: string)
    ensures var r := StripFilterSuffix(command);
      && (r.1.Some? ==> IsBucket(r.1.value) && r.0 + "_FILTER_" + r.1.value == command)
      && (r.1.None? ==> r.0 == command)
  {
    StripCases(command);
    assert EightyPercentFilter == "_FILTER_" + "80%";
    assert TwentyPercentFilter == "_FILTER_" + "20%";
    assert FivePercentFilter == "_FILTER_" + "5%";
    if Text.EndsWith(command, EightyPercentFilter) {
      CutSuffix(command, "80%");
    } else if Text.EndsWith(command, TwentyPercentFilter) {
      CutSuffix(command, "20%");
    } else if Text.EndsWith(command, FivePercentFilter) {
      CutSuffix(command, "5%");
    }
  }

  /** The bucket found is the one whose suffix the command ends with, whatever its place in the chain. */
  lemma StripFindsSuffix(command: string)
    ensures StripFilterSuffix(command).1 == Some("80%") <==> Text.EndsWith(command, EightyPercentFilter)
    ensures StripFilterSuffix(command).1 == Some("20%") <==> Text.EndsWith(command, TwentyPercentFilter)
    ensures StripFilterSuffix(command).1 == Some("5%") <==> Text.EndsWith(command, FivePercentFilter)
  {
    StripCases(command);
    SuffixesExclusive(command);
  }

  /** A command ending with a bucket's suffix loses exactly that suffix. */
  lemma StripEnding(command: string, bucket: string)
    requires IsBucket(bucket) && Text.EndsWith(command, "_FILTER_" + bucket)
    ensures StripFilterSuffix(command) == (command[..|command| - |"_FILTER_" + bucket|], Some(bucket))
  {
    StripFindsSuffix(command);
    StripCases(command);
    if bucket == "80%" {
      assert "_FILTER_" + bucket == EightyPercentFilter;
    } else if bucket == "20%" {
      assert "_FILTER_" + bucket == TwentyPercentFilter;
    } else {
      assert "_FILTER_" + bucket == FivePercentFilter;
    }
  }

  /** Appending a filter suffix to a command is undone by stripping it. */
  lemma StripAppended(base: string, bucket: string)
    requires IsBucket(bucket)
    ensures StripFilterSuffix(base + "_FILTER_" + bucket) == (base, Some(bucket))
  {
    var command := base + "_FILTER_" + bucket;
    var suffix := "_FILTER_" + bucket;
    assert command == base + suffix;
    assert command[|command| - |suffix|..] == suffix;
    assert command[..|command| - |suffix|] == base;
    StripEnding(command, bucket);
  }

  /** Only one suffix is stripped: a doubly filtered command keeps its first filter in the command. */
  lemma StripsOnce()
    ensures StripFilterSuffix("COUNT_FILTER_5%_FILTER_80%") == ("COUNT_FILTER_5%", Some("80%"))
  {
    assert "COUNT_FILTER_5%" + "_FILTER_" + "80%" == "COUNT_FILTER_5%_FILTER_80%";
    StripAppended("COUNT_FILTER_5%", "80%");
  }

  /** The query with the filter clause of the bucket, if any. */
  function WithBucket(query: Query, bucket: Option<string>): Query {
    if bucket.Some? then WithFilter(query, bucket.value) else query
  }

  /** `Integer.MAX_VALUE` */
  const IntegerMaxValue: int := 0x7fff_ffff

  /** A search: a plain hit count, or top-`numHits` collection counting hits exactly up to `threshold`. */
  datatype Search = CountHits(query: Query) | Collect(query: Query, numHits: nat, threshold: int)

  /**
   * The `switch (command)`: a count, a top-k search reported as 1, a top-k search reported with
   * its total hits, or an unsupported command.
   */
  datatype Dispatch = Counted(search: Search) | TopOnly(search: Search) | TopCounted(search: Search) | Unsupported

  function DispatchOf(command: string, query: Query): Dispatch {
    if command == "COUNT" || command == "UNOPTIMIZED_COUNT" then Counted(CountHits(query))
    else if command == "TOP_10" then TopOnly(Collect(query, 10, 10))
    else if command == "TOP_100" then TopOnly(Collect(query, 100, 100))
    else if command == "TOP_1000" then TopOnly(Collect(query, 1000, 1000))
    else if command == "TOP_10_COUNT" then TopCounted(Collect(query, 10, IntegerMaxValue))
    else if command == "TOP_100_COUNT" then TopCounted(Collect(query, 100, IntegerMaxValue))
    else if command == "TOP_1000_COUNT" then TopCounted(Collect(query, 1000, IntegerMaxValue))
    else Unsupported
  }

  /** `COUNT` and `UNOPTIMIZED_COUNT` are plain hit counts. */
  lemma DispatchCounted(command: string, query: Query)
    ensures DispatchOf(command, query).Counted? <==> command == "COUNT" || command == "UNOPTIMIZED_COUNT"
    ensures DispatchOf(command, query).Counted? ==> DispatchOf(command, query).search == CountHits(query)
  {
  }

  /** `TOP_<k>` collects the top `k` and counts hits only up to `k`. */
  lemma DispatchTopOnly(command: string, query: Query)
    ensures var d := DispatchOf(command, query);
      d.TopOnly? <==> command == "TOP_10" || command == "TOP_100" || command == "TOP_1000"
    ensures var d := DispatchOf(command, query);
      d.TopOnly? ==> (d.search.Collect? && d.search.query == query
        && d.search.threshold == d.search.numHits && command == "TOP_" + Text.Decimal(d.search.numHits))
  {
    DecimalOfSizes();
  }

  /** `TOP_<k>_COUNT` collects the top `k` and counts every hit. */
  lemma DispatchTopCounted(command: string, query: Query)
    ensures var d := DispatchOf(command, query);
      d.TopCounted? <==> command == "TOP_10_COUNT" || command == "TOP_100_COUNT" || command == "TOP_1000_COUNT"
    ensures var d := DispatchOf(command, query);
      d.TopCounted? ==> (d.search.Collect? && d.search.query == query
        && d.search.threshold == IntegerMaxValue && command == "TOP_" + Text.Decimal(d.search.numHits) + "_COUNT")
  {
    DecimalOfSizes();
  }

  /** Every other command is unsupported. */
  lemma DispatchUnsupported(command: string, query: Query)
    ensures DispatchOf(command, query).Unsupported? <==>
      command !in {"COUNT", "UNOPTIMIZED_COUNT", "TOP_10", "TOP_100", "TOP_1000", "TOP_10_COUNT", "TOP_100_COUNT", "TOP_1000_COUNT"}
  {
  }

  lemma DecimalOfSizes()
    ensures Text.Decimal(10) == "10" && Text.Decimal(100) == "100" && Text.Decimal(1000) == "1000"
  {
    assert Text.Decimal(1) == "1";
    assert Text.Decimal(10) == Text.Decimal(1) + "0";
    assert Text.Decimal(100) == Text.Decimal(10) + "0";
    assert Text.Decimal(1000) == Text.Decimal(100) + "0";
  }

  /** A line of output: the `UNSUPPORTED` notice, or a count. */
  datatype OutLine = UnsupportedLine | CountLine(count: int)

  /** What a dispatch prints, given the searcher's hit counts: the count line, after the notice when unsupported. */
  function Report(d: Dispatch, hits: Search -> int): (out: seq<OutLine>)
    ensures |out| >= 1 && out[|out| - 1].CountLine?
    ensures forall k :: 0 <= k < |out| - 1 ==> out[k] == UnsupportedLine
    ensures d.Unsupported? <==> out == [UnsupportedLine, CountLine(0)]
    ensures d.TopOnly? ==> out == [CountLine(1)]
    ensures d.Counted? || d.TopCounted? ==> out == [CountLine(hits(d.search))]
  {
    match d
    case Counted(s) => [CountLine(hits(s))]
    case TopOnly(_) => [CountLine(1)]
    case TopCounted(s) => [CountLine(hits(s))]
    case Unsupported => [UnsupportedLine, CountLine(0)]
  }

  /**
   * A driver: whether it applies the filter-suffix chain, whether the JVM checks `assert`, which
   * query texts the query parser accepts, and the hit counts the searcher answers.
   */
  datatype Driver = Driver(stripsFilterSuffix: bool, assertionsEnabled: bool, parses: string -> bool, hits: Search -> int)

  /** What one input line gives: its output lines, or the failure that ends the driver. */
  datatype LineResult = Printed(out: seq<OutLine>) | Crashed(failure: Failure)

  /** The handling of one line, with the suffix chain applied before the dispatch. */
  function LineOutput(line: string, driver: Driver): LineResult {
    match ReadFields(line, driver.assertionsEnabled)
    case Unreadable(failure) => Crashed(failure)
    case Fields(command, queryText) =>
      if !driver.parses(queryText) then Crashed(ParseFailed)
      else
        var (stripped, bucket) := if driver.stripsFilterSuffix then StripFilterSuffix(command) else (command, None);
        Printed(Report(DispatchOf(stripped, WithBucket(Parsed(queryText), bucket)), driver.hits))
  }

  /** The driver's output over all lines, up to the failure that ends it. */
  function RunOutput(lines: seq<string>, driver: Driver): (seq<OutLine>, Option<Failure>) {
    if lines == [] then ([], None)
    else
      match LineOutput(lines[0], driver)
      case Crashed(failure) => ([], Some(failure))
      case Printed(out) =>
        var rest := RunOutput(lines[1..], driver);
        (out + rest.0, rest.1)
  }

  /** The number of count lines. */
  function Counts(out: seq<OutLine>): nat {
    if out == [] then 0 else (if out[0].CountLine? then 1 else 0) + Counts(out[1..])
  }

  lemma {:induction false} CountsAppend(a: seq<OutLine>, b: seq<OutLine>)
    ensures Counts(a + b) == Counts(a) + Counts(b)
  {
    if a != [] {
      assert (a + b)[1..] == a[1..] + b;
      CountsAppend(a[1..], b);
    } else {
      assert a + b == b;
    }
  }

  lemma ReportOneCount(d: Dispatch, hits: Search -> int)
    ensures Counts(Report(d, hits)) == 1
  {
    var out := Report(d, hits);
    if d.Unsupported? {
      assert out[1..] == [CountLine(0)] && out[1..][1..] == [];
      assert Counts(out[1..][1..]) == 0;
      assert Counts(out[1..]) == 1;
    } else {
      assert out[1..] == [];
    }
  }

  /** Exactly one count line is printed for each input line, when no line ends the driver. */
  lemma {:induction false} OneCountPerLine(lines: seq<string>, driver: Driver)
    requires RunOutput(lines, driver).1.None?
    ensures Counts(RunOutput(lines, driver).0) == |lines|
  {
    if lines != [] {
      OneCountPerLine(lines[1..], driver);
      var result := LineOutput(lines[0], driver);
      var rest := RunOutput(lines[1..], driver);
      match ReadFields(lines[0], driver.assertionsEnabled)
      case Fields(command, queryText) =>
        var (stripped, bucket) := if driver.stripsFilterSuffix then StripFilterSuffix(command) else (command, None);
        ReportOneCount(DispatchOf(stripped, WithBucket(Parsed(queryText), bucket)), driver.hits);
        CountsAppend(result.out, rest.0);
    }
  }

  /** A command without a filter suffix is dispatched as it is, on the query as parsed. */
  lemma UnfilteredLine(line: string, driver: Driver)
    requires ReadFields(line, driver.assertionsEnabled).Fields?
    requires driver.parses(ReadFields(line, driver.assertionsEnabled).query)
    requires driver.stripsFilterSuffix ==> StripFilterSuffix(ReadFields(line, driver.assertionsEnabled).command).1.None?
    ensures var f := ReadFields(line, driver.assertionsEnabled);
      LineOutput(line, driver) == Printed(Report(DispatchOf(f.command, Parsed(f.query)), driver.hits))
  {
    StripRoundTrip(ReadFields(line, driver.assertionsEnabled).command);
  }

  /** A filtered command runs the search of its base command on the query with the bucket's filter clause. */
  lemma FilteredLine(base: string, bucket: string, queryText: string, driver: Driver)
    requires driver.stripsFilterSuffix && IsBucket(bucket) && '\t' !in base && '\t' !in queryText && driver.parses(queryText)
    requires base != [] && !IsTrimmed(base[0]) && queryText != [] && !IsTrimmed(queryText[|queryText| - 1])
    ensures LineOutput(base + "_FILTER_" + bucket + "\t" + queryText, driver)
      == Printed(Report(DispatchOf(base, WithFilter(Parsed(queryText), bucket)), driver.hits))
  {
    var command := base + "_FILTER_" + bucket;
    var line := command + "\t" + queryText;
    assert '\t' !in command by {
      assert '\t' !in "_FILTER_" + bucket;
    }
    assert command[0] == base[0];
    ReadsTwoFields(command, queryText, driver.assertionsEnabled);
    StripAppended(base, bucket);
  }

  /** A command whose last character is not `%` has no filter suffix, so the chain leaves it alone. */
  lemma NoSuffixWithoutPercent(command: string)
    requires command != [] && command[|command| - 1] != '%'
    ensures StripFilterSuffix(command) == (command, None)
  {
    var n := |command|;
    assert EightyPercentFilter[10] == '%' && TwentyPercentFilter[10] == '%' && FivePercentFilter[9] == '%';
    assert command[n - 1..] == [command[n - 1]];
  }

  /**
   * A line holding a command of the switch and a query, with nothing to trim, prints the report
   * of that command's dispatch on the parsed query, on either driver.
   */
  lemma SwitchLine(command: string, queryText: string, driver: Driver)
    requires command != [] && '\t' !in command && !IsTrimmed(command[0]) && command[|command| - 1] != '%'
    requires '\t' !in queryText && queryText != [] && !IsTrimmed(queryText[|queryText| - 1]) && driver.parses(queryText)
    ensures LineOutput(command + "\t" + queryText, driver)
      == Printed(Report(DispatchOf(command, Parsed(queryText)), driver.hits))
  {
    var line := command + "\t" + queryText;
    ReadsTwoFields(command, queryText, driver.assertionsEnabled);
    assert ReadFields(line, driver.assertionsEnabled) == Fields(command, queryText);
    NoSuffixWithoutPercent(command);
    assert WithBucket(Parsed(queryText), None) == Parsed(queryText);
  }

  /** A `COUNT` or `UNOPTIMIZED_COUNT` line prints the searcher's count of the query's hits. */
  lemma CountLinePrintsHits(command: string, queryText: string, driver: Driver)
    requires command == "COUNT" || command == "UNOPTIMIZED_COUNT"
    requires '\t' !in queryText && queryText != [] && !IsTrimmed(queryText[|queryText| - 1]) && driver.parses(queryText)
    ensures LineOutput(command + "\t" + queryText, driver)
      == Printed([CountLine(driver.hits(CountHits(Parsed(queryText))))])
  {
    SwitchLine(command, queryText, driver);
  }

  /** A `TOP_<k>_COUNT` line prints the total hits of a top-`k` search that counts every hit. */
  lemma TopCountLinePrintsHits(command: string, k: nat, queryText: string, driver: Driver)
    requires (command == "TOP_10_COUNT" && k == 10) || (command == "TOP_100_COUNT" && k == 100)
      || (command == "TOP_1000_COUNT" && k == 1000)
    requires '\t' !in queryText && queryText != [] && !IsTrimmed(queryText[|queryText| - 1]) && driver.parses(queryText)
    ensures LineOutput(command + "\t" + queryText, driver)
      == Printed([CountLine(driver.hits(Collect(Parsed(queryText), k, IntegerMaxValue)))])
  {
    SwitchLine(command, queryText, driver);
    TopCountDispatch(Parsed(queryText));
  }

  /** The three counting top-`k` commands collect `k` hits and count every match. */
  lemma TopCountDispatch(query: Query)
    ensures DispatchOf("TOP_10_COUNT", query) == TopCounted(Collect(query, 10, IntegerMaxValue))
    ensures DispatchOf("TOP_100_COUNT", query) == TopCounted(Collect(query, 100, IntegerMaxValue))
    ensures DispatchOf("TOP_1000_COUNT", query) == TopCounted(Collect(query, 1000, IntegerMaxValue))
  {
  }

  /** A `TOP_<k>` line prints 1, whatever the searcher finds. */
  lemma TopLinePrintsOne(command: string, queryText: string, driver: Driver)
    requires command == "TOP_10" || command == "TOP_100" || command == "TOP_1000"
    requires '\t' !in queryText && queryText != [] && !IsTrimmed(queryText[|queryText| - 1]) && driver.parses(queryText)
    ensures LineOutput(command + "\t" + queryText, driver) == Printed([CountLine(1)])
  {
    SwitchLine(command, queryText, driver);
  }

  /**
   * The `if (command.endsWith(...))` chain: cut the first matching filter suffix off the command
   * and add the bucket's filter clause to the query.
   */
  method SuffixChain(command0: string, query0: Query) returns (command: string, query: Query)
    ensures command == StripFilterSuffix(command0).0
    ensures query == WithBucket(query0, StripFilterSuffix(command0).1)
  {
    command, query := command0, query0;
    StripCases(command0);
    if Text.EndsWith(command, EightyPercentFilter) {
      command := command[..|command| - |EightyPercentFilter|];
      query := WithFilter(query, "80%");
    } else if Text.EndsWith(command, TwentyPercentFilter) {
      command := command[..|command| - |TwentyPercentFilter|];
      query := WithFilter(query, "20%");
    } else if Text.EndsWith(command, FivePercentFilter) {
      command := command[..|command| - |FivePercentFilter|];
      query := WithFilter(query, "5%");
    }
  }

  /** The body of the read loop: read the fields, parse, apply the suffix chain, dispatch. */
  method HandleLine(line: string, driver: Driver)
    returns (result: LineResult)
    ensures result == LineOutput(line, driver)
  {
    var fields := ReadFields(line, driver.assertionsEnabled);
    if fields.Unreadable? {
      return Crashed(fields.failure);
    }
    if !driver.parses(fields.query) {
      return Crashed(ParseFailed);
    }
    var command := fields.command;
    var query := Parsed(fields.query);
    if driver.stripsFilterSuffix {
      command, query := SuffixChain(command, query);
    }
    result := Printed(Report(DispatchOf(command, query), driver.hits));
  }

  /** What the lines from `i` on still print, given what the lines before `i` printed. */
  predicate RunFrom(lines: seq<string>, i: nat, out: seq<OutLine>, driver: Driver)
    requires i <= |lines|
  {
    var all, rest := RunOutput(lines, driver), RunOutput(lines[i..], driver);
    all.0 == out + rest.0 && all.1 == rest.1
  }

  /** A printed line moves the loop on by one line. */
  lemma RunAdvance(lines: seq<string>, i: nat, out: seq<OutLine>, driver: Driver)
    requires i < |lines| && RunFrom(lines, i, out, driver)
    requires LineOutput(lines[i], driver).Printed?
    ensures RunFrom(lines, i + 1, out + LineOutput(lines[i], driver).out, driver)
  {
    assert lines[i..][0] == lines[i] && lines[i..][1..] == lines[i + 1..];
    var printed := LineOutput(lines[i], driver).out;
    var next := RunOutput(lines[i + 1..], driver);
    assert out + (printed + next.0) == (out + printed) + next.0;
  }

  /** A crashing line ends the run with what was printed before it. */
  lemma RunStops(lines: seq<string>, i: nat, out: seq<OutLine>, driver: Driver)
    requires i < |lines| && RunFrom(lines, i, out, driver)
    requires LineOutput(lines[i], driver).Crashed?
    ensures RunOutput(lines, driver) == (out, Some(LineOutput(lines[i], driver).failure))
  {
    assert lines[i..][0] == lines[i];
    assert out + [] == out;
  }

  /** The read loop over the input lines, printing one count per line. */
  method Run(lines: seq<string>, driver: Driver)
    returns (out: seq<OutLine>, failure: Option<Failure>)
    ensures (out, failure) == RunOutput(lines, driver)
  {
    out := [];
    var i := 0;
    assert lines[0..] == lines && out + RunOutput(lines, driver).0 == RunOutput(lines, driver).0;
    while i < |lines|
      invariant 0 <= i <= |lines|
      invariant RunFrom(lines, i, out, driver)
    {
      var result := HandleLine(lines[i], driver);
      if result.Crashed? {
        RunStops(lines, i, out, driver);
        return out, Some(result.failure);
      }
      RunAdvance(lines, i, out, driver);
      out := out + result.out;
      i := i + 1;
    }
    assert lines[i..] == [] && out + [] == out;
    failure := None;
  }
}
