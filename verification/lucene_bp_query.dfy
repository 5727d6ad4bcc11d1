/**
 * The query driver of the block-partitioned Lucene engine
 * (`engines/lucene-10.3.0-bp/src/main/java/DoQuery.java`): the same read loop, split and
 * command switch as the standard Lucene driver, but without the filter-suffix chain, so every
 * filtered command is unsupported there.
 */
module LuceneBpQuery {
  import opened LuceneQuery
  import Text

  /** The bp driver: the standard one without the suffix chain. */
  function BpDriver(assertionsEnabled: bool, parses: string -> bool, hits: Search -> int): Driver {
    Driver(false, assertionsEnabled, parses, hits)
  }

  /** No command of the switch ends with a filter suffix, so a filtered command is unsupported. */
  lemma FilteredCommandUnsupported(command: string, bucket: string, query: Query)
    requires IsBucket(bucket) && Text.EndsWith(command, "_FILTER_" + bucket)
    ensures DispatchOf(command, query).Unsupported?
  {
    var suffix := "_FILTER_" + bucket;
    assert suffix[|suffix| - 1] == '%';
    assert command[|command| - 1] == command[|command| - |suffix|..][|suffix| - 1];
    DispatchUnsupported(command, query);
  }

  /** On the bp driver a readable, parsable line with a filtered command prints `UNSUPPORTED` and 0. */
  lemma FilteredLineUnsupported(line: string, bucket: string, driver: Driver)
    requires !driver.stripsFilterSuffix && IsBucket(bucket)
    requires ReadFields(line, driver.assertionsEnabled).Fields?
    requires driver.parses(ReadFields(line, driver.assertionsEnabled).query)
    requires Text.EndsWith(ReadFields(line, driver.assertionsEnabled).command, "_FILTER_" + bucket)
    ensures LineOutput(line, driver) == Printed([UnsupportedLine, CountLine(0)])
  {
    var f := ReadFields(line, driver.assertionsEnabled);
    FilteredCommandUnsupported(f.command, bucket, Parsed(f.query));
  }

  /** On a line whose command has no filter suffix, the two drivers print the same. */
  lemma DriversAgreeWithoutSuffix(line: string, driver: Driver)
    requires ReadFields(line, driver.assertionsEnabled).Fields? ==> StripFilterSuffix(ReadFields(line, driver.assertionsEnabled).command).1.None?
    ensures LineOutput(line, driver.(stripsFilterSuffix := false)) == LineOutput(line, driver.(stripsFilterSuffix := true))
  {
    if ReadFields(line, driver.assertionsEnabled).Fields? {
      StripRoundTrip(ReadFields(line, driver.assertionsEnabled).command);
    }
  }

  /** A filtered count: the standard driver counts the hits of the query with the bucket's filter clause ... */
  lemma FilteredCountCounted(queryText: string, driver: Driver)
    requires '\t' !in queryText && queryText != [] && !IsTrimmed(queryText[|queryText| - 1])
    requires driver.stripsFilterSuffix && driver.parses(queryText)
    ensures LineOutput("COUNT_FILTER_5%\t" + queryText, driver)
      == Printed([CountLine(driver.hits(CountHits(WithFilter(Parsed(queryText), "5%"))))])
  {
    assert "COUNT" + "_FILTER_" + "5%" + "\t" + queryText == "COUNT_FILTER_5%\t" + queryText;
    FilteredLine("COUNT", "5%", queryText, driver);
  }

  /** ... while the bp driver reports the same line unsupported. */
  lemma FilteredCountUnsupported(queryText: string, driver: Driver)
    requires '\t' !in queryText && queryText != [] && !IsTrimmed(queryText[|queryText| - 1])
    requires !driver.stripsFilterSuffix && driver.parses(queryText)
    ensures LineOutput("COUNT_FILTER_5%\t" + queryText, driver) == Printed([UnsupportedLine, CountLine(0)])
  {
    var command := "COUNT_FILTER_5%";
    assert command[|command| - 10..] == "_FILTER_5%";
    assert Text.EndsWith(command, "_FILTER_" + "5%");
    var line := command + "\t" + queryText;
    assert line == "COUNT_FILTER_5%\t" + queryText;
    ReadsTwoFields(command, queryText, driver.assertionsEnabled);
    FilteredLineUnsupported(line, "5%", driver);
  }

  /** The bp read loop: one count line per input line when no line ends it. */
  method RunBp(lines: seq<string>, assertionsEnabled: bool, parses: string -> bool, hits: Search -> int)
    returns (out: seq<OutLine>, failure: Wrappers.Option<Failure>)
    ensures (out, failure) == RunOutput(lines, BpDriver(assertionsEnabled, parses, hits))
    ensures failure.None? ==> Counts(out) == |lines|
  {
    out, failure := Run(lines, BpDriver(assertionsEnabled, parses, hits));
    if failure.None? {
      OneCountPerLine(lines, BpDriver(assertionsEnabled, parses, hits));
    }
  }
}
