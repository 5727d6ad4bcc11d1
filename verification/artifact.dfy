/**
 * The measurement artifact `results.json` as the scripts read it:
 * `{"results": {category: {engine: [{"query": ..., "duration": [...]}, ...]}}}`.
 * An entry's `query` and `duration` keys may be absent or `null`, and the two differ: indexing
 * a dict raises `KeyError` on the first and yields `None` for the second.
 */
module Artifact {
  import opened Wrappers
  import Text

  /** The engine whose measurements the scripts look at. */
  const Engine: string := "turbopuffer"

  /** A key of a JSON object: absent, present with the value `null`, or present with a value. */
  datatype Field<T> = Absent | Null | Present(value: T)

  /** What indexing a dict yields for a key that is there: `None` for `null`. */
  function ValueOf<T>(f: Field<T>): Option<T> {
    if f.Present? then Some(f.value) else None
  }

  /** One measured query and its latency samples, in microseconds. */
  datatype QueryResult = QueryResult(query: Field<string>, duration: Field<seq<real>>)

  /** engine name -> that engine's query results, for one category */
  type Engines = map<string, seq<QueryResult>>

  /** The `results` object: category names in document order, and each category's engines. */
  datatype ResultsObject = ResultsObject(names: seq<string>, categories: map<string, Engines>)

  predicate WellFormed(r: ResultsObject) {
    && Text.NoDuplicates(r.names)
    && (forall c :: c in r.names ==> c in r.categories)
    && (forall c :: c in r.categories ==> c in r.names)
  }

  /** A JSON object has each key once; its keys keep their document order. */
  type Results = r: ResultsObject | WellFormed(r) witness ResultsObject([], map[])

  datatype Document = Document(results: Option<Results>)
}
