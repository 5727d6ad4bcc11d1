/**
 * `corpus_transform.py`: turns each line of a JSON-lines corpus into the indexed document
 * `{"id": url, "text": transform(body), "filter": [...]}`, with the text reduced to lower-case
 * letters and single spaces, and the document tagged with the filter buckets its url hashes to.
 * Lower-casing is ASCII only; the url hash is a parameter.
 */
module CorpusTransform {
  import opened Wrappers

  /** A letter of the pattern's class `[a-zA-Z]`. */
  predicate IsLetter(c: char) {
    'a' <= c <= 'z' || 'A' <= c <= 'Z'
  }

  /** `str.lower()` on one character, for ASCII. */
  function Lower(c: char): (l: char)
    ensures IsLetter(c) <==> IsLetter(l)
    ensures IsLetter(l) ==> 'a' <= l <= 'z'
  {
    if 'A' <= c <= 'Z' then (c as int + 32) as char else c
  }

  function LowerAll(s: string): (r: string)
    ensures |r| == |s| && forall i :: 0 <= i < |s| ==> r[i] == Lower(s[i])
  {
    if s == [] then [] else [Lower(s[0])] + LowerAll(s[1..])
  }

  /** The input with its leading run of non-letters removed. */
  function DropNonLetters(s: string): (r: string)
    ensures SuffixOf(r, s)
    ensures r != [] ==> IsLetter(r[0])
    ensures forall i :: 0 <= i < |s| - |r| ==> !IsLetter(s[i])
  {
    if s == [] || IsLetter(s[0]) then s else DropNonLetters(s[1..])
  }

  predicate SuffixOf(r: string, s: string) {
    |r| <= |s| && r == s[|s| - |r|..]
  }

  /** `re.sub("[^a-zA-Z]+", " ", s)`: every maximal run of non-letters becomes one space. */
  function Collapse(s: string): string
    decreases |s|
  {
    if s == [] then []
    else if IsLetter(s[0]) then [s[0]] + Collapse(s[1..])
    else [' '] + Collapse(DropNonLetters(s[1..]))
  }

  /** `transform(text)` */
  function Transform(s: string): string {
    Collapse(LowerAll(s))
  }

  /** The letters of a text, in order. */
  function Letters(s: string): string {
    if s == [] then [] else (if IsLetter(s[0]) then [s[0]] else []) + Letters(s[1..])
  }

  predicate NoDoubleSpaces(t: string) {
    forall i :: 0 <= i < |t| - 1 ==> !(t[i] == ' ' && t[i + 1] == ' ')
  }

  /** Only lower-case letters and spaces. */
  predicate LowerAlphabet(t: string) {
    forall i :: 0 <= i < |t| ==> t[i] == ' ' || 'a' <= t[i] <= 'z'
  }

  /** No upper-case ASCII letter. */
  predicate NoUpper(s: string) {
    forall i :: 0 <= i < |s| ==> !('A' <= s[i] <= 'Z')
  }

  /** The input with its first character, or its first run of non-letters, consumed. */
  function Rest(s: string): (rest: string)
    requires s != []
    ensures |rest| < |s| && SuffixOf(rest, s)
  {
    if IsLetter(s[0]) then s[1..] else DropNonLetters(s[1..])
  }

  lemma CollapseStep(s: string)
    requires s != []
    ensures Collapse(s) == [if IsLetter(s[0]) then s[0] else ' '] + Collapse(Rest(s))
  {
  }

  predicate LettersAndSpaces(t: string) {
    forall i :: 0 <= i < |t| ==> t[i] == ' ' || IsLetter(t[i])
  }

  /** The output holds only letters and spaces. */
  lemma {:induction false} CollapseAlphabet(s: string)
    ensures LettersAndSpaces(Collapse(s))
    decreases |s|
  {
    if s != [] {
      CollapseAlphabet(Rest(s));
      CollapseStep(s);
    }
  }

  /** A suffix of a text without upper-case letters has none either. */
  lemma NoUpperSuffix(r: string, s: string)
    requires SuffixOf(r, s) && NoUpper(s)
    ensures NoUpper(r)
  {
    forall i | 0 <= i < |r| ensures !('A' <= r[i] <= 'Z') {
      assert r[i] == s[|s| - |r| + i];
    }
  }

  /** The output has no upper-case letter the input did not have. */
  lemma {:induction false} CollapseNoUpper(s: string)
    requires NoUpper(s)
    ensures NoUpper(Collapse(s))
    decreases |s|
  {
    if s != [] {
      NoUpperSuffix(Rest(s), s);
      CollapseNoUpper(Rest(s));
      CollapseStep(s);
    }
  }

  /** The output begins with a space only where the input begins with a non-letter. */
  lemma CollapseHead(s: string)
    requires Collapse(s) != [] && Collapse(s)[0] == ' '
    ensures s != [] && !IsLetter(s[0])
  {
  }

  lemma {:induction false} CollapseNoDoubleSpaces(s: string)
    ensures NoDoubleSpaces(Collapse(s))
    decreases |s|
  {
    if s != [] {
      var rest := Rest(s);
      CollapseNoDoubleSpaces(rest);
      CollapseStep(s);
      var r := Collapse(s);
      var t := Collapse(rest);
      if !IsLetter(s[0]) && t != [] && t[0] == ' ' {
        CollapseHead(rest);
      }
      forall i | 0 <= i < |r| - 1 ensures !(r[i] == ' ' && r[i + 1] == ' ') {
        if i > 0 {
          assert r[i] == t[i - 1] && r[i + 1] == t[i];
        }
      }
    }
  }

  /** The transformed text holds only lower-case letters and single spaces. */
  lemma TransformShape(s: string)
    ensures LowerAlphabet(Transform(s))
    ensures NoDoubleSpaces(Transform(s))
  {
    CollapseAlphabet(LowerAll(s));
    CollapseNoUpper(LowerAll(s));
    CollapseNoDoubleSpaces(LowerAll(s));
  }

  /** A text already in that shape is left as it is. */
  lemma {:induction false} CollapseFixed(t: string)
    requires LowerAlphabet(t) && NoDoubleSpaces(t)
    ensures Collapse(t) == t
    decreases |t|
  {
    if t != [] {
      var u := t[1..];
      assert LowerAlphabet(u) && NoDoubleSpaces(u) by {
        forall i | 0 <= i < |u| ensures u[i] == t[i + 1] {}
      }
      CollapseFixed(u);
      if !IsLetter(t[0]) && u != [] {
        assert u[0] == t[1] != ' ';
        assert DropNonLetters(u) == u;
      }
      assert t == [t[0]] + u;
    }
  }

  lemma {:induction false} LowerFixed(t: string)
    requires LowerAlphabet(t)
    ensures LowerAll(t) == t
  {
  }

  /** `transform` is idempotent. */
  lemma TransformIdempotent(s: string)
    ensures Transform(Transform(s)) == Transform(s)
  {
    TransformShape(s);
    LowerFixed(Transform(s));
    CollapseFixed(Transform(s));
  }

  lemma {:induction false} DropKeepsLetters(s: string)
    ensures Letters(DropNonLetters(s)) == Letters(s)
  {
    if s != [] && !IsLetter(s[0]) {
      DropKeepsLetters(s[1..]);
    }
  }

  lemma {:induction false} CollapseKeepsLetters(s: string)
    ensures Letters(Collapse(s)) == Letters(s)
    decreases |s|
  {
    if s != [] {
      var c := Collapse(s);
      if IsLetter(s[0]) {
        CollapseKeepsLetters(s[1..]);
        assert c[0] == s[0] && c[1..] == Collapse(s[1..]);
      } else {
        var d := DropNonLetters(s[1..]);
        CollapseKeepsLetters(d);
        DropKeepsLetters(s[1..]);
        assert c[0] == ' ' && c[1..] == Collapse(d);
      }
    }
  }

  /** The letters of the output are the lower-cased letters of the input, in order. */
  lemma TransformKeepsLetters(s: string)
    ensures Letters(Transform(s)) == Letters(LowerAll(s))
  {
    CollapseKeepsLetters(LowerAll(s));
  }

  /**
   * The filter buckets of a document whose url hashes to `h`, with Python's `%`, which for a
   * positive modulus is never negative (as Dafny's is).
   */
  function Buckets(h: int): (tags: seq<string>)
    ensures "80%" in tags <==> h % 100 < 80
    ensures "20%" in tags <==> h % 5 == 3
    ensures "5%" in tags <==> h % 20 == 13
    ensures forall i, j :: 0 <= i < j < |tags| ==> Rank(tags[i]) < Rank(tags[j])
  {
    (if h % 100 < 80 then ["80%"] else []) + (if h % 5 == 3 then ["20%"] else []) + (if h % 20 == 13 then ["5%"] else [])
  }

  /** The position of a bucket tag in the order the tags are appended. */
  function Rank(tag: string): nat {
    if tag == "80%" then 0 else if tag == "20%" then 1 else 2
  }

  /** Every document in the 5% bucket is also in the 20% bucket. */
  lemma FiveInTwenty(h: int)
    requires "5%" in Buckets(h)
    ensures "20%" in Buckets(h)
  {
    var q := h / 20;
    assert h == 5 * (4 * q + 2) + 3;
  }

  /** The buckets depend only on the hash modulo 100. */
  lemma BucketsPeriodic(h: int)
    ensures Buckets(h + 100) == Buckets(h)
  {
    assert (h + 100) % 100 == h % 100;
    assert (h + 100) % 5 == (h + 5 * 20) % 5 == h % 5;
    assert (h + 100) % 20 == (h + 20 * 5) % 20 == h % 20;
  }

  /** A value of a document field: absent, or a string (other JSON values are not modelled). */
  datatype Field = Absent | Str(s: string)

  /** One input line: not valid JSON, or a JSON object with its `url` and `body` fields. */
  datatype CorpusLine = Malformed | Object(url: Field, body: Field)

  /** The output document. */
  datatype Record = Record(id: string, text: string, filter: Option<seq<string>>)

  /** What a line gives: nothing, a record, or a `KeyError` naming the missing field. */
  datatype LineResult = Skipped | Emitted(record: Record) | KeyError(key: string)

  /** The tag list built by appending, bucket by bucket. */
  method TagBuckets(h: int) returns (filters: seq<string>)
    ensures filters == Buckets(h)
  {
    filters := [];
    if h % 100 < 80 {
      filters := filters + ["80%"];
    }
    if h % 5 == 3 {
      filters := filters + ["20%"];
    }
    if h % 20 == 13 {
      filters := filters + ["5%"];
    }
  }

  /**
   * What one line gives. A malformed line and an empty url are skipped; a missing url, or a
   * missing body of a line with a url, raises `KeyError`; otherwise the record carries the url
   * as its id, the transformed body, and a `filter` only when some bucket applies.
   */
  function Outcome(line: CorpusLine, hash: string -> int): (result: LineResult)
    ensures line.Malformed? ==> result == Skipped
    ensures line.Object? && line.url.Absent? ==> result == KeyError("url")
    ensures line.Object? && line.url == Str("") ==> result == Skipped
    ensures line.Object? && line.url.Str? && line.url.s != "" && line.body.Absent? ==> result == KeyError("body")
    ensures result.Emitted? <==> line.Object? && line.url.Str? && line.url.s != "" && line.body.Str?
    ensures result.Emitted? ==>
      && result.record.id == line.url.s
      && result.record.text == Transform(line.body.s)
      && (result.record.filter.Some? <==> Buckets(hash(line.url.s)) != [])
      && (result.record.filter.Some? ==> result.record.filter.value == Buckets(hash(line.url.s)))
  {
    if line.Malformed? || line.url == Str("") then Skipped
    else if line.url.Absent? then KeyError("url")
    else if line.body.Absent? then KeyError("body")
    else
      var filters := Buckets(hash(line.url.s));
      Emitted(Record(line.url.s, Transform(line.body.s), if filters == [] then None else Some(filters)))
  }

  /** The body of the per-line loop, building the record field by field. */
  method TransformLine(line: CorpusLine, hash: string -> int) returns (result: LineResult)
    ensures result == Outcome(line, hash)
  {
    if line.Malformed? {
      return Skipped;
    }
    if line.url.Absent? {
      return KeyError("url");
    }
    var url := line.url.s;
    if url == "" {
      return Skipped;
    }
    var filters := TagBuckets(hash(url));
    if line.body.Absent? {
      return KeyError("body");
    }
    var record := Record(url, Transform(line.body.s), None);
    if |filters| > 0 {
      record := record.(filter := Some(filters));
    }
    result := Emitted(record);
  }

  /** What the whole input gives: the records in order, up to a `KeyError` that ends the run. */
  function CorpusOutput(lines: seq<CorpusLine>, hash: string -> int): (seq<Record>, Option<string>) {
    if lines == [] then ([], None)
    else
      match Outcome(lines[0], hash)
      case Skipped => CorpusOutput(lines[1..], hash)
      case KeyError(key) => ([], Some(key))
      case Emitted(record) =>
        var rest := CorpusOutput(lines[1..], hash);
        ([record] + rest.0, rest.1)
  }

  /** One step of `CorpusOutput`, from line `i`. */
  lemma CorpusOutputStep(lines: seq<CorpusLine>, i: nat, hash: string -> int)
    requires i < |lines|
    ensures var here, next, o := CorpusOutput(lines[i..], hash), CorpusOutput(lines[i + 1..], hash), Outcome(lines[i], hash);
      && (o.Skipped? ==> here == next)
      && (o.KeyError? ==> here == ([], Some(o.key)))
      && (o.Emitted? ==> here == ([o.record] + next.0, next.1))
  {
    assert lines[i..][0] == lines[i] && lines[i..][1..] == lines[i + 1..];
  }

  /** The loop's invariant: `records` followed by what `lines[i..]` gives is what `lines` gives. */
  predicate CorpusFrom(lines: seq<CorpusLine>, i: nat, records: seq<Record>, hash: string -> int)
    requires i <= |lines|
  {
    var all, rest := CorpusOutput(lines, hash), CorpusOutput(lines[i..], hash);
    all.0 == records + rest.0 && all.1 == rest.1
  }

  /** A skipped or emitting line moves the loop on by one line. */
  lemma CorpusAdvance(lines: seq<CorpusLine>, i: nat, records: seq<Record>, hash: string -> int)
    requires i < |lines| && CorpusFrom(lines, i, records, hash)
    requires !Outcome(lines[i], hash).KeyError?
    ensures Outcome(lines[i], hash).Skipped? ==> CorpusFrom(lines, i + 1, records, hash)
    ensures Outcome(lines[i], hash).Emitted? ==> CorpusFrom(lines, i + 1, records + [Outcome(lines[i], hash).record], hash)
  {
    CorpusOutputStep(lines, i, hash);
    var o, next := Outcome(lines[i], hash), CorpusOutput(lines[i + 1..], hash);
    if o.Emitted? {
      assert records + ([o.record] + next.0) == (records + [o.record]) + next.0;
    }
  }

  /** A line raising `KeyError` ends the run with the records before it. */
  lemma CorpusStops(lines: seq<CorpusLine>, i: nat, records: seq<Record>, hash: string -> int)
    requires i < |lines| && CorpusFrom(lines, i, records, hash)
    requires Outcome(lines[i], hash).KeyError?
    ensures CorpusOutput(lines, hash) == (records, Some(Outcome(lines[i], hash).key))
  {
    CorpusOutputStep(lines, i, hash);
    assert records + [] == records;
  }

  /** The loop over the input lines. */
  method TransformCorpus(lines: seq<CorpusLine>, hash: string -> int) returns (records: seq<Record>, error: Option<string>)
    ensures (records, error) == CorpusOutput(lines, hash)
  {
    records := [];
    var i := 0;
    assert lines[0..] == lines && records + CorpusOutput(lines, hash).0 == CorpusOutput(lines, hash).0;
    while i < |lines|
      invariant 0 <= i <= |lines|
      invariant CorpusFrom(lines, i, records, hash)
    {
      var result := TransformLine(lines[i], hash);
      if result.KeyError? {
        CorpusStops(lines, i, records, hash);
        return records, Some(result.key);
      }
      CorpusAdvance(lines, i, records, hash);
      if result.Emitted? {
        records := records + [result.record];
      }
      i := i + 1;
    }
    assert lines[i..] == [] && records + [] == records;
    error := None;
  }

  /** The records carry the given urls as their ids, one each, in order. */
  predicate IdsAre(records: seq<Record>, urls: seq<string>) {
    |records| == |urls| && forall i :: 0 <= i < |urls| ==> records[i].id == urls[i] != ""
  }

  /** Without errors, there is one record per line with a non-empty url, in order, each with its own url as id. */
  lemma {:induction false} RecordsFollowUrls(lines: seq<CorpusLine>, hash: string -> int)
    requires CorpusOutput(lines, hash).1.None?
    ensures IdsAre(CorpusOutput(lines, hash).0, Urls(lines))
  {
    if lines != [] {
      RecordsFollowUrls(lines[1..], hash);
      if Outcome(lines[0], hash).Emitted? {
        PrependId(Outcome(lines[0], hash).record, CorpusOutput(lines[1..], hash).0, lines[0].url.s, Urls(lines[1..]));
      }
    }
  }

  lemma PrependId(r: Record, records: seq<Record>, url: string, urls: seq<string>)
    requires IdsAre(records, urls) && r.id == url != ""
    ensures IdsAre([r] + records, [url] + urls)
  {
    var rs, us := [r] + records, [url] + urls;
    forall i | 1 <= i < |us| ensures rs[i].id == us[i] != "" {
      assert rs[i] == records[i - 1] && us[i] == urls[i - 1];
    }
  }

  /** The non-empty urls of the well-formed lines, in order. */
  function Urls(lines: seq<CorpusLine>): seq<string> {
    if lines == [] then []
    else
      var line := lines[0];
      (if line.Object? && line.url.Str? && line.url.s != "" then [line.url.s] else []) + Urls(lines[1..])
  }
}
