/**
 * Run directories are named after the moment the benchmark ran, `YYYY-MM-DDTHH-MM-SS`
 * (`datetime.strptime(name, '%Y-%m-%dT%H-%M-%S')`). This module parses such names into
 * calendar instants, compares instants as Python's `datetime` does, and renders them back,
 * both as directory names and in ISO 8601 (`datetime.isoformat()`).
 */
module RunDates {
  import opened Wrappers
  import opened Sorting
  import Text

  datatype DateTime = DateTime(year: int, month: int, day: int, hour: int, minute: int, second: int)

  predicate IsLeapYear(y: nat) {
    y % 4 == 0 && (y % 100 != 0 || y % 400 == 0)
  }

  function DaysInMonth(y: nat, m: nat): nat
    requires 1 <= m <= 12
  {
    if m == 2 then (if IsLeapYear(y) then 29 else 28)
    else if m == 4 || m == 6 || m == 9 || m == 11 then 30
    else 31
  }

  /** What `datetime(...)` accepts: years 1 to 9999, real calendar days, no leap seconds. */
  predicate Valid(d: DateTime) {
    && 1 <= d.year <= 9999
    && 1 <= d.month <= 12
    && 1 <= d.day <= DaysInMonth(d.year, d.month)
    && 0 <= d.hour < 24 && 0 <= d.minute < 60 && 0 <= d.second < 60
  }

  /** A value of Python's `datetime` as this model meets it: a valid instant. */
  type Instant = d: DateTime | Valid(d) witness DateTime(1, 1, 1, 0, 0, 0)

  /** `datetime` comparison: lexicographic on (year, month, day, hour, minute, second). */
  predicate DateLe(a: DateTime, b: DateTime) {
    if a.year != b.year then a.year < b.year
    else if a.month != b.month then a.month < b.month
    else if a.day != b.day then a.day < b.day
    else if a.hour != b.hour then a.hour < b.hour
    else if a.minute != b.minute then a.minute < b.minute
    else a.second <= b.second
  }

  lemma DateOrderIsTotalPreorder()
    ensures TotalPreorder((a: DateTime, b: DateTime) => DateLe(a, b))
  {
  }

  predicate IsDigit(c: char) {
    '0' <= c <= '9'
  }

  /** Two ASCII digits. */
  predicate Digits2(s: string) {
    |s| == 2 && IsDigit(s[0]) && IsDigit(s[1])
  }

  /** Four ASCII digits. */
  predicate Digits4(s: string) {
    |s| == 4 && Digits2(s[..2]) && Digits2(s[2..])
  }

  function Digit(n: nat): char
    requires n < 10
  {
    ('0' as int + n) as char
  }

  function DigitValue(c: char): int
  {
    c as int - '0' as int
  }

  /** The value of two ASCII digits. */
  function Value2(s: string): int
    requires |s| == 2
  {
    10 * DigitValue(s[0]) + DigitValue(s[1])
  }

  /** The value of four ASCII digits. */
  function Value4(s: string): int
    requires |s| == 4
  {
    100 * Value2(s[..2]) + Value2(s[2..])
  }

  /** `%02d` */
  function Pad2(n: nat): string
    requires n < 100
  {
    [Digit(n / 10), Digit(n % 10)]
  }

  /** `%04d` */
  function Pad4(n: nat): string
    requires n < 10000
  {
    Pad2(n / 100) + Pad2(n % 100)
  }

  /** The zero-padded shape of `%Y-%m-%dT%H-%M-%S`; `strptime` matches the `T` ignoring case. */
  predicate WellFormedName(name: string) {
    && |name| == 19
    && Digits4(name[0..4]) && name[4] == '-'
    && Digits2(name[5..7]) && name[7] == '-'
    && Digits2(name[8..10]) && (name[10] == 'T' || name[10] == 't')
    && Digits2(name[11..13]) && name[13] == '-'
    && Digits2(name[14..16]) && name[16] == '-'
    && Digits2(name[17..19])
  }

  /** `parse_date_from_dirname`: the instant a run directory is named after, if it is one. */
  function ParseDirName(name: string): (r: Option<DateTime>)
    ensures r.Some? ==> Valid(r.value)
  {
    if WellFormedName(name) then
      var d := DateTime(Value4(name[0..4]), Value2(name[5..7]), Value2(name[8..10]),
                        Value2(name[11..13]), Value2(name[14..16]), Value2(name[17..19]));
      if Valid(d) then Some(d) else None
    else
      None
  }

  /** Renders a valid instant with the given separator between hour, minute and second. */
  function Format(d: DateTime, timeSep: char): string
    requires Valid(d)
  {
    Pad4(d.year) + (['-'] + (Pad2(d.month) + (['-'] + (Pad2(d.day) + (['T'] +
      (Pad2(d.hour) + ([timeSep] + (Pad2(d.minute) + ([timeSep] + Pad2(d.second))))))))))
  }

  /** The directory name a run started at `d` gets. */
  function DirName(d: DateTime): string
    requires Valid(d)
  {
    Format(d, '-')
  }

  /** `d.isoformat()` for an instant without microseconds or time zone. */
  function IsoFormat(d: DateTime): string
    requires Valid(d)
  {
    Format(d, ':')
  }

  /** A directory name with a lower-case `t` read as the upper-case one. */
  function UpperT(name: string): string {
    if |name| > 10 && name[10] == 't' then name[..10] + "T" + name[11..] else name
  }

  lemma DivMod10(a: nat, b: nat)
    requires b < 10
    ensures (10 * a + b) / 10 == a && (10 * a + b) % 10 == b
  {
  }

  lemma ValuePad2(n: nat)
    requires n < 100
    ensures Digits2(Pad2(n)) && Value2(Pad2(n)) == n
  {
  }

  lemma ValuePad4(n: nat)
    requires n < 10000
    ensures Digits4(Pad4(n)) && Value4(Pad4(n)) == n
  {
    var s := Pad4(n);
    assert s[..2] == Pad2(n / 100) && s[2..] == Pad2(n % 100);
    ValuePad2(n / 100);
    ValuePad2(n % 100);
  }

  lemma Pad2Value(s: string)
    requires Digits2(s)
    ensures Value2(s) < 100 && Pad2(Value2(s)) == s
  {
    DivMod10(DigitValue(s[0]), DigitValue(s[1]));
  }

  lemma Pad4Value(s: string)
    requires Digits4(s)
    ensures Value4(s) < 10000 && Pad4(Value4(s)) == s
  {
    Pad2Value(s[..2]);
    Pad2Value(s[2..]);
    var n := Value4(s);
    assert n / 100 == Value2(s[..2]) && n % 100 == Value2(s[2..]);
    assert s == s[..2] + s[2..];
  }

  /** Two 19-character names that agree slice by slice are equal. */
  lemma SameSlices(u: string, f: string)
    requires |u| == 19 && |f| == 19
    requires u[0..4] == f[0..4] && u[4] == f[4] && u[5..7] == f[5..7] && u[7] == f[7]
    requires u[8..10] == f[8..10] && u[10] == f[10] && u[11..13] == f[11..13] && u[13] == f[13]
    requires u[14..16] == f[14..16] && u[16] == f[16] && u[17..19] == f[17..19]
    ensures u == f
  {
    forall i | 0 <= i < 19 ensures u[i] == f[i] {
      if i < 4 { assert u[i] == u[0..4][i]; assert f[i] == f[0..4][i]; }
      else if 5 <= i < 7 { assert u[i] == u[5..7][i - 5]; assert f[i] == f[5..7][i - 5]; }
      else if 8 <= i < 10 { assert u[i] == u[8..10][i - 8]; assert f[i] == f[8..10][i - 8]; }
      else if 11 <= i < 13 { assert u[i] == u[11..13][i - 11]; assert f[i] == f[11..13][i - 11]; }
      else if 14 <= i < 16 { assert u[i] == u[14..16][i - 14]; assert f[i] == f[14..16][i - 14]; }
      else if 17 <= i < 19 { assert u[i] == u[17..19][i - 17]; assert f[i] == f[17..19][i - 17]; }
    }
  }

  lemma FormatShape(d: DateTime, timeSep: char)
    requires Valid(d)
    ensures var f := Format(d, timeSep);
      && |f| == 19
      && f[0..4] == Pad4(d.year) && f[4] == '-'
      && f[5..7] == Pad2(d.month) && f[7] == '-'
      && f[8..10] == Pad2(d.day) && f[10] == 'T'
      && f[11..13] == Pad2(d.hour) && f[13] == timeSep
      && f[14..16] == Pad2(d.minute) && f[16] == timeSep
      && f[17..19] == Pad2(d.second)
  {
  }

  /** A name that parses is the directory name of what it parses to (up to the case of the `T`). */
  lemma ParsedNameIsDirName(name: string, d: DateTime)
    requires ParseDirName(name) == Some(d)
    ensures UpperT(name) == DirName(d)
  {
    Pad4Value(name[0..4]);
    Pad2Value(name[5..7]);
    Pad2Value(name[8..10]);
    Pad2Value(name[11..13]);
    Pad2Value(name[14..16]);
    Pad2Value(name[17..19]);
    FormatShape(d, '-');
    var u := UpperT(name);
    assert u[0..4] == name[0..4] && u[5..7] == name[5..7] && u[8..10] == name[8..10];
    assert u[11..13] == name[11..13] && u[14..16] == name[14..16] && u[17..19] == name[17..19];
    SameSlices(u, DirName(d));
  }

  /** The directory name of a valid instant parses back to that instant. */
  lemma DirNameParses(name: string, d: DateTime)
    requires Valid(d) && UpperT(name) == DirName(d)
    ensures ParseDirName(name) == Some(d)
  {
    FormatShape(d, '-');
    ValuePad4(d.year);
    ValuePad2(d.month);
    ValuePad2(d.day);
    ValuePad2(d.hour);
    ValuePad2(d.minute);
    ValuePad2(d.second);
    var f := DirName(d);
    assert |name| == 19;
    assert name[0..4] == f[0..4] && name[5..7] == f[5..7] && name[8..10] == f[8..10];
    assert name[11..13] == f[11..13] && name[14..16] == f[14..16] && name[17..19] == f[17..19];
    assert WellFormedName(name);
  }

  /**
   * The directory-name grammar, both ways: a name parses to `d` exactly when `d` is a valid
   * instant and the name is `d`'s directory name (up to the case of the `T`).
   */
  lemma ParseDirNameExactly(name: string, d: DateTime)
    ensures ParseDirName(name) == Some(d) <==> Valid(d) && UpperT(name) == DirName(d)
  {
    if ParseDirName(name) == Some(d) {
      ParsedNameIsDirName(name, d);
    }
    if Valid(d) && UpperT(name) == DirName(d) {
      DirNameParses(name, d);
    }
  }

  lemma Pad2Order(n: nat, m: nat)
    requires n < 100 && m < 100
    ensures Text.LessEq(Pad2(n), Pad2(m)) <==> n <= m
  {
    var p, q := Pad2(n), Pad2(m);
    assert p[1..][1..] == [] && q[1..][1..] == [];
    assert Text.LessEq(p[1..], q[1..]) <==> n % 10 <= m % 10;
    assert Text.LessEq(p, q) <==> n / 10 < m / 10 || (n / 10 == m / 10 && n % 10 <= m % 10);
    assert n == 10 * (n / 10) + n % 10 && m == 10 * (m / 10) + m % 10;
  }

  lemma Pad4Order(n: nat, m: nat)
    requires n < 10000 && m < 10000
    ensures Text.LessEq(Pad4(n), Pad4(m)) <==> n <= m
  {
    Text.LessEqAppend(Pad2(n / 100), Pad2(m / 100), Pad2(n % 100), Pad2(m % 100));
    Pad2Order(n / 100, m / 100);
    Pad2Order(n % 100, m % 100);
    ValuePad2(n / 100);
    ValuePad2(m / 100);
  }

  /**
   * Rendering keeps the order: for valid instants, the fixed-width text (a directory name or an
   * ISO 8601 string) compares as a string exactly as the instants compare in time.
   */
  lemma FormatKeepsOrder(a: DateTime, b: DateTime, timeSep: char)
    requires Valid(a) && Valid(b)
    ensures DateLe(a, b) <==> Text.LessEq(Format(a, timeSep), Format(b, timeSep))
  {
    var ra, rb := DayAndTime(a, timeSep), DayAndTime(b, timeSep);
    Text.LessEqAppend(Pad4(a.year), Pad4(b.year), ['-'] + ra, ['-'] + rb);
    Text.LessEqAppend(['-'], ['-'], ra, rb);
    Pad4Order(a.year, b.year);
    ValuePad4(a.year);
    ValuePad4(b.year);
    DayAndTimeOrder(a, b, timeSep);
  }

  /** The text after the year and its dash: month, day, `T` and the time of day. */
  function DayAndTime(d: DateTime, timeSep: char): string
    requires Valid(d)
  {
    Pad2(d.month) + (['-'] + (Pad2(d.day) + (['T'] + TimeOfDay(d, timeSep))))
  }

  /** The text of the time of day: hour, minute and second. */
  function TimeOfDay(d: DateTime, timeSep: char): string
    requires Valid(d)
  {
    Pad2(d.hour) + ([timeSep] + (Pad2(d.minute) + ([timeSep] + Pad2(d.second))))
  }

  /** A two-digit field, a separator, then more: the fields decide unless they are equal. */
  lemma FieldThenRest(x: nat, y: nat, sep: char, u: string, v: string)
    requires x < 100 && y < 100
    ensures Text.LessEq(Pad2(x) + ([sep] + u), Pad2(y) + ([sep] + v)) <==> if x == y then Text.LessEq(u, v) else x < y
  {
    Text.LessEqAppend(Pad2(x), Pad2(y), [sep] + u, [sep] + v);
    Text.LessEqAppend([sep], [sep], u, v);
    Pad2Order(x, y);
    ValuePad2(x);
    ValuePad2(y);
  }

  lemma TimeOfDayOrder(a: DateTime, b: DateTime, timeSep: char)
    requires Valid(a) && Valid(b)
    ensures Text.LessEq(TimeOfDay(a, timeSep), TimeOfDay(b, timeSep)) <==>
      if a.hour != b.hour then a.hour < b.hour
      else if a.minute != b.minute then a.minute < b.minute
      else a.second <= b.second
  {
    FieldThenRest(a.hour, b.hour, timeSep, Pad2(a.minute) + ([timeSep] + Pad2(a.second)), Pad2(b.minute) + ([timeSep] + Pad2(b.second)));
    FieldThenRest(a.minute, b.minute, timeSep, Pad2(a.second), Pad2(b.second));
    Pad2Order(a.second, b.second);
  }

  lemma DayAndTimeOrder(a: DateTime, b: DateTime, timeSep: char)
    requires Valid(a) && Valid(b)
    ensures Text.LessEq(DayAndTime(a, timeSep), DayAndTime(b, timeSep)) <==>
      if a.month != b.month then a.month < b.month
      else if a.day != b.day then a.day < b.day
      else if a.hour != b.hour then a.hour < b.hour
      else if a.minute != b.minute then a.minute < b.minute
      else a.second <= b.second
  {
    var ta, tb := TimeOfDay(a, timeSep), TimeOfDay(b, timeSep);
    FieldThenRest(a.month, b.month, '-', Pad2(a.day) + (['T'] + ta), Pad2(b.day) + (['T'] + tb));
    FieldThenRest(a.day, b.day, 'T', ta, tb);
    TimeOfDayOrder(a, b, timeSep);
  }
}
