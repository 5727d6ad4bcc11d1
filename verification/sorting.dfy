/**
 * A stable insertion sort over a caller-supplied total preorder. It stands for Python's
 * `sorted(...)` and `list.sort(key=...)`, both of which are stable sorts.
 */
module Sorting {

  /** `le` is total and transitive: the shape of "compare by key" in Python. */
  ghost predicate TotalPreorder<T(!new)>(le: (T, T) -> bool) {
    && (forall x, y :: le(x, y) || le(y, x))
    && (forall x, y, z :: le(x, y) && le(y, z) ==> le(x, z))
  }

  predicate SortedBy<T>(s: seq<T>, le: (T, T) -> bool) {
    forall i, j :: 0 <= i < j < |s| ==> le(s[i], s[j])
  }

  /** Puts `x` in front of the first element it is not after, so equal elements keep their order. */
  function Insert<T(!new)>(x: T, s: seq<T>, le: (T, T) -> bool): (r: seq<T>)
    requires TotalPreorder(le) && SortedBy(s, le)
    ensures SortedBy(r, le)
    ensures multiset(r) == multiset(s) + multiset{x}
    ensures |r| == |s| + 1
  {
    if s == [] || le(x, s[0]) then
      FrontBeforeAll(x, s, le);
      [x] + s
    else
      SortedTail(s, le);
      var rest := Insert(x, s[1..], le);
      assert s == [s[0]] + s[1..];
      HeadBeforeInserted(x, s, le, rest);
      assert multiset([s[0]] + rest) == multiset{s[0]} + multiset(rest);
      [s[0]] + rest
  }

  lemma SortedTail<T>(s: seq<T>, le: (T, T) -> bool)
    requires SortedBy(s, le) && s != []
    ensures SortedBy(s[1..], le)
  {
    forall i, j | 0 <= i < j < |s| - 1 ensures le(s[1..][i], s[1..][j]) {
      assert s[1..][i] == s[i + 1] && s[1..][j] == s[j + 1];
    }
  }

  /** When `x` is not after the head, it is not after anything. */
  lemma FrontBeforeAll<T(!new)>(x: T, s: seq<T>, le: (T, T) -> bool)
    requires TotalPreorder(le) && SortedBy(s, le) && (s == [] || le(x, s[0]))
    ensures SortedBy([x] + s, le)
  {
    var r := [x] + s;
    forall i, j | 0 <= i < j < |r| ensures le(r[i], r[j]) {
      assert r[j] == s[j - 1];
      if i > 0 {
        assert r[i] == s[i - 1];
      } else if j > 1 {
        assert le(s[0], s[j - 1]);
      }
    }
  }

  /** When `x` goes after the head, the head comes before everything the insertion into the tail returns. */
  lemma HeadBeforeInserted<T(!new)>(x: T, s: seq<T>, le: (T, T) -> bool, rest: seq<T>)
    requires TotalPreorder(le) && SortedBy(s, le) && s != [] && !le(x, s[0])
    requires SortedBy(rest, le) && multiset(rest) == multiset(s[1..]) + multiset{x}
    ensures SortedBy([s[0]] + rest, le)
  {
    var r := [s[0]] + rest;
    forall j | 0 <= j < |rest| ensures le(s[0], rest[j]) {
      assert rest[j] in multiset(rest);
      if rest[j] != x {
        assert rest[j] in multiset(s[1..]);
        var k :| 0 <= k < |s[1..]| && s[1..][k] == rest[j];
        assert s[k + 1] == rest[j];
      }
    }
    forall i, j | 0 <= i < j < |r| ensures le(r[i], r[j]) {
      assert r[j] == rest[j - 1];
      if i > 0 {
        assert r[i] == rest[i - 1];
      }
    }
  }

  function InsertionSort<T(!new)>(s: seq<T>, le: (T, T) -> bool): (r: seq<T>)
    requires TotalPreorder(le)
    ensures SortedBy(r, le)
    ensures multiset(r) == multiset(s)
    ensures |r| == |s|
  {
    if s == [] then []
    else
      assert s == [s[0]] + s[1..];
      Insert(s[0], InsertionSort(s[1..], le), le)
  }

  /** The elements of `s` that `le` ranks equal to `y`, in their order in `s`. */
  function Equivalents<T>(s: seq<T>, y: T, le: (T, T) -> bool): seq<T> {
    if s == [] then []
    else (if le(s[0], y) && le(y, s[0]) then [s[0]] else []) + Equivalents(s[1..], y, le)
  }

  lemma EquivalentsCons<T>(x: T, s: seq<T>, y: T, le: (T, T) -> bool)
    ensures Equivalents([x] + s, y, le) == (if le(x, y) && le(y, x) then [x] else []) + Equivalents(s, y, le)
  {
    assert ([x] + s)[0] == x && ([x] + s)[1..] == s;
  }

  /** Inserting `x` puts it before every element ranked equal to it. */
  lemma {:induction false} InsertStable<T(!new)>(x: T, s: seq<T>, y: T, le: (T, T) -> bool)
    requires TotalPreorder(le) && SortedBy(s, le)
    ensures Equivalents(Insert(x, s, le), y, le) == (if le(x, y) && le(y, x) then [x] else []) + Equivalents(s, y, le)
  {
    if s == [] || le(x, s[0]) {
      EquivalentsCons(x, s, y, le);
    } else {
      var t := s[1..];
      SortedTail(s, le);
      var r := Insert(x, t, le);
      InsertStable(x, t, y, le);
      assert Insert(x, s, le) == [s[0]] + r;
      EquivalentsCons(s[0], r, y, le);
      assert s == [s[0]] + t;
      EquivalentsCons(s[0], t, y, le);
      if le(x, y) && le(y, x) {
        assert !(le(s[0], y) && le(y, s[0]));
      }
    }
  }

  /** The sort is stable: elements ranked equal keep their relative order. */
  lemma {:induction false} SortIsStable<T(!new)>(s: seq<T>, y: T, le: (T, T) -> bool)
    requires TotalPreorder(le)
    ensures Equivalents(InsertionSort(s, le), y, le) == Equivalents(s, y, le)
  {
    if s != [] {
      SortIsStable(s[1..], y, le);
      InsertStable(s[0], InsertionSort(s[1..], le), y, le);
      assert s == [s[0]] + s[1..];
      EquivalentsCons(s[0], s[1..], y, le);
    }
  }

  /** Sorting what is already sorted changes nothing (Python's sort is stable). */
  lemma {:induction false} SortedIsFixed<T(!new)>(s: seq<T>, le: (T, T) -> bool)
    requires TotalPreorder(le) && SortedBy(s, le)
    ensures InsertionSort(s, le) == s
  {
    if s != [] {
      SortedTail(s, le);
      SortedIsFixed(s[1..], le);
      assert s == [s[0]] + s[1..];
    }
  }
}
