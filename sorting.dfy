/**
 * `sortFilms`: the shown films are sorted in place by the option of the sort
 * selector. Every option orders by an integer key (descending orders negate
 * it); titles are ranked by `collate`, which stands for `localeCompare`.
 * An unrecognised option compares every pair as equal, which leaves the
 * order as it was.
 */
module Sorting {
  import opened Wrappers
  import opened Films
  import Numbers

  datatype SortKey = BoxOfficeDesc | BoxOfficeAsc | YearDesc | YearAsc | Title | Unrecognised

  /** The value of the sort selector, as the comparator's `switch` reads it. */
  function SortKeyOf(value: string): SortKey
  {
    if value == "boxOffice" then BoxOfficeDesc
    else if value == "boxOfficeAsc" then BoxOfficeAsc
    else if value == "yearDesc" then YearDesc
    else if value == "yearAsc" then YearAsc
    else if value == "title" then Title
    else Unrecognised
  }

  /** The integer a film is sorted by, ascending. */
  function KeyOf(k: SortKey, collate: string -> int, f: Film): int
  {
    match k
    case BoxOfficeDesc => -(BoxOffice(f) as int)
    case BoxOfficeAsc => BoxOffice(f)
    case YearDesc => -f.releaseYear
    case YearAsc => f.releaseYear
    case Title => collate(f.title)
    case Unrecognised => 0
  }

  /** The key function of an option. */
  function KeyFn(k: SortKey, collate: string -> int): Film -> int
  {
    f => KeyOf(k, collate, f)
  }

  predicate SortedBy(s: seq<Film>, key: Film -> int)
  {
    forall i, j :: 0 <= i < j < |s| ==> key(s[i]) <= key(s[j])
  }

  /** The order each option of the selector promises, in the film's own terms. */
  predicate InOrder(s: seq<Film>, k: SortKey, collate: string -> int)
  {
    match k
    case BoxOfficeDesc => forall i, j :: 0 <= i < j < |s| ==> BoxOffice(s[i]) >= BoxOffice(s[j])
    case BoxOfficeAsc => forall i, j :: 0 <= i < j < |s| ==> BoxOffice(s[i]) <= BoxOffice(s[j])
    case YearDesc => forall i, j :: 0 <= i < j < |s| ==> s[i].releaseYear >= s[j].releaseYear
    case YearAsc => forall i, j :: 0 <= i < j < |s| ==> s[i].releaseYear <= s[j].releaseYear
    case Title => forall i, j :: 0 <= i < j < |s| ==> collate(s[i].title) <= collate(s[j].title)
    case Unrecognised => true
  }

  /** Sorted by the key is the order the option promises. */
  lemma SortedByKeyInOrder(s: seq<Film>, k: SortKey, collate: string -> int)
    requires SortedBy(s, KeyFn(k, collate))
    ensures InOrder(s, k, collate)
  {
    forall i, j | 0 <= i < j < |s| ensures KeyOf(k, collate, s[i]) <= KeyOf(k, collate, s[j]) {
      assert KeyFn(k, collate)(s[i]) <= KeyFn(k, collate)(s[j]);
    }
  }

  /**
   * One step of the insertion sort on values: `x` is placed after `s`, then
   * moves left past every film whose key is larger than its own, and stops
   * at the first film whose key is not.
   */
  function Insert(s: seq<Film>, x: Film, key: Film -> int): (r: seq<Film>)
    ensures |r| == |s| + 1
  {
    if s == [] || key(s[|s| - 1]) <= key(x) then s + [x]
    else Insert(s[..|s| - 1], x, key) + [s[|s| - 1]]
  }

  /** What the insertion sort computes: each film in turn inserted into the sorted films before it. */
  function InsertionSorted(s: seq<Film>, key: Film -> int): seq<Film>
  {
    if s == [] then [] else Insert(InsertionSorted(s[..|s| - 1], key), s[|s| - 1], key)
  }

  lemma {:induction false} InsertPermutation(s: seq<Film>, x: Film, key: Film -> int)
    ensures multiset(Insert(s, x, key)) == multiset(s) + multiset{x}
  {
    if s != [] && key(s[|s| - 1]) > key(x) {
      var p, l := s[..|s| - 1], s[|s| - 1];
      InsertPermutation(p, x, key);
      assert s == p + [l];
    }
  }

  /** Inserting into a sorted list keeps it sorted. */
  lemma {:induction false} InsertSorted(s: seq<Film>, x: Film, key: Film -> int)
    requires SortedBy(s, key)
    ensures SortedBy(Insert(s, x, key), key)
  {
    if s != [] && key(s[|s| - 1]) > key(x) {
      var p, l := s[..|s| - 1], s[|s| - 1];
      var r := Insert(p, x, key);
      InsertSorted(p, x, key);
      InsertPermutation(p, x, key);
      forall k | 0 <= k < |r| ensures key(r[k]) <= key(l) {
        assert r[k] in multiset(r);
        if r[k] != x {
          assert r[k] in multiset(p);
          var m :| 0 <= m < |p| && p[m] == r[k];
          assert s[m] == p[m];
        }
      }
    }
  }

  /** The insertion sort's result is sorted by the key. */
  lemma {:induction false} InsertionSortedSorted(s: seq<Film>, key: Film -> int)
    ensures SortedBy(InsertionSorted(s, key), key)
  {
    if s != [] {
      InsertionSortedSorted(s[..|s| - 1], key);
      InsertSorted(InsertionSorted(s[..|s| - 1], key), s[|s| - 1], key);
    }
  }

  /** The insertion sort's result holds the same films, as often. */
  lemma {:induction false} InsertionSortedPermutation(s: seq<Film>, key: Film -> int)
    ensures multiset(InsertionSorted(s, key)) == multiset(s)
  {
    if s != [] {
      var p, l := s[..|s| - 1], s[|s| - 1];
      InsertionSortedPermutation(p, key);
      InsertPermutation(InsertionSorted(p, key), l, key);
      assert s == p + [l];
    }
  }

  /** When the key cannot tell films apart, the sort leaves the order as it was. */
  lemma {:induction false} InsertionSortedConstant(s: seq<Film>, key: Film -> int)
    requires forall f, g :: key(f) == key(g)
    ensures InsertionSorted(s, key) == s
  {
    if s != [] {
      InsertionSortedConstant(s[..|s| - 1], key);
      assert s == s[..|s| - 1] + [s[|s| - 1]];
    }
  }

  /** The films of `s` whose key is `v`, in their order in `s`. */
  function WithKey(s: seq<Film>, key: Film -> int, v: int): seq<Film>
  {
    if s == [] then []
    else WithKey(s[..|s| - 1], key, v) + (if key(s[|s| - 1]) == v then [s[|s| - 1]] else [])
  }

  lemma {:induction false} InsertWithKey(s: seq<Film>, x: Film, key: Film -> int, v: int)
    ensures WithKey(Insert(s, x, key), key, v) == WithKey(s, key, v) + (if key(x) == v then [x] else [])
  {
    if s == [] || key(s[|s| - 1]) <= key(x) {
      assert (s + [x])[..|s|] == s;
    } else {
      var p, l := s[..|s| - 1], s[|s| - 1];
      var r := Insert(p, x, key);
      InsertWithKey(p, x, key, v);
      assert (r + [l])[..|r|] == r;
    }
  }

  /**
   * The sort is stable: the films that share a key come out in the order
   * they went in.
   */
  lemma {:induction false} InsertionSortedStable(s: seq<Film>, key: Film -> int, v: int)
    ensures WithKey(InsertionSorted(s, key), key, v) == WithKey(s, key, v)
  {
    if s != [] {
      InsertionSortedStable(s[..|s| - 1], key, v);
      InsertWithKey(InsertionSorted(s[..|s| - 1], key), s[|s| - 1], key, v);
    }
  }

  /** Exchanges `a[j - 1]` and `a[j]`. */
  method SwapDown(a: array<Film>, j: nat)
    requires 0 < j < a.Length
    modifies a
    ensures a[..] == old(a[..j - 1]) + [old(a[j]), old(a[j - 1])] + old(a[j + 1..])
  {
    a[j - 1], a[j] := a[j], a[j - 1];
  }

  /** Exchanging `x` with the film before it moves `x` one place to the left. */
  lemma SwapMovesLeft(s: seq<Film>, x: Film, t: seq<Film>, j: nat)
    requires 0 < j <= |s|
    ensures var u := s[..j] + [x] + s[j..] + t;
      u[..j - 1] + [u[j], u[j - 1]] + u[j + 1..] == s[..j - 1] + [x] + s[j - 1..] + t
  {
    var u := s[..j] + [x] + s[j..] + t;
    assert u[..j - 1] == s[..j - 1];
    assert u[j + 1..] == s[j..] + t;
    assert s[j - 1..] == [s[j - 1]] + s[j..];
  }

  /** Moving `x` past a film with a larger key is one unfolding of `Insert`. */
  lemma InsertStep(s: seq<Film>, x: Film, key: Film -> int, j: nat)
    requires 0 < j <= |s| && key(s[j - 1]) > key(x)
    ensures Insert(s[..j], x, key) + s[j..] == Insert(s[..j - 1], x, key) + s[j - 1..]
  {
    assert s[..j][..j - 1] == s[..j - 1] && s[..j][j - 1] == s[j - 1];
    assert s[j - 1..] == [s[j - 1]] + s[j..];
  }

  /**
   * One step of the insertion sort in place: `a[i]` moves down past the
   * films before it whose key is larger, as `Insert` says.
   */
  method Sink(a: array<Film>, i: nat, key: Film -> int)
    requires i < a.Length
    modifies a
    ensures a[..i + 1] == Insert(old(a[..i]), old(a[i]), key)
    ensures a[i + 1..] == old(a[i + 1..])
  {
    ghost var s, x, t := a[..i], a[i], a[i + 1..];
    assert s[..i] == s && s[i..] == [] && s + [] == s;
    assert a[..] == s[..i] + [x] + s[i..] + t;
    var j := i;
    while j > 0 && key(a[j - 1]) > key(a[j])
      invariant 0 <= j <= i
      invariant a[..] == s[..j] + [x] + s[j..] + t
      invariant Insert(s, x, key) == Insert(s[..j], x, key) + s[j..]
    {
      assert a[j - 1] == s[j - 1] && a[j] == x;
      InsertStep(s, x, key, j);
      SwapMovesLeft(s, x, t, j);
      SwapDown(a, j);
      j := j - 1;
    }
    assert j > 0 ==> a[j - 1] == s[j - 1] && a[j] == x;
    assert Insert(s[..j], x, key) == s[..j] + [x];
    assert a[..] == Insert(s, x, key) + t;
    assert a[..i + 1] == (a[..])[..i + 1];
  }

  /**
   * `filteredData.sort(compare)` as an insertion sort of the array in place:
   * the array ends as `InsertionSorted` of its old contents, which is sorted
   * by the key and a permutation of them.
   */
  method SortByKey(a: array<Film>, key: Film -> int)
    modifies a
    ensures a[..] == InsertionSorted(old(a[..]), key)
    ensures SortedBy(a[..], key)
    ensures multiset(a[..]) == old(multiset(a[..]))
  {
    ghost var s := a[..];
    var i := 0;
    while i < a.Length
      invariant 0 <= i <= a.Length
      invariant a[..i] == InsertionSorted(s[..i], key)
      invariant a[i..] == s[i..]
    {
      Sink(a, i, key);
      assert s[..i + 1][..i] == s[..i];
      i := i + 1;
    }
    assert a[..] == a[..a.Length] && s == s[..a.Length];
    InsertionSortedSorted(s, key);
    InsertionSortedPermutation(s, key);
  }

  /**
   * The `'boxOffice'` comparator as written: `parseFloat(b) - parseFloat(a)`;
   * when either side is NaN the difference is NaN, which the sort reads as
   * "equal".
   */
  function CompareBoxOfficeAsWritten(a: Film, b: Film): int
  {
    match (Numbers.ParseBoxOffice(a.boxOffice), Numbers.ParseBoxOffice(b.boxOffice))
    case (Some(x), Some(y)) => (y as int) - x
    case _ => 0
  }

  /**
   * One amount that does not parse makes the comparator inconsistent: it
   * calls "$5" equal to "N/A" and "N/A" equal to "$3", but not "$5" equal to
   * "$3", so the order the sort produces is not determined.
   */
  lemma AsWrittenComparatorInconsistent()
    ensures
      var a := Film("A", 2000, None, None, "$5");
      var b := Film("B", 2000, None, None, "N/A");
      var c := Film("C", 2000, None, None, "$3");
      && CompareBoxOfficeAsWritten(a, b) == 0
      && CompareBoxOfficeAsWritten(b, c) == 0
      && CompareBoxOfficeAsWritten(a, c) != 0
  {
    var five := Numbers.ParseBoxOffice("$5");
    assert Numbers.StripCurrency("$5") == "5";
    assert Numbers.DigitRun("5") == 1;
    assert five == Some(5);
    assert Numbers.ParseBoxOffice("N/A") == None;
    assert Numbers.StripCurrency("$3") == "3";
    assert Numbers.DigitRun("3") == 1;
  }

  /**
   * The comparator with the 0 fallback the average already uses: a
   * consistent comparator, and the order of the `BoxOfficeDesc` key.
   */
  function CompareBoxOffice(a: Film, b: Film): int
  {
    BoxOffice(b) - BoxOffice(a)
  }

  lemma CompareBoxOfficeConsistent(a: Film, b: Film, c: Film, collate: string -> int)
    ensures CompareBoxOffice(a, b) == 0 && CompareBoxOffice(b, c) == 0 ==> CompareBoxOffice(a, c) == 0
    ensures CompareBoxOffice(a, b) < 0 && CompareBoxOffice(b, c) < 0 ==> CompareBoxOffice(a, c) < 0
    ensures CompareBoxOffice(a, b) < 0 <==> CompareBoxOffice(b, a) > 0
    ensures CompareBoxOffice(a, b) <= 0 <==> KeyOf(BoxOfficeDesc, collate, a) <= KeyOf(BoxOfficeDesc, collate, b)
  {
  }

  /** Where both amounts parse, the corrected comparator is the one written. */
  lemma CompareBoxOfficeAgrees(a: Film, b: Film)
    requires Numbers.ParseBoxOffice(a.boxOffice).Some? && Numbers.ParseBoxOffice(b.boxOffice).Some?
    ensures CompareBoxOffice(a, b) == CompareBoxOfficeAsWritten(a, b)
  {
  }
}
