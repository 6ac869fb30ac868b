/**
 * `updateStats`: the number of films shown, the box-office total the
 * average is taken from, and the year range. The range is `None` for an
 * empty list, where the source computes `Math.min()` of nothing.
 */
module Stats {
  import opened Wrappers
  import opened Films
  import Numbers

  /**
   * The `reduce` of `updateStats`: the amounts added left to right, an
   * amount that does not parse adding 0.
   */
  function TotalBoxOffice(films: seq<Film>): nat
  {
    if films == [] then 0
    else TotalBoxOffice(films[..|films| - 1]) + BoxOffice(films[|films| - 1])
  }

  lemma {:induction false} TotalAppend(a: seq<Film>, b: seq<Film>)
    ensures TotalBoxOffice(a + b) == TotalBoxOffice(a) + TotalBoxOffice(b)
    decreases |b|
  {
    if b == [] {
      assert a + b == a;
    } else {
      assert (a + b)[..|a + b| - 1] == a + b[..|b| - 1];
      TotalAppend(a, b[..|b| - 1]);
    }
  }

  /** A film whose amount does not parse adds nothing to the total, wherever it stands. */
  lemma UnparsedAddsNothing(a: seq<Film>, f: Film, b: seq<Film>)
    requires Numbers.ParseBoxOffice(f.boxOffice).None?
    ensures TotalBoxOffice(a + [f] + b) == TotalBoxOffice(a + b)
  {
    TotalAppend(a + [f], b);
    TotalAppend(a, [f]);
    TotalAppend(a, b);
    assert TotalBoxOffice([f]) == TotalBoxOffice([]) + BoxOffice(f);
  }

  /** The total does not depend on the order: sorting leaves it as it was. */
  lemma {:induction false} TotalPermutation(a: seq<Film>, b: seq<Film>)
    requires multiset(a) == multiset(b)
    ensures TotalBoxOffice(a) == TotalBoxOffice(b)
    decreases |a|
  {
    if a != [] {
      var x := a[0];
      assert x in multiset(b);
      var k :| 0 <= k < |b| && b[k] == x;
      var b' := b[..k] + b[k + 1..];
      assert b == b[..k] + [x] + b[k + 1..];
      assert a == [x] + a[1..];
      assert multiset(b) == multiset(b[..k]) + multiset{x} + multiset(b[k + 1..]);
      assert multiset(a) == multiset{x} + multiset(a[1..]);
      assert multiset(b') == multiset(b[..k]) + multiset(b[k + 1..]);
      assert multiset(a[1..]) == multiset(a) - multiset{x};
      assert multiset(b') == multiset(b) - multiset{x};
      TotalPermutation(a[1..], b');
      TotalAppend([x], a[1..]);
      TotalAppend(b[..k] + [x], b[k + 1..]);
      TotalAppend(b[..k], [x]);
      TotalAppend(b[..k], b[k + 1..]);
      assert TotalBoxOffice([x]) == TotalBoxOffice([]) + BoxOffice(x);
    }
  }

  /** `Math.min(...years)` for a non-empty list. */
  function MinYear(films: seq<Film>): int
    requires |films| > 0
  {
    if |films| == 1 then films[0].releaseYear
    else
      var m := MinYear(films[1..]);
      if films[0].releaseYear <= m then films[0].releaseYear else m
  }

  /** `Math.max(...years)` for a non-empty list. */
  function MaxYear(films: seq<Film>): int
    requires |films| > 0
  {
    if |films| == 1 then films[0].releaseYear
    else
      var m := MaxYear(films[1..]);
      if films[0].releaseYear >= m then films[0].releaseYear else m
  }

  /** The earliest year is a year of one of the films, and no film is earlier. */
  lemma {:induction false} MinYearIsLeast(films: seq<Film>)
    requires |films| > 0
    ensures exists i :: 0 <= i < |films| && films[i].releaseYear == MinYear(films)
    ensures forall i :: 0 <= i < |films| ==> MinYear(films) <= films[i].releaseYear
  {
    if |films| > 1 {
      MinYearIsLeast(films[1..]);
      assert forall i :: 1 <= i < |films| ==> films[1..][i - 1] == films[i];
      if films[0].releaseYear <= MinYear(films[1..]) {
        assert 0 <= 0 < |films| && films[0].releaseYear == MinYear(films);
      } else {
        var k :| 0 <= k < |films[1..]| && films[1..][k].releaseYear == MinYear(films[1..]);
        assert 0 <= k + 1 < |films| && films[k + 1].releaseYear == MinYear(films);
      }
    } else {
      assert 0 <= 0 < |films| && films[0].releaseYear == MinYear(films);
    }
  }

  /** The latest year is a year of one of the films, and no film is later. */
  lemma {:induction false} MaxYearIsGreatest(films: seq<Film>)
    requires |films| > 0
    ensures exists i :: 0 <= i < |films| && films[i].releaseYear == MaxYear(films)
    ensures forall i :: 0 <= i < |films| ==> MaxYear(films) >= films[i].releaseYear
  {
    if |films| > 1 {
      MaxYearIsGreatest(films[1..]);
      assert forall i :: 1 <= i < |films| ==> films[1..][i - 1] == films[i];
      if films[0].releaseYear >= MaxYear(films[1..]) {
        assert 0 <= 0 < |films| && films[0].releaseYear == MaxYear(films);
      } else {
        var k :| 0 <= k < |films[1..]| && films[1..][k].releaseYear == MaxYear(films[1..]);
        assert 0 <= k + 1 < |films| && films[k + 1].releaseYear == MaxYear(films);
      }
    } else {
      assert 0 <= 0 < |films| && films[0].releaseYear == MaxYear(films);
    }
  }

  /** What the statistics panel shows, the average as its two integer parts. */
  datatype Stats = Stats(count: nat, totalBoxOffice: nat, yearRange: Option<(int, int)>)

  function ComputeStats(films: seq<Film>): Stats
  {
    Stats(|films|, TotalBoxOffice(films),
      if films == [] then None else Some((MinYear(films), MaxYear(films))))
  }

  /**
   * For a non-empty list the shown count is its length and the range runs
   * from the earliest to the latest year, both years of films in it.
   */
  lemma StatsOfNonEmpty(films: seq<Film>)
    requires |films| > 0
    ensures ComputeStats(films).count == |films|
    ensures ComputeStats(films).yearRange.Some?
    ensures var (lo, hi) := ComputeStats(films).yearRange.value;
      && lo <= hi
      && (exists i :: 0 <= i < |films| && films[i].releaseYear == lo)
      && (exists i :: 0 <= i < |films| && films[i].releaseYear == hi)
      && forall i :: 0 <= i < |films| ==> lo <= films[i].releaseYear <= hi
  {
    MinYearIsLeast(films);
    MaxYearIsGreatest(films);
    assert MinYear(films) <= films[0].releaseYear <= MaxYear(films);
  }

  /** The earliest year depends only on which films are shown. */
  lemma MinYearPermutation(a: seq<Film>, b: seq<Film>)
    requires |a| > 0 && multiset(a) == multiset(b)
    ensures |b| > 0 && MinYear(a) == MinYear(b)
  {
    assert a[0] in multiset(b);
    MinYearIsLeast(a);
    MinYearIsLeast(b);
    var ia :| 0 <= ia < |a| && a[ia].releaseYear == MinYear(a);
    var ib :| 0 <= ib < |b| && b[ib].releaseYear == MinYear(b);
    assert a[ia] in multiset(b);
    assert b[ib] in multiset(a);
    var x :| 0 <= x < |b| && b[x] == a[ia];
    var y :| 0 <= y < |a| && a[y] == b[ib];
  }

  /** The latest year depends only on which films are shown. */
  lemma MaxYearPermutation(a: seq<Film>, b: seq<Film>)
    requires |a| > 0 && multiset(a) == multiset(b)
    ensures |b| > 0 && MaxYear(a) == MaxYear(b)
  {
    assert a[0] in multiset(b);
    MaxYearIsGreatest(a);
    MaxYearIsGreatest(b);
    var ia :| 0 <= ia < |a| && a[ia].releaseYear == MaxYear(a);
    var ib :| 0 <= ib < |b| && b[ib].releaseYear == MaxYear(b);
    assert a[ia] in multiset(b);
    assert b[ib] in multiset(a);
    var x :| 0 <= x < |b| && b[x] == a[ia];
    var y :| 0 <= y < |a| && a[y] == b[ib];
  }

  /** The statistics depend only on which films are shown, not on their order. */
  lemma StatsPermutation(a: seq<Film>, b: seq<Film>)
    requires multiset(a) == multiset(b)
    ensures ComputeStats(a) == ComputeStats(b)
  {
    assert |a| == |multiset(a)| == |multiset(b)| == |b|;
    TotalPermutation(a, b);
    if a != [] {
      MinYearPermutation(a, b);
      MaxYearPermutation(a, b);
    }
  }
}
