/**
 * The filter panel's facets: the distinct years, countries and directors of
 * the full data set in display order, and the per-value counts shown beside
 * each option. Both depend on the data set alone, never on the active filters.
 */
module Facets {
  import opened Wrappers
  import opened Films
  import Text

  predicate StrictlyDecreasing(s: seq<int>)
  {
    forall i, j :: 0 <= i < j < |s| ==> s[i] > s[j]
  }

  predicate StrictlyAscending(s: seq<string>)
  {
    forall i, j :: 0 <= i < j < |s| ==> Text.StrLess(s[i], s[j])
  }

  /** The text-valued facet dimensions. */
  datatype TextField = CountryField | DirectorsField

  function TextOf(f: Film, field: TextField): Option<string>
  {
    match field
    case CountryField => f.country
    case DirectorsField => f.directors
  }

  function YearsIn(films: seq<Film>): set<int>
  {
    set f | f in films :: f.releaseYear
  }

  /** The truthy values of one text field (`.filter(Boolean)`). */
  function TextsIn(films: seq<Film>, field: TextField): set<string>
  {
    set f | f in films && Present(TextOf(f, field)) :: TextOf(f, field).value
  }

  function InsertYear(y: int, s: seq<int>): (r: seq<int>)
    requires StrictlyDecreasing(s)
    ensures StrictlyDecreasing(r)
    ensures forall z :: z in r <==> z == y || z in s
  {
    if s == [] then [y]
    else if y == s[0] then s
    else if y > s[0] then [y] + s
    else
      var rest := InsertYear(y, s[1..]);
      assert forall k :: 0 <= k < |rest| ==> rest[k] < s[0] by {
        forall k | 0 <= k < |rest| ensures rest[k] < s[0] {
          assert rest[k] in rest;
          if rest[k] != y {
            var j :| 0 <= j < |s[1..]| && s[1..][j] == rest[k];
            assert s[j + 1] == rest[k];
          }
        }
      }
      [s[0]] + rest
  }

  /** The year options: every release year once, most recent first. */
  function YearFacets(films: seq<Film>): (r: seq<int>)
    ensures StrictlyDecreasing(r)
    ensures forall y :: y in r <==> y in YearsIn(films)
  {
    if films == [] then []
    else
      assert YearsIn(films) == {films[0].releaseYear} + YearsIn(films[1..]) by {
        assert films == [films[0]] + films[1..];
      }
      InsertYear(films[0].releaseYear, YearFacets(films[1..]))
  }

  function InsertText(x: string, s: seq<string>): (r: seq<string>)
    requires StrictlyAscending(s)
    ensures StrictlyAscending(r)
    ensures forall z :: z in r <==> z == x || z in s
  {
    if s == [] then [x]
    else if x == s[0] then s
    else if Text.StrLess(x, s[0]) then
      assert StrictlyAscending([x] + s) by {
        forall j | 0 <= j < |s| ensures Text.StrLess(x, s[j]) {
          if j > 0 {
            Text.StrLessTransitive(x, s[0], s[j]);
          }
        }
      }
      [x] + s
    else
      Text.StrLessTotal(x, s[0]);
      var rest := InsertText(x, s[1..]);
      assert forall k :: 0 <= k < |rest| ==> Text.StrLess(s[0], rest[k]) by {
        forall k | 0 <= k < |rest| ensures Text.StrLess(s[0], rest[k]) {
          assert rest[k] in rest;
          if rest[k] != x {
            var j :| 0 <= j < |s[1..]| && s[1..][j] == rest[k];
            assert s[j + 1] == rest[k];
          }
        }
      }
      [s[0]] + rest
  }

  /**
   * The country or director options: every truthy value once, in the
   * order of `sort()`.
   */
  function TextFacets(films: seq<Film>, field: TextField): (r: seq<string>)
    ensures StrictlyAscending(r)
    ensures forall z :: z in r <==> z in TextsIn(films, field)
  {
    if films == [] then []
    else
      var rest := TextFacets(films[1..], field);
      assert films == [films[0]] + films[1..];
      var v := TextOf(films[0], field);
      if Present(v) then
        assert TextsIn(films, field) == {v.value} + TextsIn(films[1..], field);
        InsertText(v.value, rest)
      else
        assert TextsIn(films, field) == TextsIn(films[1..], field);
        rest
  }

  /** Strictly ascending strings are distinct. */
  lemma AscendingDistinct(s: seq<string>)
    requires StrictlyAscending(s)
    ensures forall i, j :: 0 <= i < j < |s| ==> s[i] != s[j]
  {
    forall i, j | 0 <= i < j < |s| ensures s[i] != s[j] {
      Text.StrLessIrreflexive(s[i]);
    }
  }

  /**
   * The country and director options, stated against the data set: each is
   * listed once, none is empty, and each is a value some film has, exactly.
   */
  lemma TextFacetsExact(films: seq<Film>, field: TextField)
    ensures forall i, j :: 0 <= i < j < |TextFacets(films, field)| ==>
      TextFacets(films, field)[i] != TextFacets(films, field)[j]
    ensures forall z :: z in TextFacets(films, field) <==>
      z != "" && exists f :: f in films && TextOf(f, field) == Some(z)
  {
    var r := TextFacets(films, field);
    AscendingDistinct(r);
    forall z ensures z in r <==> z != "" && exists f :: f in films && TextOf(f, field) == Some(z) {
      if z in r {
        var f :| f in films && Present(TextOf(f, field)) && TextOf(f, field).value == z;
        assert TextOf(f, field) == Some(z);
      }
      if z != "" && exists f :: f in films && TextOf(f, field) == Some(z) {
        var f :| f in films && TextOf(f, field) == Some(z);
        assert z in TextsIn(films, field);
      }
    }
  }

  /** The `value` of a filter option: a number for years, a string otherwise. */
  datatype FilterValue = Num(n: int) | Str(s: string)

  /** The `===` test of `countFilmsByFilter` for one film. */
  predicate FieldEquals(f: Film, kind: string, v: FilterValue)
  {
    if kind == "year" then v == Num(f.releaseYear)
    else if kind == "country" then f.country.Some? && v == Str(f.country.value)
    else if kind == "director" then f.directors.Some? && v == Str(f.directors.value)
    else false
  }

  ghost function MatchingIndices(films: seq<Film>, kind: string, v: FilterValue): set<nat>
  {
    set i: nat | i < |films| && FieldEquals(films[i], kind, v)
  }

  /** `countFilmsByFilter(type, value)` over the full data set. */
  function CountFilmsByFilter(films: seq<Film>, kind: string, v: FilterValue): (r: nat)
    ensures r <= |films|
  {
    if films == [] then 0
    else CountFilmsByFilter(films[..|films| - 1], kind, v) + (if FieldEquals(films[|films| - 1], kind, v) then 1 else 0)
  }

  /** The matching positions of a non-empty data set: those of all but its last film, and maybe the last. */
  lemma MatchingIndicesSplit(films: seq<Film>, kind: string, v: FilterValue)
    requires |films| > 0
    ensures MatchingIndices(films, kind, v) ==
      MatchingIndices(films[..|films| - 1], kind, v) +
      (if FieldEquals(films[|films| - 1], kind, v) then {|films| - 1} else {})
  {
    var n := |films| - 1;
    var prefix := films[..n];
    forall i: nat | i < n
      ensures FieldEquals(films[i], kind, v) == FieldEquals(prefix[i], kind, v)
    {
      assert films[i] == prefix[i];
    }
  }

  /** The count is the number of positions of the data set whose field equals the value. */
  lemma {:induction false} CountIsMatchingPositions(films: seq<Film>, kind: string, v: FilterValue)
    ensures CountFilmsByFilter(films, kind, v) == |MatchingIndices(films, kind, v)|
  {
    if films == [] {
      assert MatchingIndices(films, kind, v) == {};
    } else {
      var n := |films| - 1;
      CountIsMatchingPositions(films[..n], kind, v);
      MatchingIndicesSplit(films, kind, v);
      var before := MatchingIndices(films[..n], kind, v);
      assert n !in before;
    }
  }

  /** Every option in the panel shows a positive count. */
  lemma FacetCountsPositive(films: seq<Film>)
    ensures forall y :: y in YearFacets(films) ==> CountFilmsByFilter(films, "year", Num(y)) > 0
    ensures forall c :: c in TextFacets(films, CountryField) ==>
      CountFilmsByFilter(films, "country", Str(c)) > 0
    ensures forall d :: d in TextFacets(films, DirectorsField) ==>
      CountFilmsByFilter(films, "director", Str(d)) > 0
  {
    forall y | y in YearFacets(films) ensures CountFilmsByFilter(films, "year", Num(y)) > 0 {
      CountIsMatchingPositions(films, "year", Num(y));
      var i :| 0 <= i < |films| && films[i].releaseYear == y;
      assert i in MatchingIndices(films, "year", Num(y));
    }
    forall c | c in TextFacets(films, CountryField)
      ensures CountFilmsByFilter(films, "country", Str(c)) > 0
    {
      CountIsMatchingPositions(films, "country", Str(c));
      var f :| f in films && Present(TextOf(f, CountryField)) && TextOf(f, CountryField).value == c;
      var i :| 0 <= i < |films| && films[i] == f;
      assert FieldEquals(films[i], "country", Str(c));
      assert i in MatchingIndices(films, "country", Str(c));
    }
    forall d | d in TextFacets(films, DirectorsField)
      ensures CountFilmsByFilter(films, "director", Str(d)) > 0
    {
      CountIsMatchingPositions(films, "director", Str(d));
      var f :| f in films && Present(TextOf(f, DirectorsField)) && TextOf(f, DirectorsField).value == d;
      var i :| 0 <= i < |films| && films[i] == f;
      assert FieldEquals(films[i], "director", Str(d));
      assert i in MatchingIndices(films, "director", Str(d));
    }
  }
}
