/**
 * The filter of `applyFilters`: a film is shown when it passes the search
 * test and the year, country and director tests. An empty set imposes no
 * restriction on its dimension; a non-empty one requires membership.
 */
module Filtering {
  import opened Films
  import Text

  /**
   * What the filter reads: the search text already lower-cased, and the
   * three sets of active options.
   */
  datatype Selection = Selection(
    term: string,
    years: set<int>,
    countries: set<string>,
    directors: set<string>)

  /** The search test: the lower-cased title, or the lower-cased directors when present, include `term`. */
  predicate MatchesSearch(f: Film, term: string)
  {
    || Text.Contains(Text.Lower(f.title), term)
    || (Present(f.directors) && Text.Contains(Text.Lower(f.directors.value), term))
  }

  predicate MatchesYear(f: Film, years: set<int>)
  {
    |years| == 0 || f.releaseYear in years
  }

  predicate MatchesCountry(f: Film, countries: set<string>)
  {
    |countries| == 0 || (Present(f.country) && f.country.value in countries)
  }

  predicate MatchesDirector(f: Film, directors: set<string>)
  {
    |directors| == 0 || (Present(f.directors) && f.directors.value in directors)
  }

  /** The callback passed to `filmsData.filter`. */
  predicate Matches(f: Film, sel: Selection)
  {
    && MatchesSearch(f, sel.term)
    && MatchesYear(f, sel.years)
    && MatchesCountry(f, sel.countries)
    && MatchesDirector(f, sel.directors)
  }

  /** `a` is `b` with some elements left out, the rest in their order. */
  predicate IsSubsequence<T(==)>(a: seq<T>, b: seq<T>)
    decreases |b|
  {
    if a == [] then true
    else if b == [] then false
    else (a[0] == b[0] && IsSubsequence(a[1..], b[1..])) || IsSubsequence(a, b[1..])
  }

  /**
   * `filmsData.filter(...)`: the films that pass, in their order in the data
   * set, each as often as it occurs there, and no other.
   */
  function FilterFilms(films: seq<Film>, sel: Selection): (r: seq<Film>)
    ensures forall f :: f in r ==> Matches(f, sel)
    ensures forall f :: multiset(r)[f] == if Matches(f, sel) then multiset(films)[f] else 0
  {
    if films == [] then []
    else
      var x := films[0];
      var rest := FilterFilms(films[1..], sel);
      var kept := if Matches(x, sel) then [x] else [];
      assert films == [x] + films[1..];
      assert multiset(films) == multiset{x} + multiset(films[1..]);
      assert multiset(kept + rest) == multiset(kept) + multiset(rest);
      kept + rest
  }

  /** The filter keeps the data set's order: its result is a subsequence of it. */
  lemma {:induction false} FilterIsSubsequence(films: seq<Film>, sel: Selection)
    ensures IsSubsequence(FilterFilms(films, sel), films)
  {
    if films != [] {
      var rest := FilterFilms(films[1..], sel);
      FilterIsSubsequence(films[1..], sel);
      if Matches(films[0], sel) {
        var r := [films[0]] + rest;
        assert r == FilterFilms(films, sel);
        assert r[0] == films[0] && r[1..] == rest;
      } else {
        assert rest == FilterFilms(films, sel);
      }
    }
  }

  /** Keeping a subsequence never adds an element or an occurrence. */
  lemma {:induction false} SubsequenceMultiset<T>(a: seq<T>, b: seq<T>)
    requires IsSubsequence(a, b)
    ensures multiset(a) <= multiset(b)
    decreases |b|
  {
    if a != [] {
      assert b == [b[0]] + b[1..];
      if a[0] == b[0] && IsSubsequence(a[1..], b[1..]) {
        SubsequenceMultiset(a[1..], b[1..]);
        assert a == [a[0]] + a[1..];
      } else {
        SubsequenceMultiset(a, b[1..]);
      }
    }
  }

  /**
   * The per-film rules, stated without the helper predicates: the search is
   * a substring test on the lower-cased title or directors, and each set
   * restricts only when it is non-empty, a missing field failing it.
   */
  lemma MatchesIff(f: Film, sel: Selection)
    ensures Matches(f, sel) <==>
      && (Text.Includes(Text.Lower(f.title), sel.term)
         || (Present(f.directors) && Text.Includes(Text.Lower(f.directors.value), sel.term)))
      && (sel.years == {} || f.releaseYear in sel.years)
      && (sel.countries == {} || (f.country.Some? && f.country.value != "" && f.country.value in sel.countries))
      && (sel.directors == {} || (f.directors.Some? && f.directors.value != "" && f.directors.value in sel.directors))
  {
    assert |sel.years| == 0 <==> sel.years == {};
    assert |sel.countries| == 0 <==> sel.countries == {};
    assert |sel.directors| == 0 <==> sel.directors == {};
  }

  /**
   * The search ignores case: the lower-cased search text passes exactly
   * when the query, capitals ignored, occurs in the title or in the
   * directors when they are present.
   */
  lemma SearchIgnoresCase(f: Film, query: string)
    ensures MatchesSearch(f, Text.Lower(query)) <==>
      || Text.IncludesIgnoringCase(f.title, query)
      || (Present(f.directors) && Text.IncludesIgnoringCase(f.directors.value, query))
  {
    Text.ContainsLowerIff(f.title, query);
    if Present(f.directors) {
      Text.ContainsLowerIff(f.directors.value, query);
    }
  }

  /** The empty search text matches every film. */
  lemma EmptyTermMatches(f: Film)
    ensures MatchesSearch(f, Text.Lower(""))
  {
    Text.ContainsEmpty(Text.Lower(f.title));
  }

  /** With an empty search and no active option, every film passes, in order. */
  lemma {:induction false} NoSelectionKeepsAll(films: seq<Film>)
    ensures FilterFilms(films, Selection(Text.Lower(""), {}, {}, {})) == films
  {
    if films != [] {
      EmptyTermMatches(films[0]);
      NoSelectionKeepsAll(films[1..]);
    }
  }

  /** Filtering what the filter already kept changes nothing. */
  lemma {:induction false} FilterIdempotent(films: seq<Film>, sel: Selection)
    ensures FilterFilms(FilterFilms(films, sel), sel) == FilterFilms(films, sel)
  {
    if films != [] {
      var rest := FilterFilms(films[1..], sel);
      FilterIdempotent(films[1..], sel);
      if Matches(films[0], sel) {
        var r := [films[0]] + rest;
        assert r[0] == films[0] && r[1..] == rest;
        calc {
          FilterFilms(FilterFilms(films, sel), sel);
          FilterFilms(r, sel);
          [films[0]] + FilterFilms(rest, sel);
          r;
        }
      } else {
        assert FilterFilms(films, sel) == rest;
      }
    }
  }
}
