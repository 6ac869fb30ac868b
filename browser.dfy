/**
 * The page's session state and the operations the controls trigger:
 * `applyFilters`, `sortFilms`, `updateStats`, `toggleFilterOption` and
 * `resetFilters`. The values of the search box and of the sort selector are
 * fields; an option of the filter panel is "active" exactly when its value
 * is in its set.
 */
module Browser {
  import opened Films
  import Text
  import Numbers
  import Facets
  import Filtering
  import Sorting
  import Stats

  /** `set.add(v)` when `v` becomes active, `set.delete(v)` when it stops being active. */
  function Toggled<T(!new)>(s: set<T>, v: T): (r: set<T>)
    ensures v in r <==> v !in s
    ensures forall w :: w != v ==> (w in r <==> w in s)
  {
    if v in s then s - {v} else s + {v}
  }

  /** Toggling the same option twice restores the set. */
  lemma ToggledTwice<T(!new)>(s: set<T>, v: T)
    ensures Toggled(Toggled(s, v), v) == s
  {
  }

  /**
   * What `applyFilters` leaves behind: the films that pass `sel`, sorted
   * by the option `k` (in data-set order when `k` is not recognised), and
   * the statistics of that selection.
   */
  ghost predicate Shows(shown: seq<Film>, stats: Stats.Stats, films: seq<Film>, sel: Filtering.Selection,
                        k: Sorting.SortKey, collate: string -> int)
  {
    var selected := Filtering.FilterFilms(films, sel);
    && shown == Sorting.InsertionSorted(selected, Sorting.KeyFn(k, collate))
    && multiset(shown) == multiset(selected)
    && Sorting.InOrder(shown, k, collate)
    && (k == Sorting.Unrecognised ==> shown == selected)
    && stats == Stats.ComputeStats(selected)
  }

  /**
   * The selected films sorted by the key of `k`, with their statistics, are
   * what `applyFilters` leaves behind: they are in the order of `k`, in
   * selection order when `k` is not recognised, they come from the data
   * set, and their statistics are those of the selection.
   */
  lemma SortedSelectionShows(shown: seq<Film>, stats: Stats.Stats, films: seq<Film>, sel: Filtering.Selection,
                             k: Sorting.SortKey, collate: string -> int)
    requires shown == Sorting.InsertionSorted(Filtering.FilterFilms(films, sel), Sorting.KeyFn(k, collate))
    requires stats == Stats.ComputeStats(shown)
    ensures multiset(shown) <= multiset(films)
    ensures Shows(shown, stats, films, sel, k, collate)
  {
    var selected := Filtering.FilterFilms(films, sel);
    var key := Sorting.KeyFn(k, collate);
    Sorting.InsertionSortedPermutation(selected, key);
    Sorting.InsertionSortedSorted(selected, key);
    Sorting.SortedByKeyInOrder(shown, k, collate);
    if k == Sorting.Unrecognised {
      Sorting.InsertionSortedConstant(selected, key);
    }
    Filtering.FilterIsSubsequence(films, sel);
    Filtering.SubsequenceMultiset(selected, films);
    Stats.StatsPermutation(shown, selected);
  }

  /**
   * Every film of the data set in box-office order, with the statistics of
   * what is shown, is what `applyFilters` leaves behind when no option is
   * active and the search box is empty; the statistics are those of the
   * whole data set.
   */
  lemma AllFilmsShow(shown: seq<Film>, stats: Stats.Stats, films: seq<Film>, collate: string -> int)
    requires shown == Sorting.InsertionSorted(films, Sorting.KeyFn(Sorting.BoxOfficeDesc, collate))
    requires stats == Stats.ComputeStats(shown)
    ensures stats == Stats.ComputeStats(films)
    ensures Shows(shown, stats, films, Filtering.Selection(Text.Lower(""), {}, {}, {}), Sorting.BoxOfficeDesc, collate)
  {
    var sel := Filtering.Selection(Text.Lower(""), {}, {}, {});
    Filtering.NoSelectionKeepsAll(films);
    SortedSelectionShows(shown, stats, films, sel, Sorting.BoxOfficeDesc, collate);
  }

  class Session {
    /** The data set, loaded once and never changed. */
    const filmsData: seq<Film>
    /** The rank `localeCompare` gives each title. */
    const collate: string -> int
    /** The options of the filter panel, built once from the data set. */
    const yearOptions: seq<int>
    const countryOptions: seq<string>
    const directorOptions: seq<string>

    /** The films shown, in the order shown. */
    var filteredData: seq<Film>
    /** The active options, one set per dimension. */
    var years: set<int>
    var countries: set<string>
    var directors: set<string>
    /** `searchInput.value` and `sortSelect.value`. */
    var searchText: string
    var sortKey: string
    /** What the statistics panel shows. */
    var stats: Stats.Stats

    /**
     * What holds between the page's events: the panel's options are those
     * of the data set, the films shown come from the data set, and the
     * statistics describe them. `sortFilms` and `updateStats` run one after
     * the other inside an event, so each alone does not keep it.
     */
    ghost predicate Valid()
      reads this
    {
      && yearOptions == Facets.YearFacets(filmsData)
      && countryOptions == Facets.TextFacets(filmsData, Facets.CountryField)
      && directorOptions == Facets.TextFacets(filmsData, Facets.DirectorsField)
      && multiset(filteredData) <= multiset(filmsData)
      && stats == Stats.ComputeStats(filteredData)
    }

    /** What `applyFilters` reads: the lower-cased search text and the active options. */
    function CurrentSelection(): Filtering.Selection
      reads this`searchText, this`years, this`countries, this`directors
    {
      Filtering.Selection(Text.Lower(searchText), years, countries, directors)
    }

    /** The page shows the current selection, as `applyFilters` leaves it. */
    ghost predicate ShowsSelection()
      reads this
    {
      Shows(filteredData, stats, filmsData, CurrentSelection(), Sorting.SortKeyOf(sortKey), collate)
    }

    /**
     * The successful end of `loadFilmsData`: every film shown in data-set
     * order, no option active, the panel's options built, the statistics
     * computed. The search box and the sort selector hold whatever the page
     * starts them with.
     */
    constructor Load(films: seq<Film>, initialSearch: string, initialSortKey: string, collate: string -> int)
      ensures filmsData == films && filteredData == films
      ensures years == {} && countries == {} && directors == {}
      ensures searchText == initialSearch && sortKey == initialSortKey && this.collate == collate
      ensures yearOptions == Facets.YearFacets(films)
      ensures countryOptions == Facets.TextFacets(films, Facets.CountryField)
      ensures directorOptions == Facets.TextFacets(films, Facets.DirectorsField)
      ensures Valid()
    {
      filmsData := films;
      this.collate := collate;
      yearOptions := Facets.YearFacets(films);
      countryOptions := Facets.TextFacets(films, Facets.CountryField);
      directorOptions := Facets.TextFacets(films, Facets.DirectorsField);
      filteredData := films;
      years, countries, directors := {}, {}, {};
      searchText, sortKey := initialSearch, initialSortKey;
      stats := Stats.ComputeStats(films);
    }

    /**
     * `sortFilms`: the shown films are sorted in place by the selector's
     * option, as the stable insertion sort `InsertionSorted` orders them;
     * they stay the same films, and an unrecognised option leaves their
     * order alone.
     */
    method SortFilms()
      modifies this`filteredData
      ensures filteredData == Sorting.InsertionSorted(old(filteredData), Sorting.KeyFn(Sorting.SortKeyOf(sortKey), collate))
      ensures multiset(filteredData) == old(multiset(filteredData))
      ensures Sorting.InOrder(filteredData, Sorting.SortKeyOf(sortKey), collate)
      ensures Sorting.SortKeyOf(sortKey) == Sorting.Unrecognised ==> filteredData == old(filteredData)
    {
      var data := filteredData;
      var a := new Film[|data|](i requires 0 <= i < |data| => data[i]);
      assert a[..] == data;
      var k := Sorting.SortKeyOf(sortKey);
      var key := Sorting.KeyFn(k, collate);
      Sorting.SortByKey(a, key);
      Sorting.SortedByKeyInOrder(a[..], k, collate);
      if k == Sorting.Unrecognised {
        Sorting.InsertionSortedConstant(data, key);
      }
      filteredData := a[..];
    }

    /** `updateStats`: the panel shows the statistics of the films shown. */
    method UpdateStats()
      modifies this`stats
      ensures stats == Stats.ComputeStats(filteredData)
    {
      stats := Stats.ComputeStats(filteredData);
    }

    /** `applyFilters`: filter the data set by the selection, sort, update the statistics. */
    method ApplyFilters()
      requires Valid()
      modifies this`filteredData, this`stats
      ensures ShowsSelection() && Valid()
    {
      var sel := CurrentSelection();
      filteredData := Filtering.FilterFilms(filmsData, sel);
      SortFilms();
      UpdateStats();
      assert sel == CurrentSelection();
      SortedSelectionShows(filteredData, stats, filmsData, sel, Sorting.SortKeyOf(sortKey), collate);
    }

    /** Typing in the search box: its value changes and the filters are applied. */
    method OnSearchInput(text: string)
      requires Valid()
      modifies this`searchText, this`filteredData, this`stats
      ensures searchText == text
      ensures ShowsSelection() && Valid()
    {
      searchText := text;
      ApplyFilters();
    }

    /** Choosing a sort option: the selector's value changes and the filters are applied. */
    method OnSortChange(value: string)
      requires Valid()
      modifies this`sortKey, this`filteredData, this`stats
      ensures sortKey == value
      ensures ShowsSelection() && Valid()
    {
      sortKey := value;
      ApplyFilters();
    }

    /**
     * `toggleFilterOption`: the option's value is added to the set its type
     * names when the option becomes active and removed when it stops being
     * active; a year's value goes through `parseInt`; a type other than
     * "year" and "country" names the directors' set. The other sets stay
     * as they were, and the filters are applied.
     */
    method ToggleFilterOption(kind: string, value: string)
      requires kind == "year" ==> Numbers.ParseInt(value).Some?
      requires Valid()
      modifies this`years, this`countries, this`directors, this`filteredData, this`stats
      ensures kind == "year" ==>
        && years == Toggled(old(years), Numbers.ParseInt(value).value)
        && countries == old(countries) && directors == old(directors)
      ensures kind == "country" ==>
        && countries == Toggled(old(countries), value)
        && years == old(years) && directors == old(directors)
      ensures kind != "year" && kind != "country" ==>
        && directors == Toggled(old(directors), value)
        && years == old(years) && countries == old(countries)
      ensures ShowsSelection() && Valid()
    {
      if kind == "year" {
        years := Toggled(years, Numbers.ParseInt(value).value);
      } else if kind == "country" {
        countries := Toggled(countries, value);
      } else {
        directors := Toggled(directors, value);
      }
      ApplyFilters();
    }

    /**
     * Clicking the same option twice gives back the same sets, and the same
     * films shown with the same statistics when the page was showing the
     * selection before.
     */
    method ToggleTwice(kind: string, value: string)
      requires kind == "year" ==> Numbers.ParseInt(value).Some?
      requires Valid()
      modifies this`years, this`countries, this`directors, this`filteredData, this`stats
      ensures years == old(years) && countries == old(countries) && directors == old(directors)
      ensures ShowsSelection() && Valid()
      ensures old(ShowsSelection()) ==> filteredData == old(filteredData) && stats == old(stats)
    {
      ToggleFilterOption(kind, value);
      ToggleFilterOption(kind, value);
      if kind == "year" {
        ToggledTwice(old(years), Numbers.ParseInt(value).value);
      } else if kind == "country" {
        ToggledTwice(old(countries), value);
      } else {
        ToggledTwice(old(directors), value);
      }
      assert CurrentSelection() == old(CurrentSelection());
    }

    /**
     * `resetFilters`: no option active, an empty search box, the sort back
     * to 'boxOffice'; every film of the data set shown, highest box office
     * first; the statistics of the whole data set.
     */
    method ResetFilters()
      requires Valid()
      modifies this`years, this`countries, this`directors, this`searchText, this`sortKey
      modifies this`filteredData, this`stats
      ensures years == {} && countries == {} && directors == {}
      ensures searchText == "" && sortKey == "boxOffice"
      ensures filteredData == Sorting.InsertionSorted(filmsData, Sorting.KeyFn(Sorting.BoxOfficeDesc, collate))
      ensures multiset(filteredData) == multiset(filmsData)
      ensures forall i, j :: 0 <= i < j < |filteredData| ==>
        BoxOffice(filteredData[i]) >= BoxOffice(filteredData[j])
      ensures stats == Stats.ComputeStats(filmsData)
      ensures ShowsSelection() && Valid()
    {
      years, countries, directors := {}, {}, {};
      searchText := "";
      sortKey := "boxOffice";
      filteredData := filmsData;
      SortFilms();
      UpdateStats();
      assert Sorting.SortKeyOf(sortKey) == Sorting.BoxOfficeDesc;
      assert CurrentSelection() == Filtering.Selection(Text.Lower(""), {}, {}, {});
      AllFilmsShow(filteredData, stats, filmsData, collate);
    }
  }
}
