/**
  The orchestration in dashboard.py: after the table is loaded, an empty
  table draws nothing; otherwise the sidebar's three selections narrow the
  table in three stages (release-year range, then content type unless it is
  "All", then country unless none is selected) and the main page is drawn
  from what is left.
 */
module Dashboard {

  import opened Wrappers
  import opened Seqs
  import opened Text
  import opened Data
  import opened Counting
  import opened Ui

  /** Both ends of the slider range are inclusive. */
  predicate InYearRange(t: Title, sel: Selection)
  {
    sel.yearLo <= t.releaseYear <= sel.yearHi
  }

  /** `filtered_df["type"] == content_type`, unless the type is "All"; a missing type equals nothing. */
  predicate TypeMatches(t: Title, contentType: string)
  {
    contentType == AllTypes || t.kind == Some(contentType)
  }

  /** `any(c in x for c in selected_countries)`: some selected name is a substring of the cell. */
  function AnyIn(countries: seq<string>, country: string): (b: bool)
    ensures b <==> exists i :: 0 <= i < |countries| && Contains(country, countries[i])
    decreases |countries|
  {
    if countries == [] then false
    else if Contains(country, countries[0]) then true
    else
      var b := AnyIn(countries[1..], country);
      assert b ==> exists i :: 0 <= i < |countries| && Contains(country, countries[i]) by {
        if b {
          var i :| 0 <= i < |countries[1..]| && Contains(country, countries[1..][i]);
          assert Contains(country, countries[i + 1]);
        }
      }
      b
  }

  /** An empty country selection switches the country filter off. */
  predicate CountryMatches(t: Title, countries: seq<string>)
  {
    countries == [] || AnyIn(countries, t.country)
  }

  /** A row survives the three stages. */
  predicate Kept(sel: Selection, t: Title)
  {
    InYearRange(t, sel) && TypeMatches(t, sel.contentType) && CountryMatches(t, sel.countries)
  }

  function Keeper(sel: Selection): Title -> bool
  {
    (t: Title) => Kept(sel, t)
  }

  function YearStage(sel: Selection): Title -> bool
  {
    (t: Title) => InYearRange(t, sel)
  }

  function YearTypeStage(sel: Selection): Title -> bool
  {
    (t: Title) => InYearRange(t, sel) && TypeMatches(t, sel.contentType)
  }

  function CountryStage(countries: seq<string>): Title -> bool
  {
    (t: Title) => AnyIn(countries, t.country)
  }

  /**
    The three successive boolean-mask selections of dashboard.py, each one
    skipped when its widget is at its "no restriction" value. Together they
    are one stable filter by `Kept`.
   */
  function ApplyFilters(df: seq<Title>, sel: Selection): (r: seq<Title>)
    ensures r == Filter(df, Keeper(sel))
  {
    var byYear := Filter(df, YearStage(sel));
    var byType := if sel.contentType != AllTypes then Filter(byYear, IsKind(sel.contentType)) else byYear;
    YearTypeStaged(df, sel);
    var byCountry := if sel.countries != [] then Filter(byType, CountryStage(sel.countries)) else byType;
    CountryStaged(df, sel, byType);
    byCountry
  }

  lemma YearTypeStaged(df: seq<Title>, sel: Selection)
    ensures (if sel.contentType != AllTypes
             then Filter(Filter(df, YearStage(sel)), IsKind(sel.contentType))
             else Filter(df, YearStage(sel))) == Filter(df, YearTypeStage(sel))
  {
    if sel.contentType != AllTypes {
      FilterFilter(df, YearStage(sel), IsKind(sel.contentType), YearTypeStage(sel));
    } else {
      FilterAgree(df, YearStage(sel), YearTypeStage(sel));
    }
  }

  lemma CountryStaged(df: seq<Title>, sel: Selection, byType: seq<Title>)
    requires byType == Filter(df, YearTypeStage(sel))
    ensures (if sel.countries != [] then Filter(byType, CountryStage(sel.countries)) else byType)
            == Filter(df, Keeper(sel))
  {
    if sel.countries != [] {
      FilterFilter(df, YearTypeStage(sel), CountryStage(sel.countries), Keeper(sel));
    } else {
      FilterAgree(df, YearTypeStage(sel), Keeper(sel));
    }
  }

  /** A row is shown exactly when it is in the table and passes all three selections. */
  lemma FilteredRows(df: seq<Title>, sel: Selection, t: Title)
    ensures t in ApplyFilters(df, sel) <==>
      && t in df
      && sel.yearLo <= t.releaseYear <= sel.yearHi
      && (sel.contentType == AllTypes || t.kind == Some(sel.contentType))
      && (sel.countries == [] || exists i :: 0 <= i < |sel.countries| && Contains(t.country, sel.countries[i]))
  {
    FilterMembership(df, Keeper(sel), t);
  }

  /** The shown rows keep their order in the loaded table. */
  lemma FilterKeepsOrder(df: seq<Title>, sel: Selection)
    ensures SubseqOf(ApplyFilters(df, sel), df)
  {
    FilterIsSubsequence(df, Keeper(sel));
  }

  /** Applying the same selections to an already filtered table changes nothing. */
  lemma FilterIdempotentOnSelection(df: seq<Title>, sel: Selection)
    ensures ApplyFilters(ApplyFilters(df, sel), sel) == ApplyFilters(df, sel)
  {
    FilterIdempotent(df, Keeper(sel));
  }

  /** `sel2` restricts no more than `sel1`: a wider year range, "All" or the same type, no countries or more of them. */
  predicate Relaxes(sel2: Selection, sel1: Selection)
  {
    && sel2.yearLo <= sel1.yearLo
    && sel1.yearHi <= sel2.yearHi
    && (sel2.contentType == AllTypes || sel2.contentType == sel1.contentType)
    && (sel2.countries == [] || (sel1.countries != [] && forall c :: c in sel1.countries ==> c in sel2.countries))
  }

  /** Relaxing any selection only adds rows, and the rows already shown stay in the same order. */
  lemma RelaxingKeepsShownRows(df: seq<Title>, sel1: Selection, sel2: Selection)
    requires Relaxes(sel2, sel1)
    ensures SubseqOf(ApplyFilters(df, sel1), ApplyFilters(df, sel2))
  {
    forall t | t in df && Keeper(sel1)(t) ensures Keeper(sel2)(t) {
      if sel2.countries != [] {
        var i :| 0 <= i < |sel1.countries| && Contains(t.country, sel1.countries[i]);
        var c := sel1.countries[i];
        assert c in sel2.countries;
        var j :| 0 <= j < |sel2.countries| && sel2.countries[j] == c;
        assert AnyIn(sel2.countries, t.country);
      }
    }
    FilterMonotone(df, Keeper(sel1), Keeper(sel2));
  }

  /** The full year span, every type and no country leaves the loaded table as it is. */
  lemma UnrestrictedSelectionKeepsAll(df: seq<Title>)
    requires df != []
    ensures ApplyFilters(df, Selection(AllTypes, [], CreateSidebar(df).minYear, CreateSidebar(df).maxYear)) == df
  {
    var sb := CreateSidebar(df);
    var sel := Selection(AllTypes, [], sb.minYear, sb.maxYear);
    forall t | t in df ensures Keeper(sel)(t) {
      assert sb.minYear <= t.releaseYear <= sb.maxYear;
      assert Kept(sel, t);
    }
    FilterKeepsAll(df, Keeper(sel));
  }

  /** Country matching is by substring: selecting "Niger" also shows titles from "Nigeria". */
  lemma NigerSelectsNigeria(t: Title)
    requires t.country == "Nigeria"
    ensures CountryMatches(t, ["Niger"])
  {
    assert "Nigeria"[..|"Niger"|] == "Niger";
  }

  /** A title produced in several countries is shown when any one of them is selected. */
  lemma SecondListedCountryMatches(t: Title)
    requires t.country == "United States, India"
    ensures CountryMatches(t, ["India"])
  {
    assert OccursAt("India", t.country, 15);
    ContainsIff(t.country, "India");
  }

  /**
    `main()` once the table is loaded. The sidebar's widgets are user input:
    `pick` stands for whatever the user selects among the options offered.
    An empty table draws nothing (the loading step has already shown its
    error); otherwise the main page is drawn from the filtered rows, also
    when none is left. This is the intended behaviour; the code as written
    raises in one such case, modelled by `RunDashboardAsWritten` below.
   */
  function RunDashboard(df: seq<Title>, pick: Sidebar -> Selection, reg: Registry): (page: Option<Page>)
    ensures page.None? <==> df == []
    ensures page.Some? ==> page.value.metrics.total <= |df|
    ensures page.Some? ==> page.value.metrics.total == |ApplyFilters(df, pick(CreateSidebar(df)))|
  {
    if df == [] then None
    else
      var sel := pick(CreateSidebar(df));
      Some(CreateMainPage(ApplyFilters(df, sel), sel.contentType, reg))
  }

  /**
    With the table loaded and the filters leaving nothing, the page is drawn
    with zero metrics, no map, no slices, no bars and the no-data warning.
   */
  lemma EmptySelectionDrawsEmptyPage(df: seq<Title>, pick: Sidebar -> Selection, reg: Registry)
    requires df != [] && ApplyFilters(df, pick(CreateSidebar(df))) == []
    ensures RunDashboard(df, pick, reg).Some?
    ensures RunDashboard(df, pick, reg).value.metrics == Metrics(0, 0, 0)
    ensures RunDashboard(df, pick, reg).value.worldMap == []
    ensures RunDashboard(df, pick, reg).value.typeCounts == []
    ensures RunDashboard(df, pick, reg).value.topCountries == []
    ensures RunDashboard(df, pick, reg).value.topGenres == []
    ensures RunDashboard(df, pick, reg).value.cloud == NoDataWarning
  {
    var empty: seq<Title> := [];
    assert KindCells(empty) == [];
    assert CountryCells(empty) == [] && GenreCells(empty) == [];
    assert CountryTokens(empty) == [] && GenreTokens(empty) == [];
  }

  // ---------------------------------------------------------------------------
  // The country stage on an empty frame, as written
  // ---------------------------------------------------------------------------

  /**
    What a boolean-mask selection hands on: a frame of rows, or a frame that
    has lost its columns. On an empty frame `Series.apply` returns an empty
    Series of object dtype, and pandas does not read an empty object Series
    as a boolean mask but as a list of column labels, so `df[...]` selects
    no columns at all.
   */
  datatype Frame = Rows(rows: seq<Title>) | ColumnlessFrame

  /** The three stages as dashboard.py runs them, including the column loss above. */
  function ApplyFiltersAsWritten(df: seq<Title>, sel: Selection): (f: Frame)
    ensures f.ColumnlessFrame? <==> sel.countries != [] && Filter(df, YearTypeStage(sel)) == []
    ensures f.Rows? ==> f.rows == ApplyFilters(df, sel)
  {
    var byYear := Filter(df, YearStage(sel));
    var byType := if sel.contentType != AllTypes then Filter(byYear, IsKind(sel.contentType)) else byYear;
    YearTypeStaged(df, sel);
    CountryStaged(df, sel, byType);
    if sel.countries == [] then Rows(byType)
    else if byType == [] then ColumnlessFrame
    else Rows(Filter(byType, CountryStage(sel.countries)))
  }

  /** What the user sees: nothing, a page, or a KeyError raised after "Total Titles" is drawn. */
  datatype Outcome = NothingDrawn | PageDrawn(page: Page) | KeyErrorAfterTotal(total: nat)

  /**
    `main()` as written: on a columnless frame `create_main_page` draws the
    total (zero rows), then `filtered_df['type']` raises KeyError.
   */
  function RunDashboardAsWritten(df: seq<Title>, pick: Sidebar -> Selection, reg: Registry): (o: Outcome)
    ensures o.NothingDrawn? <==> df == []
    ensures df != [] ==>
      (o.KeyErrorAfterTotal? <==> pick(CreateSidebar(df)).countries != [] && Filter(df, YearTypeStage(pick(CreateSidebar(df)))) == [])
    ensures o.KeyErrorAfterTotal? ==> o.total == 0 && ApplyFilters(df, pick(CreateSidebar(df))) == []
    ensures o.PageDrawn? ==> RunDashboard(df, pick, reg) == Some(o.page)
  {
    if df == [] then NothingDrawn
    else
      var sel := pick(CreateSidebar(df));
      match ApplyFiltersAsWritten(df, sel)
      case ColumnlessFrame =>
        FilterMonotone(df, Keeper(sel), YearTypeStage(sel));
        KeyErrorAfterTotal(0)
      case Rows(rows) => PageDrawn(CreateMainPage(rows, sel.contentType, reg))
  }

  /** A single movie from 2020, produced in the United States and India. */
  const UsIndiaMovie: Title :=
    Title(Some("A"), Some("Movie"), "United States, India", Date(2021, 1, 1), 2021, 2020, "PG",
          Some("90 min"), None, None)

  /** Asking for TV shows among the default countries. */
  function TvShowsOfDefaultCountries(sb: Sidebar): Selection
  {
    Selection("TV Show", DefaultCountries, sb.minYear, sb.maxYear)
  }

  /** The sidebar built over that one movie offers both default countries, so the default multiselect is valid. */
  lemma UsIndiaMovieOffersDefaults()
    ensures forall c :: c in DefaultCountries ==> c in CreateSidebar([UsIndiaMovie]).countryOptions
  {
    var df := [UsIndiaMovie];
    SplitUnitedStatesIndia();
    assert CountryCells(df) == [Some(UsIndiaMovie.country)];
    assert CountryTokens(df) == Split(UsIndiaMovie.country, ListSep) + Explode([]);
    assert "United States" in CountryTokens(df) && "India" in CountryTokens(df);
  }

  /**
    An ordinary selection reaches the column loss: over a table of one movie
    from the United States and India, whose sidebar offers both default
    countries (`UsIndiaMovieOffersDefaults`), asking for TV shows leaves no
    row before the country stage. The code as written raises, while the page
    the dashboard means to draw carries the no-data warning.
   */
  lemma TvShowsOverMoviesRaises(reg: Registry)
    ensures TvShowsOfDefaultCountries(CreateSidebar([UsIndiaMovie])).countries == DefaultCountries
    ensures RunDashboardAsWritten([UsIndiaMovie], TvShowsOfDefaultCountries, reg) == KeyErrorAfterTotal(0)
    ensures RunDashboard([UsIndiaMovie], TvShowsOfDefaultCountries, reg).value.cloud == NoDataWarning
  {
    var df := [UsIndiaMovie];
    var sel := TvShowsOfDefaultCountries(CreateSidebar(df));
    assert !YearTypeStage(sel)(UsIndiaMovie);
    assert Filter(df, YearTypeStage(sel)) == [];
    assert !Kept(sel, UsIndiaMovie);
    assert ApplyFilters(df, sel) == [];
    EmptySelectionDrawsEmptyPage(df, TvShowsOfDefaultCountries, reg);
  }

  /** With the widgets untouched the table is narrowed only by the two default countries. */
  lemma DefaultSelectionFiltersByCountry(df: seq<Title>)
    requires df != []
    ensures ApplyFilters(df, DefaultSelection(CreateSidebar(df))) == Filter(df, CountryStage(DefaultCountries))
  {
    var sb := CreateSidebar(df);
    var sel := DefaultSelection(sb);
    assert sel.contentType == AllTypes && sel.countries == DefaultCountries != [];
    assert sel.yearLo == sb.minYear && sel.yearHi == sb.maxYear;
    forall t | t in df ensures Keeper(sel)(t) == CountryStage(DefaultCountries)(t) {
      assert InYearRange(t, sel);
      assert Kept(sel, t) == AnyIn(DefaultCountries, t.country);
    }
    FilterAgree(df, Keeper(sel), CountryStage(DefaultCountries));
  }

  /** With the widgets untouched the page counts the titles of the default countries over all years and types. */
  lemma DefaultViewCountsDefaultCountries(df: seq<Title>, reg: Registry)
    requires df != []
    ensures RunDashboard(df, DefaultSelection, reg).value.metrics.total
            == |Filter(df, CountryStage(DefaultCountries))|
  {
    DefaultSelectionFiltersByCountry(df);
  }

}
