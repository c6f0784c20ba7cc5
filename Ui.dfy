/**
  The record-processing logic inside ui.py: the country-code resolver, the
  sidebar's option list and default year range, the split-explode-count
  aggregations behind the charts, the map data, the duration extraction,
  the description corpus, and the key metrics. Every widget, chart and
  layout call around them is presentation and is not modelled.
 */
module Ui {

  import opened Wrappers
  import opened Seqs
  import opened Text
  import opened Counting
  import opened Data

  // ---------------------------------------------------------------------------
  // get_iso_alpha (lines 9-27)
  // ---------------------------------------------------------------------------

  /**
    The two pycountry lookups the resolver uses. `byName(n)` is the alpha-3
    code of `pycountry.countries.get(name=n)`, or None when that returns
    None (reading `.alpha_3` of None raises the AttributeError the resolver
    catches). `searchFuzzy(n)` lists the alpha-3 codes of
    `search_fuzzy(n)`, best match first; the empty list stands for the
    LookupError it raises when nothing matches.
   */
  datatype Registry = Registry(byName: string -> Option<string>, searchFuzzy: string -> seq<string>)

  /** Names the registry does not resolve the way the dashboard wants. */
  const Overrides: map<string, string> := map[
    "United States" := "USA",
    "United Kingdom" := "GBR",
    "South Korea" := "KOR",
    "West Germany" := "DEU",
    "Soviet Union" := "RUS",
    "Czech Republic" := "CZE"
  ]

  /** ISO 3166-1 alpha-3 code of a country name: override table, exact lookup, fuzzy lookup, else nothing. */
  function GetIsoAlpha(name: string, reg: Registry): (code: Option<string>)
    ensures code.None? <==> name !in Overrides && reg.byName(name).None? && reg.searchFuzzy(name) == []
    ensures code.Some? ==>
      || (name in Overrides && code.value == Overrides[name])
      || (name !in Overrides && reg.byName(name) == code)
      || (name !in Overrides && reg.byName(name).None? && code.value == reg.searchFuzzy(name)[0])
  {
    if name in Overrides then Some(Overrides[name])
    else if reg.byName(name).Some? then reg.byName(name)
    else if reg.searchFuzzy(name) != [] then Some(reg.searchFuzzy(name)[0])
    else None
  }

  /** An override name never reaches the registry: any two registries give the same code. */
  lemma OverridesIgnoreRegistry(name: string, reg1: Registry, reg2: Registry)
    requires name in Overrides
    ensures GetIsoAlpha(name, reg1) == GetIsoAlpha(name, reg2) == Some(Overrides[name])
  {
  }

  /** The fuzzy search is consulted only after the exact lookup has missed. */
  lemma ExactLookupBeatsFuzzy(name: string, reg1: Registry, reg2: Registry)
    requires name !in Overrides
    requires reg1.byName(name) == reg2.byName(name) && reg1.byName(name).Some?
    ensures GetIsoAlpha(name, reg1) == GetIsoAlpha(name, reg2) == reg1.byName(name)
  {
  }

  /** The examples the dashboard depends on. */
  lemma ResolverExamples(reg: Registry)
    ensures GetIsoAlpha("United States", reg) == Some("USA")
    ensures GetIsoAlpha("Soviet Union", reg) == Some("RUS")
    ensures GetIsoAlpha("West Germany", reg) == Some("DEU")
    ensures reg.byName("Wakanda").None? && reg.searchFuzzy("Wakanda") == [] ==> GetIsoAlpha("Wakanda", reg).None?
  {
    assert "Wakanda" !in Overrides;
  }

  // ---------------------------------------------------------------------------
  // str.split(", ").explode() over a column
  // ---------------------------------------------------------------------------

  /** The separator of the multi-valued `country` and `listed_in` columns. */
  const ListSep: string := ", "

  /**
    `column.str.split(", ").explode()` without the missing cells, which
    `value_counts` and `unique` would drop or keep as NaN.
   */
  function Explode(cells: seq<Option<string>>): (tokens: seq<string>)
    ensures forall x :: x in tokens ==> exists c :: c in cells && c.Some? && x in Split(c.value, ListSep)
    ensures forall c, x :: c in cells && c.Some? && x in Split(c.value, ListSep) ==> x in tokens
    decreases |cells|
  {
    if cells == [] then []
    else (if cells[0].Some? then Split(cells[0].value, ListSep) else []) + Explode(cells[1..])
  }

  /** Every token of every present cell appears once in the explosion, cell by cell. */
  lemma {:induction false} ExplodeAppend(a: seq<Option<string>>, b: seq<Option<string>>)
    ensures Explode(a + b) == Explode(a) + Explode(b)
    decreases |a|
  {
    if a != [] {
      assert (a + b)[0] == a[0];
      assert (a + b)[1..] == a[1..] + b;
      ExplodeAppend(a[1..], b);
    } else {
      assert a + b == b;
    }
  }

  /** Total number of tokens the present cells split into. */
  function TokenTotal(cells: seq<Option<string>>): nat
    decreases |cells|
  {
    if cells == [] then 0
    else (if cells[0].Some? then |Split(cells[0].value, ListSep)| else 0) + TokenTotal(cells[1..])
  }

  lemma {:induction false} ExplodeLength(cells: seq<Option<string>>)
    ensures |Explode(cells)| == TokenTotal(cells)
    decreases |cells|
  {
    if cells != [] {
      ExplodeLength(cells[1..]);
    }
  }

  function CountryCells(df: seq<Title>): (cells: seq<Option<string>>)
    ensures |cells| == |df|
    ensures forall i :: 0 <= i < |df| ==> cells[i] == Some(df[i].country)
    decreases |df|
  {
    if df == [] then [] else [Some(df[0].country)] + CountryCells(df[1..])
  }

  function GenreCells(df: seq<Title>): (cells: seq<Option<string>>)
    ensures |cells| == |df|
    ensures forall i :: 0 <= i < |df| ==> cells[i] == df[i].listedIn
    decreases |df|
  {
    if df == [] then [] else [df[0].listedIn] + GenreCells(df[1..])
  }

  function CountryTokens(df: seq<Title>): seq<string>
  {
    Explode(CountryCells(df))
  }

  lemma CountryCellsAppend(df: seq<Title>, t: Title)
    ensures CountryCells(df + [t]) == CountryCells(df) + [Some(t.country)]
  {
  }

  /** Adding one title adds exactly one count for each country it lists. */
  lemma CountryTokensOfAppended(df: seq<Title>, t: Title)
    ensures multiset(CountryTokens(df + [t])) == multiset(CountryTokens(df)) + multiset(Split(t.country, ListSep))
  {
    CountryCellsAppend(df, t);
    ExplodeAppend(CountryCells(df), [Some(t.country)]);
    assert Explode([Some(t.country)]) == Split(t.country, ListSep) + Explode([]);
  }

  /** `"United States, India".split(", ")` is the two names. */
  lemma SplitUnitedStatesIndia()
    ensures Split("United States, India", ListSep) == ["United States", "India"]
  {
    var us, india := "United States", "India";
    assert forall k :: 0 <= k < |us| ==> us[k] != ',';
    assert forall k :: 0 <= k < |india| ==> india[k] != ',';
    SplitTwo(us, india, ListSep);
    assert us + ListSep + india == "United States, India";
  }

  /** A title listing "United States, India" adds one to each of the two countries and nothing else. */
  lemma UnitedStatesIndiaCountsEachOnce(df: seq<Title>, t: Title)
    requires t.country == "United States, India"
    ensures multiset(CountryTokens(df + [t])) == multiset(CountryTokens(df)) + multiset{"United States", "India"}
  {
    CountryTokensOfAppended(df, t);
    SplitUnitedStatesIndia();
  }

  // ---------------------------------------------------------------------------
  // create_sidebar (lines 30-49)
  // ---------------------------------------------------------------------------

  /** The first content-type option, which switches the type filter off. */
  const AllTypes: string := "All"

  const ContentTypeOptions: seq<string> := [AllTypes, "Movie", "TV Show"]
  const DefaultCountries: seq<string> := ["United States", "India"]

  /** What the three filter widgets return: content type, selected countries, release-year range. */
  datatype Selection = Selection(contentType: string, countries: seq<string>, yearLo: int, yearHi: int)

  /** The options and bounds the sidebar offers. */
  datatype Sidebar = Sidebar(typeOptions: seq<string>, countryOptions: seq<string>, minYear: int, maxYear: int)

  function ReleaseYears(df: seq<Title>): (ys: seq<int>)
    ensures |ys| == |df|
    ensures forall i :: 0 <= i < |df| ==> ys[i] == df[i].releaseYear
    decreases |df|
  {
    if df == [] then [] else [df[0].releaseYear] + ReleaseYears(df[1..])
  }

  function MinOf(xs: seq<int>): (m: int)
    requires xs != []
    ensures m in xs && forall x :: x in xs ==> m <= x
    decreases |xs|
  {
    if |xs| == 1 then xs[0]
    else
      var m := MinOf(xs[1..]);
      assert xs == [xs[0]] + xs[1..];
      if xs[0] <= m then xs[0] else m
  }

  function MaxOf(xs: seq<int>): (m: int)
    requires xs != []
    ensures m in xs && forall x :: x in xs ==> x <= m
    decreases |xs|
  {
    if |xs| == 1 then xs[0]
    else
      var m := MaxOf(xs[1..]);
      assert xs == [xs[0]] + xs[1..];
      if xs[0] >= m then xs[0] else m
  }

  /**
    `create_sidebar`: the country options are the sorted distinct tokens of
    the country column, and the year slider spans the observed release years.
    The dashboard only builds the sidebar for a non-empty table.
   */
  function CreateSidebar(df: seq<Title>): (sb: Sidebar)
    requires df != []
    ensures sb.typeOptions == ContentTypeOptions
    ensures StrictlyAscending(sb.countryOptions)
    ensures forall c :: c in sb.countryOptions <==> c in CountryTokens(df)
    ensures sb.minYear in ReleaseYears(df) && sb.maxYear in ReleaseYears(df)
    ensures forall t :: t in df ==> sb.minYear <= t.releaseYear <= sb.maxYear
  {
    var years := ReleaseYears(df);
    var sb := Sidebar(ContentTypeOptions, SortedUnique(CountryTokens(df)), MinOf(years), MaxOf(years));
    assert forall t :: t in df ==> t.releaseYear in years by {
      forall t | t in df ensures t.releaseYear in years {
        var i :| 0 <= i < |df| && df[i] == t;
        assert years[i] == t.releaseYear;
      }
    }
    sb
  }

  /** The widget values before the user touches them: "All", the two default countries, the full year span. */
  function DefaultSelection(sb: Sidebar): (sel: Selection)
    ensures sel.contentType == ContentTypeOptions[0] == AllTypes
    ensures sel.countries == DefaultCountries
    ensures sel.yearLo == sb.minYear && sel.yearHi == sb.maxYear
  {
    Selection(AllTypes, DefaultCountries, sb.minYear, sb.maxYear)
  }

  // ---------------------------------------------------------------------------
  // value_counts over the exploded columns (lines 61-62, 99-100, 206-207)
  // ---------------------------------------------------------------------------

  /** `filtered_df["country"].str.split(", ").explode().value_counts()`. */
  function CountryCounts(df: seq<Title>): (r: seq<Entry<string>>)
    ensures DistinctKeys(r) && SortedByCountDesc(r)
    ensures forall e :: e in r ==> e.count == multiset(CountryTokens(df))[e.key] && e.count > 0
    ensures forall c :: c in CountryTokens(df) <==> c in KeysOf(r)
    ensures SumCounts(r) == TokenTotal(CountryCells(df))
  {
    var tokens := CountryTokens(df);
    ExplodeLength(CountryCells(df));
    var r := ValueCounts(tokens);
    assert forall e :: e in r ==> e.key in KeysOf(r);
    r
  }

  /** Number of countries in the "Top Content-Producing Countries" chart. */
  const TopCountryCount: nat := 10

  /** Number of genres in the "Top Content Genres" chart. */
  const TopGenreCount: nat := 15

  /** `...value_counts().nlargest(10)` over the countries. */
  function TopCountries(df: seq<Title>): (r: seq<Entry<string>>)
    ensures |r| == Min(TopCountryCount, |CountryCounts(df)|)
    ensures multiset(r) <= multiset(CountryCounts(df))
    ensures forall e :: e in r ==> e.count == multiset(CountryTokens(df))[e.key] && e.count > 0
    ensures forall a, b :: a in r && b in multiset(CountryCounts(df)) - multiset(r) ==> a.count >= b.count
  {
    var counts := CountryCounts(df);
    var r := NLargest(counts, TopCountryCount);
    assert forall e :: e in r ==> e in counts by {
      forall e | e in r ensures e in counts { assert e in multiset(r); }
    }
    r
  }

  function GenreTokens(df: seq<Title>): seq<string>
  {
    Explode(GenreCells(df))
  }

  /** `filtered_df["listed_in"].str.split(", ").explode().value_counts().nlargest(15)`. */
  function TopGenres(df: seq<Title>): (r: seq<Entry<string>>)
    ensures |r| == Min(TopGenreCount, |ValueCounts(GenreTokens(df))|)
    ensures multiset(r) <= multiset(ValueCounts(GenreTokens(df)))
    ensures forall e :: e in r ==> e.count == multiset(GenreTokens(df))[e.key] && e.count > 0
    ensures forall a, b :: a in r && b in multiset(ValueCounts(GenreTokens(df))) - multiset(r) ==> a.count >= b.count
  {
    var tokens := GenreTokens(df);
    var r := NLargest(ValueCounts(tokens), TopGenreCount);
    TopEntriesCounted(tokens, TopGenreCount);
    r
  }

  /** Every entry `nlargest` keeps from a `value_counts` table is a value that occurs, with its true count. */
  lemma TopEntriesCounted<K>(xs: seq<K>, k: nat)
    ensures forall e :: e in NLargest(ValueCounts(xs), k) ==> e.count == multiset(xs)[e.key] && e.count > 0
  {
    var counts := ValueCounts(xs);
    var r := NLargest(counts, k);
    forall e | e in r ensures e.count == multiset(xs)[e.key] && e.count > 0 {
      assert e in multiset(r);
      assert e in counts;
      assert e.key in KeysOf(counts);
    }
  }

  // ---------------------------------------------------------------------------
  // create_world_map (lines 61-66)
  // ---------------------------------------------------------------------------

  /** One location of the choropleth: a country, its title count, its code. */
  datatype MapRow = MapRow(country: string, count: nat, isoAlpha: string)

  /** Attach codes with `get_iso_alpha` and drop the countries without one (`dropna(subset=["iso_alpha"])`). */
  function MapRows(counts: seq<Entry<string>>, reg: Registry): (rows: seq<MapRow>)
    ensures forall m :: m in rows ==> Entry(m.country, m.count) in counts && GetIsoAlpha(m.country, reg) == Some(m.isoAlpha)
    ensures forall e :: e in counts && GetIsoAlpha(e.key, reg).Some? ==>
      MapRow(e.key, e.count, GetIsoAlpha(e.key, reg).value) in rows
    decreases |counts|
  {
    if counts == [] then []
    else
      var e := counts[0];
      var rest := MapRows(counts[1..], reg);
      assert counts == [e] + counts[1..];
      match GetIsoAlpha(e.key, reg)
      case Some(code) => [MapRow(e.key, e.count, code)] + rest
      case None => rest
  }

  /** `dropna` keeps one map row for every count entry that has a code, and no more. */
  lemma {:induction false} MapRowsLength(counts: seq<Entry<string>>, reg: Registry)
    ensures |MapRows(counts, reg)| == |Filter(counts, Resolves(reg))|
    decreases |counts|
  {
    if counts != [] {
      MapRowsLength(counts[1..], reg);
    }
  }

  /** No country is placed twice. */
  ghost predicate DistinctCountries(rows: seq<MapRow>)
  {
    forall i, j :: 0 <= i < j < |rows| ==> rows[i].country != rows[j].country
  }

  lemma DistinctCountriesCons(m: MapRow, rest: seq<MapRow>)
    requires DistinctCountries(rest)
    requires forall r :: r in rest ==> r.country != m.country
    ensures DistinctCountries([m] + rest)
  {
    var rows := [m] + rest;
    forall i, j | 0 <= i < j < |rows| ensures rows[i].country != rows[j].country {
      assert rows[j] == rest[j - 1];
      if i > 0 {
        assert rows[i] == rest[i - 1];
      }
    }
  }

  /** A table of distinct countries gives a map that places each country once. */
  lemma {:induction false} MapRowsDistinct(counts: seq<Entry<string>>, reg: Registry)
    requires DistinctKeys(counts)
    ensures DistinctCountries(MapRows(counts, reg))
    decreases |counts|
  {
    if counts != [] {
      var e := counts[0];
      DistinctCons(counts);
      MapRowsDistinct(counts[1..], reg);
      var rest := MapRows(counts[1..], reg);
      forall m | m in rest ensures m.country != e.key {
        assert Entry(m.country, m.count) in counts[1..];
      }
      if GetIsoAlpha(e.key, reg).Some? {
        DistinctCountriesCons(MapRow(e.key, e.count, GetIsoAlpha(e.key, reg).value), rest);
      }
    }
  }

  /** `get_iso_alpha` finds a code for the entry's country. */
  function Resolves(reg: Registry): Entry<string> -> bool
  {
    (e: Entry<string>) => GetIsoAlpha(e.key, reg).Some?
  }

  /**
    The data behind the world map: every country of the column that the
    resolver can place, once, with its title count and code.
   */
  function WorldMapData(df: seq<Title>, reg: Registry): (rows: seq<MapRow>)
    ensures forall m :: m in rows ==>
      m.count == multiset(CountryTokens(df))[m.country] && GetIsoAlpha(m.country, reg) == Some(m.isoAlpha)
    ensures forall c :: c in CountryTokens(df) && GetIsoAlpha(c, reg).Some? ==>
      exists m :: m in rows && m.country == c
    ensures DistinctCountries(rows)
  {
    var counts := CountryCounts(df);
    var rows := MapRows(counts, reg);
    MapRowsDistinct(counts, reg);
    assert forall c :: c in CountryTokens(df) && GetIsoAlpha(c, reg).Some? ==>
      exists m :: m in rows && m.country == c by {
      forall c | c in CountryTokens(df) && GetIsoAlpha(c, reg).Some? ensures exists m :: m in rows && m.country == c {
        assert c in KeysOf(counts);
        var e :| e in counts && e.key == c;
        assert MapRow(e.key, e.count, GetIsoAlpha(e.key, reg).value) in rows;
      }
    }
    rows
  }

  /** A country the resolver cannot place is missing from the map but still counted. */
  lemma UnresolvedCountryStillCounted(df: seq<Title>, reg: Registry, c: string)
    requires c in CountryTokens(df) && GetIsoAlpha(c, reg).None?
    ensures c in KeysOf(CountryCounts(df))
    ensures forall m :: m in WorldMapData(df, reg) ==> m.country != c
  {
  }

  // ---------------------------------------------------------------------------
  // create_duration_histogram (lines 113-152)
  // ---------------------------------------------------------------------------

  /** `.str.extract(r"(\d+)").astype(float)` of one cell: the first run of digits, read as a number. */
  function ExtractNumber(cell: Option<string>): (n: Option<nat>)
    ensures n.None? <==> cell.None? || forall k :: 0 <= k < |cell.value| ==> !IsDigit(cell.value[k])
  {
    match cell
    case None => None
    case Some(s) =>
      match FirstDigitRun(s)
      case None => None
      case Some(span) => Some(DecimalValue(s[span.0..span.1]))
  }

  /** A rendered number followed by a unit reads back as that number: "90 min" gives 90, "2 Seasons" gives 2. */
  lemma ExtractRendered(n: nat, unit: string)
    requires unit == [] || !IsDigit(unit[0])
    ensures ExtractNumber(Some(DecimalString(n) + unit)) == Some(n)
  {
    var ds := DecimalString(n);
    var s := ds + unit;
    var span := FirstDigitRun(s).value;
    assert forall k :: 0 <= k < |ds| ==> IsDigit(s[k]);
    assert |ds| < |s| ==> !IsDigit(s[|ds|]);
    assert span.0 == 0;
    assert span.1 == |ds|;
    assert s[span.0..span.1] == ds;
    DecimalRoundTrip(n);
  }

  lemma RuntimeExample()
    ensures ExtractNumber(Some("90 min")) == Some(90)
  {
    var ds := DecimalString(90);
    assert ds == "90";
    ExtractRendered(90, " min");
    assert ds + " min" == "90 min";
  }

  lemma SeasonExample()
    ensures ExtractNumber(Some("2 Seasons")) == Some(2)
  {
    var ds := DecimalString(2);
    assert ds == "2";
    ExtractRendered(2, " Seasons");
    assert ds + " Seasons" == "2 Seasons";
  }

  lemma UnknownDurationHasNoNumber()
    ensures ExtractNumber(Some("Unknown")) == None
  {
    assert forall k :: 0 <= k < |"Unknown"| ==> !IsDigit("Unknown"[k]);
  }

  /** `df["type"] == kind` as a row mask: a missing type equals nothing. */
  function IsKind(kind: string): Title -> bool
  {
    (t: Title) => t.kind == Some(kind)
  }

  /** The extracted durations of the titles of one type, in row order (missing where no number is found). */
  function Durations(df: seq<Title>, kind: string): (ds: seq<Option<nat>>)
    ensures |ds| == |Filter(df, IsKind(kind))|
    ensures forall i :: 0 <= i < |ds| ==> ds[i] == ExtractNumber(Filter(df, IsKind(kind))[i].duration)
    decreases |df|
  {
    if df == [] then []
    else if df[0].kind == Some(kind) then [ExtractNumber(df[0].duration)] + Durations(df[1..], kind)
    else Durations(df[1..], kind)
  }

  /** The season numbers of the TV shows, missing ones dropped (`tv_seasons[0]` without its NaN). */
  function Seasons(df: seq<Title>): seq<nat>
  {
    Present(Durations(df, "TV Show"))
  }

  /** `tv_seasons[0].value_counts().sort_index()`: shows per season count, fewest seasons first. */
  function SeasonCounts(df: seq<Title>): (r: seq<Entry<nat>>)
    ensures forall i, j :: 0 <= i < j < |r| ==> r[i].key < r[j].key
    ensures forall e :: e in r ==> e.count == multiset(Seasons(df))[e.key] && e.count > 0
    ensures KeysOf(r) == set n | n in Seasons(df)
    ensures SumCounts(r) == |Seasons(df)|
  {
    SeasonTable(Seasons(df))
  }

  /** `value_counts().sort_index()` of a column of season numbers. */
  function SeasonTable(seasons: seq<nat>): (r: seq<Entry<nat>>)
    ensures forall i, j :: 0 <= i < j < |r| ==> r[i].key < r[j].key
    ensures forall e :: e in r ==> e.count == multiset(seasons)[e.key] && e.count > 0
    ensures KeysOf(r) == set n | n in seasons
    ensures SumCounts(r) == |seasons|
  {
    var counts := ValueCounts(seasons);
    var r := SortByKey(counts);
    SortedDistinctAscending(counts, r);
    ValueCountsEntries(seasons, counts, r);
    r
  }

  /** Sorting a table of distinct keys by key leaves the keys strictly increasing. */
  lemma SortedDistinctAscending(counts: seq<Entry<nat>>, r: seq<Entry<nat>>)
    requires DistinctKeys(counts) && multiset(r) == multiset(counts) && SortedByKey(r)
    ensures forall i, j :: 0 <= i < j < |r| ==> r[i].key < r[j].key
  {
    PermutationKeys(counts, r);
  }

  lemma ValueCountsEntries<K>(xs: seq<K>, counts: seq<Entry<K>>, r: seq<Entry<K>>)
    requires forall e :: e in counts ==> e.count == multiset(xs)[e.key]
    requires KeysOf(counts) == set x | x in xs
    requires multiset(r) == multiset(counts)
    ensures forall e :: e in r ==> e.count == multiset(xs)[e.key] && e.count > 0
    ensures KeysOf(r) == set x | x in xs
  {
    PermutationKeys(counts, r);
    forall e | e in r ensures e.count == multiset(xs)[e.key] && e.count > 0 {
      assert e in multiset(r);
      assert e in counts;
      assert e.key in KeysOf(counts);
    }
  }

  /** What the duration panel shows. */
  datatype DurationChart = Runtimes(minutes: seq<Option<nat>>) | SeasonBars(counts: seq<Entry<nat>>) | NoDurationChart

  /** `analysis_type`: the chosen content type, with "All" falling back to movies. */
  function AnalysisType(contentType: string): (a: string)
    ensures contentType == AllTypes ==> a == "Movie"
    ensures contentType != AllTypes ==> a == contentType
  {
    if contentType != AllTypes then contentType else "Movie"
  }

  /** `create_duration_histogram`: movie runtimes, TV season counts, or nothing for any other type. */
  function DurationAnalysis(df: seq<Title>, contentType: string): (chart: DurationChart)
    ensures contentType == AllTypes || contentType == "Movie" ==> chart == Runtimes(Durations(df, "Movie"))
    ensures contentType == "TV Show" ==> chart == SeasonBars(SeasonCounts(df))
    ensures contentType !in ContentTypeOptions ==> chart == NoDurationChart
  {
    var analysis := AnalysisType(contentType);
    if analysis == "Movie" then Runtimes(Durations(df, "Movie"))
    else if analysis == "TV Show" then SeasonBars(SeasonCounts(df))
    else NoDurationChart
  }

  // ---------------------------------------------------------------------------
  // create_description_wordcloud (lines 155-171)
  // ---------------------------------------------------------------------------

  function DescriptionCells(df: seq<Title>): (cells: seq<Option<string>>)
    ensures |cells| == |df|
    ensures forall i :: 0 <= i < |df| ==> cells[i] == df[i].description
    decreases |df|
  {
    if df == [] then [] else [df[0].description] + DescriptionCells(df[1..])
  }

  /** `" ".join(desc for desc in filtered_df["description"].dropna())`. */
  function Corpus(df: seq<Title>): (text: string)
    ensures text == "" <==> Present(DescriptionCells(df)) == [] || Present(DescriptionCells(df)) == [""]
    ensures Present(DescriptionCells(df)) != [] ==>
      |text| == TotalLength(Present(DescriptionCells(df))) + |Present(DescriptionCells(df))| - 1
  {
    var descriptions := Present(DescriptionCells(df));
    JoinEmptyIff(descriptions, " ");
    if descriptions == [] then Join(descriptions, " ")
    else JoinLength(descriptions, " "); Join(descriptions, " ")
  }

  lemma {:induction false} DescriptionCellsAppend(df: seq<Title>, t: Title)
    ensures DescriptionCells(df + [t]) == DescriptionCells(df) + [t.description]
    decreases |df|
  {
    if df != [] {
      assert (df + [t])[1..] == df[1..] + [t];
      DescriptionCellsAppend(df[1..], t);
    }
  }

  /**
    The corpus is built in row order: a title added at the end contributes its
    description after one space, or as the whole text when it is the first
    present one, and nothing when its description is missing.
   */
  lemma CorpusAppend(df: seq<Title>, t: Title)
    ensures Corpus(df + [t]) ==
      if t.description.None? then Corpus(df)
      else if Present(DescriptionCells(df)) == [] then t.description.value
      else Corpus(df) + " " + t.description.value
  {
    DescriptionCellsAppend(df, t);
    PresentSnoc(DescriptionCells(df), t.description);
    if t.description.Some? {
      JoinSnoc(Present(DescriptionCells(df)), t.description.value, " ");
    } else {
      assert Present(DescriptionCells(df)) + [] == Present(DescriptionCells(df));
    }
  }

  /** What the word-cloud panel shows. */
  datatype Cloud = WordCloud(text: string) | NoDescriptionsWarning | NoDataWarning

  function DescriptionCloud(df: seq<Title>): (c: Cloud)
    ensures c == NoDataWarning <==> df == []
    ensures c == NoDescriptionsWarning <==>
      df != [] && (Present(DescriptionCells(df)) == [] || Present(DescriptionCells(df)) == [""])
    ensures c.WordCloud? ==> c.text != "" && c.text == Corpus(df)
  {
    JoinEmptyIff(Present(DescriptionCells(df)), " ");
    if df == [] then NoDataWarning
    else
      var text := Corpus(df);
      if text != "" then WordCloud(text) else NoDescriptionsWarning
  }

  // ---------------------------------------------------------------------------
  // create_main_page (lines 174-227)
  // ---------------------------------------------------------------------------

  datatype Metrics = Metrics(total: nat, movies: nat, tvShows: nat)

  /** The three key metrics: all titles, movies, TV shows. */
  function KeyMetrics(df: seq<Title>): (m: Metrics)
    ensures m.total == |df|
    ensures m.movies == multiset(Present(KindCells(df)))["Movie"]
    ensures m.tvShows == multiset(Present(KindCells(df)))["TV Show"]
    ensures m.movies + m.tvShows <= m.total
  {
    DisjointFilters(df, "Movie", "TV Show");
    KindFilterCount(df, "Movie");
    KindFilterCount(df, "TV Show");
    Metrics(|df|, |Filter(df, IsKind("Movie"))|, |Filter(df, IsKind("TV Show"))|)
  }

  lemma {:induction false} DisjointFilters(df: seq<Title>, k1: string, k2: string)
    requires k1 != k2
    ensures |Filter(df, IsKind(k1))| + |Filter(df, IsKind(k2))| <= |df|
    decreases |df|
  {
    if df != [] {
      DisjointFilters(df[1..], k1, k2);
    }
  }

  function KindCells(df: seq<Title>): (cells: seq<Option<string>>)
    ensures |cells| == |df|
    ensures forall i :: 0 <= i < |df| ==> cells[i] == df[i].kind
    decreases |df|
  {
    if df == [] then [] else [df[0].kind] + KindCells(df[1..])
  }

  /** `filtered_df["type"].value_counts()`: the pie chart. */
  function TypeCounts(df: seq<Title>): (r: seq<Entry<string>>)
    ensures DistinctKeys(r)
    ensures KeysOf(r) == set t | t in df && t.kind.Some? :: t.kind.value
    ensures forall e :: e in r ==> e.count == |Filter(df, IsKind(e.key))| && e.count > 0
    ensures (forall t :: t in df ==> t.kind.Some?) ==> SumCounts(r) == |df|
  {
    var r := ValueCounts(Present(KindCells(df)));
    TypeCountsAgree(df, r);
    PresentKinds(df);
    r
  }

  lemma TypeCountsAgree(df: seq<Title>, r: seq<Entry<string>>)
    requires r == ValueCounts(Present(KindCells(df)))
    ensures forall e :: e in r ==> e.count == |Filter(df, IsKind(e.key))| && e.count > 0
    ensures (forall t :: t in df ==> t.kind.Some?) ==> SumCounts(r) == |df|
  {
    forall e | e in r ensures e.count == |Filter(df, IsKind(e.key))| && e.count > 0 {
      KindFilterCount(df, e.key);
      assert e.key in KeysOf(r);
      assert e.key in Present(KindCells(df));
    }
    if forall t :: t in df ==> t.kind.Some? {
      AllPresent(df);
    }
  }

  /** The types `value_counts` sees are the types of the rows that have one. */
  lemma PresentKinds(df: seq<Title>)
    ensures (set x | x in Present(KindCells(df))) == set t | t in df && t.kind.Some? :: t.kind.value
  {
    var cells := KindCells(df);
    forall x | x in Present(cells) ensures exists t :: t in df && t.kind == Some(x) {
      var i :| 0 <= i < |cells| && cells[i] == Some(x);
      assert df[i] in df;
    }
    forall t | t in df && t.kind.Some? ensures t.kind.value in Present(cells) {
      var i :| 0 <= i < |df| && df[i] == t;
      assert cells[i] in cells;
    }
  }

  /** Counting a type through `value_counts` agrees with the length of the boolean-mask selection. */
  lemma {:induction false} KindFilterCount(df: seq<Title>, k: string)
    ensures |Filter(df, IsKind(k))| == multiset(Present(KindCells(df)))[k]
    decreases |df|
  {
    if df != [] {
      KindFilterCount(df[1..], k);
      assert KindCells(df)[1..] == KindCells(df[1..]);
      if df[0].kind.Some? {
        assert Present(KindCells(df)) == [df[0].kind.value] + Present(KindCells(df[1..]));
      }
    }
  }

  lemma {:induction false} AllPresent(df: seq<Title>)
    requires forall t :: t in df ==> t.kind.Some?
    ensures |Present(KindCells(df))| == |df|
    decreases |df|
  {
    if df != [] {
      assert KindCells(df)[1..] == KindCells(df[1..]);
      AllPresent(df[1..]);
    }
  }

  /** Everything the main page renders, computed from the filtered table. */
  datatype Page = Page(
    metrics: Metrics,
    worldMap: seq<MapRow>,
    typeCounts: seq<Entry<string>>,
    topCountries: seq<Entry<string>>,
    topGenres: seq<Entry<string>>,
    movieFallbackNote: bool,
    duration: DurationChart,
    cloud: Cloud)

  function CreateMainPage(df: seq<Title>, contentType: string, reg: Registry): (p: Page)
    ensures p.metrics.total == |df|
    ensures |p.topCountries| == Min(TopCountryCount, |CountryCounts(df)|)
    ensures |p.topGenres| == Min(TopGenreCount, |ValueCounts(GenreTokens(df))|)
    ensures p.movieFallbackNote <==> contentType == AllTypes
    ensures p.cloud == NoDataWarning <==> df == []
  {
    Page(KeyMetrics(df), WorldMapData(df, reg), TypeCounts(df), TopCountries(df), TopGenres(df),
         contentType == AllTypes, DurationAnalysis(df, contentType), DescriptionCloud(df))
  }

}
