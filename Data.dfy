/**
  `load_data` (data.py): read the Netflix titles CSV, parse `date_added`,
  derive `year_added`, drop rows that lack any of the four fields the
  dashboard needs, and make the two year columns integers. Any exception
  becomes an error message and an empty table.

  The HTTP fetch is a parameter (`Fetch`), and so is the date parser behind
  `pd.to_datetime(..., errors="coerce")`: a function from a cell's text to
  a date, or to nothing when the text does not parse.
 */
module Data {

  import opened Wrappers
  import opened Seqs
  import opened Text

  datatype Date = Date(year: int, month: nat, day: nat)

  /**
    A row as `pd.read_csv` returns it. Any cell may be missing (NaN); the
    numeric column is a float column, which is what pandas makes of a
    column of integers with gaps.
   */
  datatype RawRow = RawRow(
    title: Option<string>,
    kind: Option<string>,          // the `type` column: "Movie" or "TV Show"
    country: Option<string>,       // comma-separated country names
    dateAdded: Option<string>,     // e.g. " September 25, 2021"
    releaseYear: Option<real>,
    rating: Option<string>,
    duration: Option<string>,      // "90 min" or "2 Seasons"
    listedIn: Option<string>,      // comma-separated genres
    description: Option<string>)

  /** A row after `date_added` has been parsed and `year_added` derived from it. */
  datatype Row = Row(
    title: Option<string>,
    kind: Option<string>,
    country: Option<string>,
    dateAdded: Option<Date>,       // NaT when missing or unparsable
    yearAdded: Option<real>,
    releaseYear: Option<real>,
    rating: Option<string>,
    duration: Option<string>,
    listedIn: Option<string>,
    description: Option<string>)

  /** A row of the cleaned table that the rest of the dashboard reads. */
  datatype Title = Title(
    title: Option<string>,
    kind: Option<string>,
    country: string,
    dateAdded: Date,
    yearAdded: int,
    releaseYear: int,
    rating: string,
    duration: Option<string>,
    listedIn: Option<string>,
    description: Option<string>)

  /** The outcome of `pd.read_csv(url)`: the rows, or the exception it raised. */
  datatype Fetch = Fetched(rows: seq<RawRow>) | FetchFailed(reason: string)

  const ErrorPrefix: string := "Error loading or processing data: "

  /** What pandas raises when `.str` is used on a column that holds no strings. */
  const StrAccessorError: string := "Can only use .str accessor with string values!"

  /**
    `df["date_added"].str.strip()` raises when the column holds no string at
    all: a non-empty column of nothing but NaN is read as a float column,
    and the `.str` accessor refuses it.
   */
  predicate StrAccessorFails(raw: seq<RawRow>)
  {
    |raw| > 0 && forall r :: r in raw ==> r.dateAdded.None?
  }

  // ---------------------------------------------------------------------------
  // Cleaning, one row at a time
  // ---------------------------------------------------------------------------

  /** `astype(int)` on a float: truncation toward zero. */
  function Trunc(x: real): (n: int)
    ensures x >= 0.0 ==> n as real <= x < n as real + 1.0
    ensures x < 0.0 ==> n as real - 1.0 < x <= n as real
  {
    if x >= 0.0 then x.Floor else -((-x).Floor)
  }

  /** A float that holds a whole number converts back to that number. */
  lemma TruncWhole(n: int)
    ensures Trunc(n as real) == n
  {
  }

  /** Lines 21-22: parse the stripped `date_added` text and take its year. */
  function Stage(parse: string -> Option<Date>, r: RawRow): (row: Row)
    ensures row.dateAdded == (if r.dateAdded.Some? then parse(Strip(r.dateAdded.value)) else None)
    ensures row.yearAdded.Some? <==> r.dateAdded.Some? && parse(Strip(r.dateAdded.value)).Some?
    ensures row.yearAdded.Some? ==> row.yearAdded.value == parse(Strip(r.dateAdded.value)).value.year as real
    ensures row.title == r.title && row.kind == r.kind && row.country == r.country
    ensures row.releaseYear == r.releaseYear && row.rating == r.rating && row.duration == r.duration
    ensures row.listedIn == r.listedIn && row.description == r.description
  {
    var date := if r.dateAdded.Some? then parse(Strip(r.dateAdded.value)) else None;
    Row(r.title, r.kind, r.country, date,
        if date.Some? then Some(date.value.year as real) else None,
        r.releaseYear, r.rating, r.duration, r.listedIn, r.description)
  }

  /** Lines 25-27: the four fields `dropna` looks at are all present. */
  predicate Complete(row: Row)
  {
    row.rating.Some? && row.releaseYear.Some? && row.yearAdded.Some? && row.country.Some?
  }

  /** Lines 30-31: the row with both year columns as integers. */
  function Coerce(row: Row): Title
    requires Complete(row) && row.dateAdded.Some?
  {
    Title(row.title, row.kind, row.country.value, row.dateAdded.value,
          Trunc(row.yearAdded.value), Trunc(row.releaseYear.value),
          row.rating.value, row.duration, row.listedIn, row.description)
  }

  // ---------------------------------------------------------------------------
  // Cleaning a whole table
  // ---------------------------------------------------------------------------

  function StageAll(parse: string -> Option<Date>, raw: seq<RawRow>): (rows: seq<Row>)
    ensures |rows| == |raw|
    ensures forall i :: 0 <= i < |raw| ==> rows[i] == Stage(parse, raw[i])
    decreases |raw|
  {
    if raw == [] then [] else [Stage(parse, raw[0])] + StageAll(parse, raw[1..])
  }

  function CoerceAll(rows: seq<Row>): (ts: seq<Title>)
    requires forall row :: row in rows ==> Complete(row) && row.dateAdded.Some?
    ensures |ts| == |rows|
    ensures forall i :: 0 <= i < |rows| ==> ts[i] == Coerce(rows[i])
    decreases |rows|
  {
    if rows == [] then [] else [Coerce(rows[0])] + CoerceAll(rows[1..])
  }

  /**
    The table `load_data` returns when nothing raises: exactly the surviving
    rows of the input, in their original order, each converted on its own.
   */
  function Clean(parse: string -> Option<Date>, raw: seq<RawRow>): (ts: seq<Title>)
    ensures forall r :: r in Filter(raw, Survivor(parse)) ==> Survives(parse, r)
    ensures ts == ConvertAll(parse, Filter(raw, Survivor(parse)))
  {
    var kept := Filter(StageAll(parse, raw), Complete);
    assert forall row :: row in kept ==> Complete(row) && row.dateAdded.Some?;
    var survivors := Filter(raw, Survivor(parse));
    assert forall r :: r in survivors ==> Survives(parse, r);
    StageThenDrop(parse, raw);
    StagedSurvivorsCoerce(parse, survivors);
    CoerceAll(kept)
  }

  /** Lines 21-22, over the whole frame: overwrite `date_added`, add `year_added`. */
  method ParseDates(raw: seq<RawRow>, parse: string -> Option<Date>) returns (rows: seq<Row>)
    ensures rows == StageAll(parse, raw)
  {
    rows := [];
    var i := 0;
    while i < |raw|
      invariant 0 <= i <= |raw|
      invariant |rows| == i
      invariant forall k :: 0 <= k < i ==> rows[k] == Stage(parse, raw[k])
    {
      rows := rows + [Stage(parse, raw[i])];
      i := i + 1;
    }
  }

  /** Lines 25-27: `dropna(subset=["rating", "release_year", "year_added", "country"])`. */
  method DropIncomplete(rows: seq<Row>) returns (kept: seq<Row>)
    ensures kept == Filter(rows, Complete)
  {
    kept := [];
    var i := 0;
    while i < |rows|
      invariant 0 <= i <= |rows|
      invariant kept == Filter(rows[..i], Complete)
    {
      FilterPrefixStep(rows, i, Complete);
      if Complete(rows[i]) {
        kept := kept + [rows[i]];
      }
      assert kept == Filter(rows[..i + 1], Complete);
      i := i + 1;
    }
    assert rows[..|rows|] == rows;
  }

  /** Lines 30-31: both year columns `astype(int)`. */
  method CoerceYears(rows: seq<Row>) returns (df: seq<Title>)
    requires forall row :: row in rows ==> Complete(row) && row.dateAdded.Some?
    ensures df == CoerceAll(rows)
  {
    df := [];
    var i := 0;
    while i < |rows|
      invariant 0 <= i <= |rows|
      invariant |df| == i
      invariant forall k :: 0 <= k < i ==> df[k] == Coerce(rows[k])
    {
      df := df + [Coerce(rows[i])];
      i := i + 1;
    }
  }

  /**
    `load_data`: the frame is changed column by column as the source does it,
    and any exception yields an empty table together with the message shown
    to the user.
   */
  method LoadData(fetch: Fetch, parse: string -> Option<Date>) returns (df: seq<Title>, error: Option<string>)
    ensures fetch.FetchFailed? ==> df == [] && error == Some(ErrorPrefix + fetch.reason)
    ensures fetch.Fetched? && StrAccessorFails(fetch.rows) ==>
      df == [] && error == Some(ErrorPrefix + StrAccessorError)
    ensures fetch.Fetched? && !StrAccessorFails(fetch.rows) ==>
      error == None && df == Clean(parse, fetch.rows)
  {
    if fetch.FetchFailed? {
      return [], Some(ErrorPrefix + fetch.reason);
    }
    if StrAccessorFails(fetch.rows) {
      return [], Some(ErrorPrefix + StrAccessorError);
    }
    var rows := ParseDates(fetch.rows, parse);
    rows := DropIncomplete(rows);
    df := CoerceYears(rows);
    error := None;
  }

  // ---------------------------------------------------------------------------
  // What the cleaned table is, in terms of the rows that were read
  // ---------------------------------------------------------------------------

  /** The raw row has all four required fields, its date text parses after stripping. */
  predicate Survives(parse: string -> Option<Date>, r: RawRow)
  {
    && r.rating.Some? && r.releaseYear.Some? && r.country.Some?
    && r.dateAdded.Some? && parse(Strip(r.dateAdded.value)).Some?
  }

  function Survivor(parse: string -> Option<Date>): RawRow -> bool
  {
    r => Survives(parse, r)
  }

  /** The cleaned form of one surviving row: only the date and the two year columns change. */
  function Convert(parse: string -> Option<Date>, r: RawRow): (t: Title)
    requires Survives(parse, r)
    ensures t.dateAdded == parse(Strip(r.dateAdded.value)).value
    ensures t.yearAdded == t.dateAdded.year
    ensures t.releaseYear == Trunc(r.releaseYear.value)
    ensures t.rating == r.rating.value && t.country == r.country.value
    ensures t.title == r.title && t.kind == r.kind && t.duration == r.duration
    ensures t.listedIn == r.listedIn && t.description == r.description
  {
    TruncWhole(parse(Strip(r.dateAdded.value)).value.year);
    Coerce(Stage(parse, r))
  }

  function ConvertAll(parse: string -> Option<Date>, raw: seq<RawRow>): (ts: seq<Title>)
    requires forall r :: r in raw ==> Survives(parse, r)
    ensures |ts| == |raw|
    ensures forall i :: 0 <= i < |raw| ==> ts[i] == Convert(parse, raw[i])
    decreases |raw|
  {
    if raw == [] then [] else [Convert(parse, raw[0])] + ConvertAll(parse, raw[1..])
  }

  /** A row survives cleaning exactly when its staged form has the four required fields. */
  lemma SurvivesIffComplete(parse: string -> Option<Date>, r: RawRow)
    ensures Survives(parse, r) <==> Complete(Stage(parse, r))
  {
  }

  /** Dropping incomplete staged rows is staging the surviving raw rows. */
  lemma {:induction false} StageThenDrop(parse: string -> Option<Date>, raw: seq<RawRow>)
    ensures Filter(StageAll(parse, raw), Complete) == StageAll(parse, Filter(raw, Survivor(parse)))
    decreases |raw|
  {
    if raw != [] {
      StageThenDrop(parse, raw[1..]);
      var staged := StageAll(parse, raw);
      assert staged[1..] == StageAll(parse, raw[1..]);
      SurvivesIffComplete(parse, raw[0]);
      var f := Filter(raw, Survivor(parse));
      if Survives(parse, raw[0]) {
        assert f == [raw[0]] + Filter(raw[1..], Survivor(parse));
        assert f[1..] == Filter(raw[1..], Survivor(parse));
      }
    }
  }

  /** Staging then coercing a surviving row is converting it. */
  lemma StagedSurvivorsCoerce(parse: string -> Option<Date>, rs: seq<RawRow>)
    requires forall r :: r in rs ==> Survives(parse, r)
    ensures forall row :: row in StageAll(parse, rs) ==> Complete(row) && row.dateAdded.Some?
    ensures CoerceAll(StageAll(parse, rs)) == ConvertAll(parse, rs)
  {
    var staged := StageAll(parse, rs);
    forall row | row in staged ensures Complete(row) && row.dateAdded.Some? {
      var i :| 0 <= i < |staged| && staged[i] == row;
      assert rs[i] in rs;
    }
    var ts, cs := CoerceAll(staged), ConvertAll(parse, rs);
    forall i | 0 <= i < |rs| ensures ts[i] == cs[i] {
      assert rs[i] in rs;
    }
  }

  /** Every row of the cleaned table comes from a surviving input row. */
  lemma CleanRowsComeFromSurvivors(parse: string -> Option<Date>, raw: seq<RawRow>, t: Title)
    requires t in Clean(parse, raw)
    ensures exists r :: r in raw && Survives(parse, r) && t == Convert(parse, r)
  {
    var survivors := Filter(raw, Survivor(parse));
    var ts := ConvertAll(parse, survivors);
    var i :| 0 <= i < |ts| && ts[i] == t;
    assert survivors[i] in survivors;
  }

  /** Every surviving input row is in the cleaned table. */
  lemma SurvivorsReachClean(parse: string -> Option<Date>, raw: seq<RawRow>, r: RawRow)
    requires r in raw && Survives(parse, r)
    ensures Convert(parse, r) in Clean(parse, raw)
  {
    var survivors := Filter(raw, Survivor(parse));
    FilterMembership(raw, Survivor(parse), r);
    var i :| 0 <= i < |survivors| && survivors[i] == r;
    assert ConvertAll(parse, survivors)[i] == Convert(parse, r);
  }

}
